/** Optional values, bytes, fixed-width unsigned arithmetic and a few facts about sequences. */
module Basics {

  datatype Option<+T> = None | Some(value: T)

  type byte = x: int | 0 <= x < 0x100
  type u32 = x: int | 0 <= x < 0x1_0000_0000

  const U32_MAX: u32 := 0xFFFF_FFFF

  function Add32(a: u32, b: u32): (r: u32) { (a + b) % 0x1_0000_0000 }

  function Sub32(a: u32, b: u32): (r: u32) { (a - b) % 0x1_0000_0000 }

  lemma Add32Exact(a: u32, b: u32)
    requires a + b <= U32_MAX
    ensures Add32(a, b) == a + b
  {
  }

  lemma Sub32Exact(a: u32, b: u32)
    requires b <= a
    ensures Sub32(a, b) == a - b
  {
  }

  /** A little-endian 16-bit field. */
  function LE16(lo: byte, hi: byte): (r: nat) { lo + 0x100 * hi }

  function Min(a: int, b: int): (r: int) { if a < b then a else b }

  lemma ProductNonNegative(a: real, b: real)
    requires a >= 0.0 && b >= 0.0
    ensures a * b >= 0.0
  {
  }

  function TwoTo(n: nat): (r: nat) { if n == 0 then 1 else 2 * TwoTo(n - 1) }

  lemma {:induction false} TwoToPositive(n: nat)
    ensures TwoTo(n) > 0 && TwoTo(0) == 1 && TwoTo(n + 1) == TwoTo(n) + TwoTo(n)
  {
    if n > 0 { TwoToPositive(n - 1); }
  }

  lemma SubsetSize<T>(a: set<T>, b: set<T>)
    requires a <= b
    ensures |a| <= |b|
  {
    assert b == a + (b - a);
  }

  function Concat<T>(parts: seq<seq<T>>): (r: seq<T>) {
    if parts == [] then [] else parts[0] + Concat(parts[1..])
  }

  lemma {:induction false} ConcatAppend<T>(parts: seq<seq<T>>, last: seq<T>)
    ensures Concat(parts + [last]) == Concat(parts) + last
  {
    if parts == [] {
      assert Concat([last]) == last + Concat([]);
    } else {
      assert (parts + [last])[1..] == parts[1..] + [last];
      ConcatAppend(parts[1..], last);
    }
  }

  lemma {:induction false} ConcatPlus<T>(a: seq<seq<T>>, b: seq<seq<T>>)
    ensures Concat(a + b) == Concat(a) + Concat(b)
  {
    if a == [] {
      assert a + b == b;
    } else {
      assert (a + b)[1..] == a[1..] + b;
      ConcatPlus(a[1..], b);
    }
  }

  /** Replacing one part changes the total length by the difference. */
  lemma {:induction false} ConcatReplace<T>(parts: seq<seq<T>>, i: nat, x: seq<T>)
    requires i < |parts|
    ensures |Concat(parts[i := x])| == |Concat(parts)| - |parts[i]| + |x|
  {
    if i == 0 {
      assert parts[0 := x][1..] == parts[1..];
    } else {
      assert parts[i := x][1..] == parts[1..][i - 1 := x];
      ConcatReplace(parts[1..], i - 1, x);
    }
  }
}
