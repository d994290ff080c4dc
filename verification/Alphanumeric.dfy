/** Unsigned integers as fixed-width alphanumeric tokens in base 62 or 36, padded on either side:
    `src/core/i01_core/Alphanumeric.hpp`. Unsigned arithmetic wraps at `modulus`. */
module Alphanumeric {
  import opened Basics

  /** The two bases of the template. */
  type Base = b: nat | b == 62 || b == 36 witness 62

  function Times(b: Base, x: nat): (r: nat) { if b == 62 then 62 * x else 36 * x }

  function Quotient(n: nat, b: Base): (r: nat) { if b == 62 then n / 62 else n / 36 }

  function Remainder(n: nat, b: Base): (r: nat) { if b == 62 then n % 62 else n % 36 }

  function Pow(b: Base, e: nat): (r: nat) {
    if e == 0 then 1 else Times(b, Pow(b, e - 1))
  }

  predicate IsAlphanumeric(c: byte) {
    48 <= c <= 57 || 65 <= c <= 90 || 97 <= c <= 122
  }

  /** The character set: digits, capitals, small letters. */
  function Symbol(d: nat): (r: byte)
    requires d < 62
  {
    if d < 10 then 48 + d else if d < 36 then 65 + (d - 10) else 97 + (d - 36)
  }

  /** The digits are the alphanumeric characters in the order of their codes, which they rise with. */
  lemma SymbolsInOrder(d: nat, e: nat)
    requires d < e < 62
    ensures Symbol(d) < Symbol(e) && IsAlphanumeric(Symbol(d)) && IsAlphanumeric(Symbol(e))
    ensures (d < 10 <==> Symbol(d) <= 57) && (d < 36 <==> Symbol(d) <= 90)
  {
  }

  /** The instantiation of the template. */
  datatype Format = Format(caseSensitive: bool, leftPadding: bool, pad: byte)
  {
    function Base(): (r: Base) { if caseSensitive then 62 else 36 }
  }

  /** The value `get` reads in a character; none if it is not valid. Capitals and small letters read
      the same in base 36. */
  function DigitOf(f: Format, c: byte): (r: Option<nat>) {
    if 48 <= c <= 57 then Some(c - 48)
    else if 65 <= c <= 90 then Some(c - 65 + 10)
    else if 97 <= c <= 122 then Some(c - 97 + if f.caseSensitive then 36 else 10)
    else if c == f.pad then Some(0)
    else None
  }

  // ----- tokens by increasing significance -----

  predicate AllValid(f: Format, s: seq<byte>) {
    forall i :: 0 <= i < |s| ==> DigitOf(f, s[i]).Some?
  }

  /** The number a token stands for. */
  function Value(f: Format, s: seq<byte>): (r: nat)
    requires AllValid(f, s)
  {
    if s == [] then 0 else DigitOf(f, s[0]).value + Times(f.Base(), Value(f, s[1..]))
  }

  /** What `set` writes: digits until the number is used up, at least one, then padding. */
  function Written(f: Format, n: nat, width: nat, first: bool): (s: seq<byte>)
    ensures |s| == width
  {
    if width == 0 then []
    else [if n == 0 && !first then f.pad else Symbol(Remainder(n, f.Base()))] + Written(f, Quotient(n, f.Base()), width - 1, false)
  }

  /** What is left of the number after `width` digits. */
  function Leftover(base: Base, n: nat, width: nat): (r: nat) {
    if width == 0 then n else Leftover(base, Quotient(n, base), width - 1)
  }

  lemma QuotientLess(n: nat, b: Base, c: nat)
    ensures Quotient(n, b) < c <==> n < Times(b, c)
    ensures n == Remainder(n, b) + Times(b, Quotient(n, b))
  {
  }

  /** The number fits exactly when it is below `base^width`. */
  lemma {:induction false} LeftoverZero(base: Base, n: nat, width: nat)
    ensures Leftover(base, n, width) == 0 <==> n < Pow(base, width)
  {
    if width > 0 {
      LeftoverZero(base, Quotient(n, base), width - 1);
      QuotientLess(n, base, Pow(base, width - 1));
    }
  }

  lemma SymbolReadsBack(f: Format, d: nat)
    requires d < f.Base()
    ensures DigitOf(f, Symbol(d)) == Some(d)
  {
  }

  /** Reading inverts writing for every number that fits. */
  lemma {:induction false} ReadsBack(f: Format, n: nat, width: nat, first: bool)
    requires !IsAlphanumeric(f.pad)
    ensures AllValid(f, Written(f, n, width, first))
    ensures n < Pow(f.Base(), width) ==> Value(f, Written(f, n, width, first)) == n
  {
    if width > 0 {
      var b := f.Base();
      var q, d := Quotient(n, b), Remainder(n, b);
      var s, rest := Written(f, n, width, first), Written(f, q, width - 1, false);
      ReadsBack(f, q, width - 1, false);
      SymbolReadsBack(f, d);
      QuotientLess(n, b, Pow(b, width - 1));
      hide Quotient, Remainder, Times, Symbol;
      assert s == [s[0]] + rest && s[1..] == rest;
      assert DigitOf(f, s[0]) == Some(d);
    }
  }

  /** The number 62 is "10" in base 62 and "1Q" in base 36, the unused place padded. */
  lemma SixtyTwo(pad: byte)
    ensures Written(Format(true, true, pad), 62, 3, true) == [48, 49, pad]
    ensures Written(Format(false, true, pad), 62, 3, true) == [81, 49, pad]
  {
    forall caseSensitive | caseSensitive || !caseSensitive
      ensures Written(Format(caseSensitive, true, pad), 62, 3, true) == if caseSensitive then [48, 49, pad] else [81, 49, pad]
    {
      var f := Format(caseSensitive, true, pad);
      assert Written(f, 0, 1, false) == [pad] + Written(f, 0, 0, false) == [pad];
      assert Written(f, 1, 2, false) == [49] + Written(f, 0, 1, false);
    }
  }

  /** A sequence the other way round. */
  function Reversed(s: seq<byte>): (r: seq<byte>)
    ensures |r| == |s| && forall k :: 0 <= k < |s| ==> r[k] == s[|s| - 1 - k]
  {
    if s == [] then [] else Reversed(s[1..]) + [s[0]]
  }

  /** Distinct numbers that fit have distinct tokens. */
  lemma TokensDistinct(f: Format, m: nat, n: nat, width: nat)
    requires !IsAlphanumeric(f.pad) && m < Pow(f.Base(), width) && n < Pow(f.Base(), width)
    ensures Written(f, m, width, true) == Written(f, n, width, true) <==> m == n
  {
    ReadsBack(f, m, width, true);
    ReadsBack(f, n, width, true);
  }

  // ----- wrapping arithmetic -----

  lemma NoMultipleBetween(m: int, d: int, e: int)
    requires m > 0 && m * d == e && -m < e < m
    ensures d == 0
  {
  }

  lemma RemainderUnique(x: nat, m: nat, q: nat, r: nat)
    requires m > 0 && x == m * q + r && r < m
    ensures x % m == r
  {
    var q', r' := x / m, x % m;
    assert x == m * q' + r';
    assert m * (q - q') == m * q - m * q';
    NoMultipleBetween(m, q - q', r' - r);
  }

  lemma AddMultiple(x: nat, k: nat, m: nat)
    requires m > 0
    ensures (x + m * k) % m == x % m
  {
    assert x == m * (x / m) + x % m;
    assert m * (x / m + k) == m * (x / m) + m * k;
    RemainderUnique(x + m * k, m, x / m + k, x % m);
  }

  // products and remainders by name, so that proofs can treat them as opaque

  function Mul(a: nat, b: nat): (r: nat) { a * b }

  function Mod(x: nat, m: nat): (r: nat)
    requires m > 0
  {
    x % m
  }

  lemma Expand(a: nat, b: nat, c: nat, m: nat, qa: nat, qb: nat, ra: nat, rb: nat)
    requires a == m * qa + ra && b == m * qb + rb
    ensures a + b * c == ra + rb * c + m * (qa + qb * c)
  {
  }

  /** Reducing an addend and a factor first does not change the result. */
  lemma WrapStep(a: nat, b: nat, c: nat, m: nat)
    requires m > 0
    ensures Mod(Mod(a, m) + Mul(Mod(b, m), c), m) == Mod(a + Mul(b, c), m)
  {
    var qa, qb, ra, rb := a / m, b / m, a % m, b % m;
    Expand(a, b, c, m, qa, qb, ra, rb);
    AddMultiple(ra + rb * c, qa + qb * c, m);
  }

  lemma TimesCommutes(b: Base, x: nat, y: nat)
    ensures Mul(Times(b, x), y) == Mul(x, Times(b, y))
  {
  }

  lemma Distributes(x: nat, a: nat, b: nat)
    ensures Mul(x, a + b) == Mul(x, a) + Mul(x, b)
  {
  }

  /** Where `get` stands: what it has summed, and its multiplier times the number still to come, make
      up the whole number once reduced. */
  ghost predicate Tally(f: Format, s: seq<byte>, k: nat, ret: nat, mult: nat, m: nat)
    requires k <= |s| && m > 0
  {
    AllValid(f, s) ==> Mod(ret + Mul(mult, Value(f, s[k..])), m) == Mod(Value(f, s), m)
  }

  /** One round of `get`'s loop. */
  lemma TallyStep(f: Format, s: seq<byte>, k: nat, ret: nat, mult: nat, digit: nat, m: nat)
    requires k < |s| && m > 0 && DigitOf(f, s[k]) == Some(digit) && Tally(f, s, k, ret, mult, m)
    ensures Tally(f, s, k + 1, Mod(ret + Mul(mult, digit), m), Mod(Times(f.Base(), mult), m), m)
  {
    hide Times, Mul, Mod;
    if AllValid(f, s) {
      assert s[k..][1..] == s[k + 1..];
      var rest := Value(f, s[k + 1..]);
      WrapStep(ret + Mul(mult, digit), Times(f.Base(), mult), rest, m);
      TimesCommutes(f.Base(), mult, rest);
      Distributes(mult, digit, Times(f.Base(), rest));
    }
  }

  lemma TallyStart(f: Format, s: seq<byte>, m: nat)
    requires m > 0
    ensures Tally(f, s, 0, 0, 1, m)
  {
  }

  lemma TallyEnd(f: Format, s: seq<byte>, ret: nat, mult: nat, m: nat)
    requires AllValid(f, s) && ret < m && Tally(f, s, |s|, ret, mult, m)
    ensures ret == Mod(Value(f, s), m)
  {
    assert s[|s|..] == [] && Value(f, []) == 0;
    RemainderUnique(ret, m, 0, ret);
    assert mult * 0 == 0;
  }

  lemma SmallMod(n: nat, m: nat)
    requires n < m
    ensures Mod(n, m) == n
  {
  }

  // ----- the union -----

  class Token {
    const format: Format
    const raw: array<byte>

    constructor (format: Format, width: nat)
      ensures this.format == format && fresh(raw) && raw.Length == width
    {
      this.format, this.raw := format, new byte[width](_ => 0);
    }

    /** Where the digit of weight `base^k` is kept. */
    function Index(k: int): (r: int) {
      if format.leftPadding then raw.Length - 1 - k else k
    }

    /** The token by increasing significance. */
    ghost function Digits(): (s: seq<byte>)
      reads this, raw
      ensures |s| == raw.Length && forall k :: 0 <= k < |s| ==> s[k] == raw[Index(k)]
    {
      seq(raw.Length, k requires 0 <= k < raw.Length reads this, raw => raw[Index(k)])
    }

    /** `set`: true exactly when the number fits. */
    method Set(n0: nat) returns (ok: bool)
      modifies raw
      ensures ok <==> n0 < Pow(format.Base(), raw.Length)
      ensures Digits() == Written(format, n0, raw.Length, true)
    {
      var width, base := raw.Length, format.Base();
      var i := if format.leftPadding then width - 1 else 0;
      var n := n0;
      ghost var k := 0;
      ghost var all := Written(format, n0, width, true);
      assert all[0..] == all;
      while if format.leftPadding then i >= 0 else i < width
        invariant 0 <= k <= width && i == Index(k)
        invariant all[k..] == Written(format, n, width - k, k == 0)
        invariant forall j :: 0 <= j < k ==> raw[Index(j)] == all[j]
        invariant Leftover(base, n, width - k) == Leftover(base, n0, width)
        decreases width - k
      {
        assert all[k] == all[k..][0] && all[k..][1..] == all[k + 1..];
        if n == 0 && (if format.leftPadding then i < width - 1 else i > 0) {
          raw[i] := format.pad;
        } else {
          raw[i] := Symbol(Remainder(n, base));
        }
        n := Quotient(n, base);
        i := if format.leftPadding then i - 1 else i + 1;
        k := k + 1;
      }
      LeftoverZero(base, n0, width);
      assert Digits() == all;
      return n == 0;
    }

    /** The token as it stands in memory: with padding on the left the least significant digit is the last. */
    lemma DigitsInMemory()
      ensures raw[..] == if format.leftPadding then Reversed(Digits()) else Digits()
    {
      var digits := Digits();
      if format.leftPadding {
        forall k | 0 <= k < raw.Length ensures raw[k] == Reversed(digits)[k] { assert digits[raw.Length - 1 - k] == raw[Index(raw.Length - 1 - k)]; }
      } else {
        forall k | 0 <= k < raw.Length ensures raw[k] == digits[k] { assert digits[k] == raw[Index(k)]; }
      }
    }

    /** `get` with arithmetic modulo `modulus`: 0 if a character is invalid, otherwise the token's
        number reduced once, although every intermediate result wraps. */
    method Get(modulus: nat) returns (ret: nat)
      requires modulus >= 0x100
      ensures ret == if AllValid(format, Digits()) then Mod(Value(format, Digits()), modulus) else 0
    {
      hide Tally, Value, Times, Mul;
      var width, base := raw.Length, format.Base();
      ret := 0;
      var mult: nat := 1;
      var i := if format.leftPadding then width - 1 else 0;
      ghost var k := 0;
      ghost var s := Digits();
      TallyStart(format, s, modulus);
      while if format.leftPadding then i >= 0 else i < width
        invariant 0 <= k <= width && i == Index(k) && ret < modulus
        invariant forall j :: 0 <= j < k ==> DigitOf(format, s[j]).Some?
        invariant Tally(format, s, k, ret, mult, modulus)
        decreases width - k
      {
        var digit := DigitOf(format, raw[i]);
        if digit.None? {
          assert !AllValid(format, s) by { assert s[k] == raw[i]; }
          return 0;
        }
        TallyStep(format, s, k, ret, mult, digit.value, modulus);
        ret := Mod(ret + Mul(mult, digit.value), modulus);
        mult := Mod(Times(base, mult), modulus);
        i := if format.leftPadding then i - 1 else i + 1;
        k := k + 1;
      }
      TallyEnd(format, s, ret, mult, modulus);
    }

    /** The round trip: a number that fits the token and the type comes back, whatever wraps. */
    method SetThenGet(n: nat, modulus: nat) returns (ok: bool, back: nat)
      requires modulus >= 0x100 && n < modulus && !IsAlphanumeric(format.pad)
      modifies raw
      ensures ok <==> n < Pow(format.Base(), raw.Length)
      ensures ok ==> back == n
    {
      hide Pow, Times, Written, Value, Mod;
      ok := Set(n);
      back := Get(modulus);
      ReadsBack(format, n, raw.Length, true);
      if ok { SmallMod(n, modulus); }
    }
  }
}
