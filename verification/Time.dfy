/** Timestamps: seconds and nanoseconds, as `src/core/i01_core/Time.hpp` computes with them. */
module Time {

  const NANOS: int := 1_000_000_000
  const TWO64: int := 0x1_0000_0000_0000_0000
  const TWO63: int := 0x8000_0000_0000_0000

  datatype Timestamp = Timestamp(sec: int, nsec: int)

  const EPOCH := Timestamp(0, 0)

  ghost predicate Normal(t: Timestamp) {
    0 <= t.nsec < NANOS
  }

  /** The instant a timestamp stands for. */
  function Nanos(t: Timestamp): (r: int) {
    t.sec * NANOS + t.nsec
  }

  /** A signed 64-bit operand converted to unsigned by C++'s usual arithmetic conversions. */
  function Unsigned64(n: int): (r: int) {
    if n < 0 then n + TWO64 else n
  }

  /** The normalising constructor. The remainder and the quotient are both computed unsigned. */
  function Make(s: int, n: int): (r: Timestamp) {
    var m := Unsigned64(n) % NANOS;
    Timestamp(s + Unsigned64(n - m) / NANOS, m)
  }

  function Plus(a: Timestamp, b: Timestamp): (r: Timestamp) {
    var sum := Make(a.sec + b.sec, a.nsec + b.nsec);
    if sum.nsec > NANOS then Timestamp(sum.sec + 1, sum.nsec - NANOS) else sum
  }

  function Minus(a: Timestamp, b: Timestamp): (r: Timestamp) {
    if b.nsec > a.nsec
    then Timestamp(a.sec - b.sec - 1, a.nsec + NANOS - b.nsec)
    else Timestamp(a.sec - b.sec, a.nsec - b.nsec)
  }

  predicate Less(a: Timestamp, b: Timestamp) {
    a.sec < b.sec || (a.sec == b.sec && a.nsec < b.nsec)
  }

  predicate AtMost(a: Timestamp, b: Timestamp) {
    a == b || Less(a, b)
  }

  /** The constructor keeps the instant exactly when the nanoseconds are not negative;
      a negative count lands 2^64 nanoseconds late. The result is always normal. */
  lemma MakeKeepsInstant(s: int, n: int)
    requires -TWO63 + NANOS <= n < TWO63  // n - m is then a signed 64-bit value
    ensures Normal(Make(s, n))
    ensures Nanos(Make(s, n)) == s * NANOS + n <==> n >= 0
    ensures n < 0 ==> Nanos(Make(s, n)) == s * NANOS + n + TWO64
  {
  }

  /** On normal timestamps `+` and `-` are exact, normal and inverse to each other. */
  lemma PlusMinusExact(a: Timestamp, b: Timestamp)
    requires Normal(a) && Normal(b)
    ensures Normal(Plus(a, b)) && Nanos(Plus(a, b)) == Nanos(a) + Nanos(b)
    ensures Normal(Minus(a, b)) && Nanos(Minus(a, b)) == Nanos(a) - Nanos(b)
    ensures Minus(Plus(a, b), b) == a && Plus(Minus(a, b), b) == a
  {
  }

  /** The comparison operators order normal timestamps by instant. */
  lemma OrderIsInstant(a: Timestamp, b: Timestamp)
    requires Normal(a) && Normal(b)
    ensures Less(a, b) <==> Nanos(a) < Nanos(b)
    ensures AtMost(a, b) <==> Nanos(a) <= Nanos(b)
  {
  }
}
