/** Time averages of quotes: the per-second accumulator, its closed form and the decaying average of
    `PricerStrategy::StockStats` (`src/ts/PricerStrategy.cpp`). Averages are over real numbers. */
module Pricer {
  import opened Basics

  /** Fixed-point prices (four decimals) and sizes. */
  datatype Quote = Quote(bid: nat, bidSize: u32, ask: nat, askSize: u32)

  /** A quote and the second it arrived in. */
  datatype Event = Event(sec: int, quote: Quote)

  function SpreadFixed(q: Quote): (r: int) { q.ask - q.bid }

  function Avail(q: Quote): (r: int) { Add32(q.bidSize, q.askSize) / 2 }

  function Spread(q: Quote): (r: real) { q.ask as real / 10000.0 - q.bid as real / 10000.0 }

  // ----- the reference: one sample per second -----

  /** The quote in force during second `s`: the latest event not after it. */
  function InForce(events: seq<Event>, s: int): (r: Quote)
    requires events != [] && events[0].sec <= s
  {
    var n := |events| - 1;
    if events[n].sec <= s || n == 0 then events[n].quote else InForce(events[..n], s)
  }

  /** The sum of `f` over the quotes in force in each second from the first event up to `until`. */
  function SampleSum(events: seq<Event>, f: Quote -> int, until: int): (r: int)
    requires events != []
    decreases until - events[0].sec
  {
    if until <= events[0].sec then 0
    else SampleSum(events, f, until - 1) + f(InForce(events, until - 1))
  }

  ghost predicate TimesInOrder(events: seq<Event>) {
    forall i, j :: 0 <= i < j < |events| ==> events[i].sec <= events[j].sec
  }

  /** A further event does not change the seconds before it. */
  lemma {:induction false} SampleSumExtends(events: seq<Event>, e: Event, f: Quote -> int, until: int)
    requires events != [] && events[0].sec <= e.sec && until <= e.sec
    ensures SampleSum(events + [e], f, until) == SampleSum(events, f, until)
    decreases until - events[0].sec
  {
    if until > events[0].sec {
      SampleSumExtends(events, e, f, until - 1);
      assert (events + [e])[..|events|] == events;
    }
  }

  /** From the last event on its quote stays in force. */
  lemma {:induction false} SampleSumTail(events: seq<Event>, f: Quote -> int, until: int)
    requires events != [] && TimesInOrder(events) && until >= events[|events| - 1].sec
    ensures var last := events[|events| - 1];
      SampleSum(events, f, until) == SampleSum(events, f, last.sec) + f(last.quote) * (until - last.sec)
    decreases until - events[|events| - 1].sec
  {
    var last := events[|events| - 1];
    if until > last.sec {
      SampleSumTail(events, f, until - 1);
      assert f(last.quote) * (until - last.sec) == f(last.quote) * (until - 1 - last.sec) + f(last.quote);
    }
  }

  lemma SampleSumOne(e: Event, f: Quote -> int)
    ensures SampleSum([e], f, e.sec) == 0 && TimesInOrder([e])
  {
  }

  /** What one event adds: the seconds since the previous event, at that event's value. */
  lemma SampleSumStep(events: seq<Event>, e: Event, f: Quote -> int)
    requires events != [] && TimesInOrder(events) && events[|events| - 1].sec <= e.sec
    ensures var last := events[|events| - 1];
      SampleSum(events + [e], f, e.sec) == SampleSum(events, f, last.sec) + f(last.quote) * (e.sec - last.sec)
    ensures TimesInOrder(events + [e])
  {
    SampleSumExtends(events, e, f, e.sec);
    SampleSumTail(events, f, e.sec);
  }

  // ----- what is sampled -----

  function BidPrice(q: Quote): (r: int) { q.bid }

  function AskPrice(q: Quote): (r: int) { q.ask }

  /** The accumulated spread is the accumulated ask less the accumulated bid. */
  lemma {:induction false} SpreadSumIsAskLessBid(events: seq<Event>, until: int)
    requires events != []
    ensures SampleSum(events, SpreadFixed, until) == SampleSum(events, AskPrice, until) - SampleSum(events, BidPrice, until)
    decreases until - events[0].sec
  {
    if until > events[0].sec { SpreadSumIsAskLessBid(events, until - 1); }
  }

  /** The spread in dollars is the fixed-point one over 10000, positive exactly when the quote is neither
      locked nor crossed. */
  lemma SpreadIsFixed(q: Quote)
    ensures Spread(q) * 10000.0 == SpreadFixed(q) as real
    ensures (Spread(q) > 0.0 <==> q.bid < q.ask) && (Spread(q) < 0.0 <==> q.ask < q.bid)
  {
  }

  /** The size sampled is the mean of the two sides, rounded down, if and only if their sum does not wrap. */
  lemma AvailIsMeanIff(q: Quote)
    ensures 2 * Avail(q) <= q.bidSize + q.askSize <= 2 * Avail(q) + 1 <==> q.bidSize + q.askSize <= U32_MAX
  {
  }

  // ----- the decaying average -----

  function Pow(decay: real, n: nat): (r: real) {
    if n == 0 then 1.0 else decay * Pow(decay, n - 1)
  }

  /** `n` seconds of the quote value `s` decayed into the average `x`. */
  function Blend(decay: real, n: nat, s: real, x: real): (r: real) {
    (1.0 - Pow(decay, n)) * s + Pow(decay, n) * x
  }

  /** The same, one second at a time. */
  function BlendEachSecond(decay: real, n: nat, s: real, x: real): (r: real) {
    if n == 0 then x else Blend(decay, 1, s, BlendEachSecond(decay, n - 1, s, x))
  }

  lemma BlendOnce(decay: real, p: real, s: real, x: real)
    ensures (1.0 - decay) * s + decay * ((1.0 - p) * s + p * x) == (1.0 - decay * p) * s + (decay * p) * x
  {
  }

  /** The closed form with a power is the per-second recurrence. */
  lemma {:induction false} BlendIsEachSecond(decay: real, n: nat, s: real, x: real)
    ensures Blend(decay, n, s, x) == BlendEachSecond(decay, n, s, x)
  {
    if n > 0 {
      BlendIsEachSecond(decay, n - 1, s, x);
      assert Pow(decay, 1) == decay * Pow(decay, 0) == decay;
      BlendOnce(decay, Pow(decay, n - 1), s, x);
    }
  }

  lemma BlendZero(decay: real, s: real, x: real)
    ensures Blend(decay, 0, s, x) == x
  {
  }

  lemma ProductBetween(a: real, b: real)
    requires 0.0 <= a <= 1.0 && 0.0 <= b <= 1.0
    ensures 0.0 <= a * b <= 1.0
  {
    ProductNonNegative(a, b);
    ProductNonNegative(1.0 - a, b);
    assert (1.0 - a) * b == b - a * b;
  }

  lemma {:induction false} PowBetween(decay: real, n: nat)
    requires 0.0 <= decay <= 1.0
    ensures 0.0 <= Pow(decay, n) <= 1.0
  {
    if n > 0 {
      PowBetween(decay, n - 1);
      ProductBetween(decay, Pow(decay, n - 1));
    }
  }

  lemma BlendNonNegative(decay: real, n: nat, s: real, x: real)
    requires 0.0 <= decay <= 1.0 && s >= 0.0 && x >= 0.0
    ensures Blend(decay, n, s, x) >= 0.0
  {
    PowBetween(decay, n);
    ProductNonNegative(1.0 - Pow(decay, n), s);
    ProductNonNegative(Pow(decay, n), x);
  }

  /** The decaying average by its definition: it starts from the first event's spread, decayed once, and
      takes in the quote in force once a second. */
  function Decayed(events: seq<Event>, decay: real, until: int): (r: real)
    requires events != []
    decreases until - events[0].sec
  {
    if until <= events[0].sec then (1.0 - decay) * Spread(events[0].quote)
    else Blend(decay, 1, Spread(InForce(events, until - 1)), Decayed(events, decay, until - 1))
  }

  lemma {:induction false} DecayedExtends(events: seq<Event>, e: Event, decay: real, until: int)
    requires events != [] && events[0].sec <= e.sec && until <= e.sec
    ensures Decayed(events + [e], decay, until) == Decayed(events, decay, until)
    decreases until - events[0].sec
  {
    hide Blend, Spread;
    assert (events + [e])[0] == events[0];
    if until > events[0].sec {
      DecayedExtends(events, e, decay, until - 1);
      assert (events + [e])[..|events|] == events;
    }
  }

  /** From the last event on its quote decays in, which the closed form does in one step. */
  lemma {:induction false} DecayedTail(events: seq<Event>, decay: real, until: int)
    requires events != [] && TimesInOrder(events) && until >= events[|events| - 1].sec
    ensures var last := events[|events| - 1];
      Decayed(events, decay, until) == Blend(decay, until - last.sec, Spread(last.quote), Decayed(events, decay, last.sec))
    decreases until - events[|events| - 1].sec
  {
    hide Blend, Spread;
    var last := events[|events| - 1];
    var s, x := Spread(last.quote), Decayed(events, decay, last.sec);
    if until > last.sec {
      DecayedTail(events, decay, until - 1);
      BlendIsEachSecond(decay, until - last.sec, s, x);
      BlendIsEachSecond(decay, until - 1 - last.sec, s, x);
    } else {
      BlendZero(decay, s, x);
    }
  }

  lemma DecayedStep(events: seq<Event>, e: Event, decay: real)
    requires events != [] && TimesInOrder(events) && events[|events| - 1].sec <= e.sec
    ensures var last := events[|events| - 1];
      Decayed(events + [e], decay, e.sec) == Blend(decay, e.sec - last.sec, Spread(last.quote), Decayed(events, decay, last.sec))
  {
    hide Blend, Spread;
    DecayedExtends(events, e, decay, e.sec);
    DecayedTail(events, decay, e.sec);
  }

  /** The state of the spread's decaying average, once an event was seen. */
  datatype Xma = Xma(decay: real, last: Event, spread: real)

  function First(decay: real, e: Event): (r: Xma) {
    Xma(decay, e, (1.0 - decay) * Spread(e.quote))
  }

  /** `getSpreadXMA`: a negative average counts as "not set". */
  function Reading(x: Xma, sec: int): (r: real)
    requires x.last.sec <= sec
  {
    if x.spread < 0.0 then Spread(x.last.quote)
    else Blend(x.decay, sec - x.last.sec, Spread(x.last.quote), x.spread)
  }

  function Updated(x: Xma, e: Event): (r: Xma) {
    if e.sec > x.last.sec
    then Xma(x.decay, e, Blend(x.decay, e.sec - x.last.sec, Spread(x.last.quote), x.spread))
    else x.(last := e)
  }

  /** Reading at a second equals updating then, with any quote, and reading. */
  ghost predicate Survives(x: Xma, sec: int)
    requires x.last.sec <= sec
  {
    forall q :: Reading(Updated(x, Event(sec, q)), sec) == Reading(x, sec)
  }

  lemma OtherSpread(r: real)
    ensures exists q :: Spread(q) != r
  {
    assert Spread(Quote(0, 0, 0, 0)) == 0.0 && Spread(Quote(0, 0, 10000, 0)) == 1.0;
  }

  lemma {:induction false} PowZero(decay: real, n: nat)
    requires n > 0
    ensures Pow(decay, n) == 0.0 <==> decay == 0.0
  {
    if n > 1 { PowZero(decay, n - 1); }
  }

  /** Blending into a negative average: only a zero decay gives the new value itself, if that is not
      negative. */
  lemma UnsetBlend(decay: real, n: nat, s: real, x: real)
    requires x < 0.0 && n > 0
    ensures Blend(decay, n, s, x) == s && s >= 0.0 <==> decay == 0.0 && s >= 0.0
    ensures decay == 0.0 ==> Blend(decay, n, s, x) == s
  {
    PowZero(decay, n);
    var p := Pow(decay, n);
    assert Blend(decay, n, s, x) - s == p * (x - s);
  }

  /** At one second, for every average and decay: an average that is set and does not go negative then.
      A zero decay forgets the old average as soon as a second has passed. */
  lemma SurvivesAt(x: Xma, sec: int)
    requires x.last.sec <= sec
    ensures Survives(x, sec) <==>
      (x.spread >= 0.0 || (x.decay == 0.0 && x.last.sec < sec)) && Reading(x, sec) >= 0.0
  {
    hide Spread, Blend;
    var s, n := Spread(x.last.quote), sec - x.last.sec;
    var u := Blend(x.decay, n, s, x.spread);
    BlendZero(x.decay, s, x.spread);
    forall q: Quote ensures Reading(Updated(x, Event(sec, q)), sec) == if u < 0.0 then Spread(q) else u {
      BlendZero(x.decay, Spread(q), u);
    }
    if x.spread < 0.0 && n > 0 { UnsetBlend(x.decay, n, s, x.spread); }
    if u < 0.0 {
      OtherSpread(Reading(x, sec));
    } else {
      assert Reading(Updated(x, Event(sec, x.last.quote)), sec) == u;
    }
  }

  lemma {:induction false} BlendKeeps(n: nat, s: real, x: real)
    ensures Pow(1.0, n) == 1.0 && Blend(1.0, n, s, x) == x
  {
    if n > 0 { BlendKeeps(n - 1, s, x); }
  }

  lemma DiesOutStep(decay: real, p: real, m: real)
    requires 0.0 <= decay < 1.0 && 0.0 <= p <= 1.0 && p * (m * (1.0 - decay)) <= 1.0 - p
    ensures decay * p * ((m + 1.0) * (1.0 - decay)) <= 1.0 - decay * p
  {
    var d := 1.0 - decay;
    var a := p * (m * d);
    ProductNonNegative(decay, 1.0 - p - a);
    assert decay * (1.0 - p - a) == decay - decay * p - decay * a;
    assert decay * p * ((m + 1.0) * d) == decay * a + decay * p * d;
    ProductBetween(decay, p);
    ProductNonNegative(1.0 - decay * p, d);
    assert (1.0 - decay * p) * d == d - decay * p * d;
  }

  /** A decay below 1 dies out: `decay^n` is at most `1 / (n (1 - decay))`. */
  lemma {:induction false} PowDiesOut(decay: real, n: nat)
    requires 0.0 <= decay < 1.0
    ensures 0.0 <= Pow(decay, n) <= 1.0
    ensures Pow(decay, n) * (n as real * (1.0 - decay)) <= 1.0 - Pow(decay, n)
  {
    PowBetween(decay, n);
    if n > 0 {
      var p, m, d := Pow(decay, n - 1), (n - 1) as real, 1.0 - decay;
      PowDiesOut(decay, n - 1);
      PowBetween(decay, n - 1);
      DiesOutStep(decay, p, m);
    }
  }

  lemma QuotientTimes(a: real, b: real)
    requires b > 0.0
    ensures a / b * b == a && (a >= 0.0 ==> a / b >= 0.0)
  {
  }

  lemma Multiple(k: real, d: real) returns (n: nat)
    requires k >= 0.0 && d > 0.0
    ensures n as real * d >= k
  {
    QuotientTimes(k, d);
    n := (k / d).Floor + 1;
    ProductNonNegative(n as real - k / d, d);
    assert (n as real - k / d) * d == n as real * d - k / d * d;
  }

  lemma NegativeBlend(p: real, nd: real, k: real, s: real, x: real)
    requires 0.0 <= p <= 1.0 && p * nd <= 1.0 - p && nd >= k && k * -s == x - s && s < 0.0 <= x
    ensures (1.0 - p) * s + p * x < 0.0
  {
    ProductNonNegative(p, nd - k);
    assert p * (nd - k) == p * nd - p * k;
    assert p * k * -s == p * (x - s);
    ProductNonNegative(1.0 - p - p * k, -s);
    assert (1.0 - p - p * k) * -s == -s + p * s - p * k * -s;
    assert p * (x - s) == p * x - p * s;
    if p == 0.0 { assert (1.0 - p) * s == s; } else { assert p * -s > 0.0; }
  }

  /** A crossed quote that stays in force drags the average below zero in the end. */
  lemma CrossedQuoteTakesOver(decay: real, s: real, x: real) returns (n: nat)
    requires 0.0 <= decay < 1.0 && s < 0.0 <= x
    ensures Blend(decay, n, s, x) < 0.0
  {
    hide Pow;
    QuotientTimes(x - s, -s);
    n := Multiple((x - s) / -s, 1.0 - decay);
    PowDiesOut(decay, n);
    NegativeBlend(Pow(decay, n), n as real * (1.0 - decay), (x - s) / -s, s, x);
  }

  /** For any decay between 0 and 1: every later reading survives, whatever second and quote, if and only
      if the average is set and the quote in force is not crossed (or nothing decays at all). */
  lemma EveryReadingSurvivesIff(x: Xma)
    requires 0.0 <= x.decay <= 1.0
    ensures (forall sec :: x.last.sec <= sec ==> Survives(x, sec)) <==>
      x.spread >= 0.0 && (x.decay == 1.0 || Spread(x.last.quote) >= 0.0)
  {
    hide Spread, Blend, Survives;
    var s := Spread(x.last.quote);
    SurvivesAt(x, x.last.sec);
    if x.spread >= 0.0 {
      if x.decay == 1.0 || s >= 0.0 {
        forall sec | x.last.sec <= sec ensures Survives(x, sec) {
          SurvivesAt(x, sec);
          if s >= 0.0 { BlendNonNegative(x.decay, sec - x.last.sec, s, x.spread); } else { BlendKeeps(sec - x.last.sec, s, x.spread); }
        }
      } else {
        var n := CrossedQuoteTakesOver(x.decay, s, x.spread);
        SurvivesAt(x, x.last.sec + n);
      }
    }
  }

  /** An average that is set, read and updated under a crossed quote: the reading is lost. */
  lemma CrossedQuoteBreaksReading()
    ensures exists x: Xma :: x.spread >= 0.0 && x.last.sec <= 2 && Reading(x, 2) < 0.0 && !Survives(x, 2)
  {
    var x := Xma(0.5, Event(1, Quote(40000, 1, 0, 1)), 1.0);
    assert Pow(0.5, 1) == 0.5 * Pow(0.5, 0) == 0.5;
    assert Spread(x.last.quote) == -4.0;
    assert Reading(x, 2) == Blend(0.5, 1, -4.0, 1.0) == -1.5;
    SurvivesAt(x, 2);
  }

  /** A crossed first quote leaves the average unset although events were seen: a second event makes the
      reading positive, and updating still blends the negative value in. */
  lemma CrossedFirstQuoteBreaksReading()
    ensures var x := Updated(First(0.5, Event(1, Quote(20000, 0, 0, 0))), Event(1, Quote(0, 0, 40000, 0)));
      x.spread == -1.0 && Reading(x, 2) == 4.0 && forall q :: Reading(Updated(x, Event(2, q)), 2) == 1.5
  {
    var x := Updated(First(0.5, Event(1, Quote(20000, 0, 0, 0))), Event(1, Quote(0, 0, 40000, 0)));
    assert Pow(0.5, 1) == 0.5 * Pow(0.5, 0) == 0.5;
    assert Spread(Quote(20000, 0, 0, 0)) == -2.0 && Spread(Quote(0, 0, 40000, 0)) == 4.0;
    assert Blend(0.5, 1, 4.0, -1.0) == 1.5;
    forall q: Quote ensures Reading(Updated(x, Event(2, q)), 2) == 1.5 {
      BlendZero(0.5, Spread(q), 1.5);
    }
  }

  /** With uncrossed quotes and a decay between 0 and 1 the average stays set. */
  lemma AverageStaysNonNegative(x: Xma, e: Event)
    requires 0.0 <= x.decay <= 1.0 && x.spread >= 0.0 && Spread(x.last.quote) >= 0.0
    ensures Updated(x, e).spread >= 0.0
    ensures forall sec :: sec >= x.last.sec ==> Reading(x, sec) >= 0.0
  {
    if e.sec > x.last.sec { BlendNonNegative(x.decay, e.sec - x.last.sec, Spread(x.last.quote), x.spread); }
    forall sec | sec >= x.last.sec ensures Reading(x, sec) >= 0.0 {
      BlendNonNegative(x.decay, sec - x.last.sec, Spread(x.last.quote), x.spread);
    }
  }

  // ----- what the accumulators hold -----

  /** A value sampled once a second. */
  function Held(value: int, seconds: int): (r: int) { value * seconds }

  lemma HeldLonger(value: int, seconds: int)
    ensures Held(value, 0) == 0 && Held(value, seconds + 1) == Held(value, seconds) + value
  {
  }

  /** The loop's state: the last event, and the totals up to it. */
  datatype Counting = Counting(have: bool, last: Event, spreads: int, avails: int, samples: int)

  ghost predicate Counted(events: seq<Event>, c: Counting) {
    && c.have == (events != [])
    && (events == [] ==> c.spreads == c.avails == c.samples == 0)
    && (events != [] ==>
      && TimesInOrder(events) && c.last == events[|events| - 1]
      && c.spreads == SampleSum(events, SpreadFixed, c.last.sec)
      && c.avails == SampleSum(events, Avail, c.last.sec)
      && c.samples == c.last.sec - events[0].sec)
  }

  function CountingAfter(c: Counting, e: Event): (r: Counting) {
    var n := if c.have && e.sec > c.last.sec then e.sec - c.last.sec else 0;
    Counting(true, e, c.spreads + Held(SpreadFixed(c.last.quote), n), c.avails + Held(Avail(c.last.quote), n), c.samples + n)
  }

  lemma CountedStep(events: seq<Event>, c: Counting, e: Event)
    requires Counted(events, c) && (events != [] ==> c.last.sec <= e.sec)
    ensures Counted(events + [e], CountingAfter(c, e))
  {
    if events == [] {
      assert [] + [e] == [e];
      SampleSumOne(e, SpreadFixed);
      SampleSumOne(e, Avail);
    } else {
      SampleSumStep(events, e, SpreadFixed);
      SampleSumStep(events, e, Avail);
    }
  }

  /** The closed form's state over the current interval. */
  datatype Interval = Interval(have: bool, more: bool, last: Event, spreads: int, samples: int)

  ghost predicate Accrued(events: seq<Event>, v: Interval) {
    && v.have == (events != [])
    && v.more == (|events| > 1)
    && (events == [] ==> v.samples == -1)
    && (events != [] ==>
      && TimesInOrder(events) && v.last == events[|events| - 1]
      && v.spreads == SampleSum(events, SpreadFixed, v.last.sec)
      && v.samples == v.last.sec - events[0].sec)
  }

  /** When time goes back it subtracts, where the loop adds nothing; the first event after an interval
      began starts it afresh if no second has passed. */
  function IntervalAfter(v: Interval, e: Event): (r: Interval) {
    if !v.have then Interval(true, v.more, e, 0, 0)
    else
      var n := e.sec - v.last.sec;
      if n == 0 && !v.more then Interval(true, true, e, 0, 0)
      else Interval(true, true, e, v.spreads + Held(SpreadFixed(v.last.quote), n), v.samples + n)
  }

  lemma AccruedStep(events: seq<Event>, v: Interval, e: Event)
    requires Accrued(events, v) && (events != [] ==> v.last.sec <= e.sec)
    ensures Accrued(events + [e], IntervalAfter(v, e))
  {
    if events == [] {
      assert [] + [e] == [e];
      SampleSumOne(e, SpreadFixed);
    } else {
      SampleSumStep(events, e, SpreadFixed);
      if |events| == 1 {
        assert events == [v.last];
        SampleSumOne(v.last, SpreadFixed);
      }
    }
  }

  /** The average's state is what decaying second by second makes it. */
  ghost predicate Averaged(events: seq<Event>, have: bool, x: Xma) {
    && have == (events != [])
    && (events == [] ==> x.spread == -1.0)
    && (events != [] ==> TimesInOrder(events) && x.last == events[|events| - 1] && x.spread == Decayed(events, x.decay, x.last.sec))
  }

  lemma UpdatedBlends(x: Xma, e: Event)
    requires x.last.sec <= e.sec
    ensures Updated(x, e) == Xma(x.decay, e, Blend(x.decay, e.sec - x.last.sec, Spread(x.last.quote), x.spread))
  {
    BlendZero(x.decay, Spread(x.last.quote), x.spread);
  }

  lemma AveragedFirst(x: Xma, e: Event)
    ensures Averaged([e], true, First(x.decay, e))
  {
  }

  lemma AveragedNext(events: seq<Event>, x: Xma, e: Event, x': Xma)
    requires events != [] && Averaged(events, true, x) && x.last.sec <= e.sec
    requires x' == Xma(x.decay, e, Blend(x.decay, e.sec - x.last.sec, Spread(x.last.quote), x.spread))
    ensures Averaged(events + [e], true, x')
  {
    hide Blend, Spread;
    DecayedStep(events, e, x.decay);
  }

  lemma AveragedStep(events: seq<Event>, have: bool, x: Xma, e: Event)
    requires Averaged(events, have, x) && (events != [] ==> x.last.sec <= e.sec)
    ensures Averaged(events + [e], true, if have then Updated(x, e) else First(x.decay, e))
  {
    hide Decayed, Blend, Spread, Updated, First;
    if events == [] {
      assert [] + [e] == [e];
      AveragedFirst(x, e);
    } else {
      UpdatedBlends(x, e);
      AveragedNext(events, x, e, Updated(x, e));
    }
  }

  lemma LastsAgree(events: seq<Event>, c: Counting, have: bool, x: Xma)
    requires Counted(events, c) && Averaged(events, have, x)
    ensures c.have == have == (events != []) && (events != [] ==> c.last == x.last)
  {
  }

  // ----- the object -----

  class StockStats {
    const decay: real
    var spreadNumerator: int
    var availNumerator: int
    var numSamples: int
    var spreadIntervalNumerator: int
    var numIntervalSamples: int
    var haveEvent: bool
    var haveAnyIntervalEvent: bool
    var haveIntervalEvent: bool
    var haveAnyXmaEvent: bool
    var lastEvent: Event
    var lastIntervalEvent: Event
    var lastXmaEvent: Event
    var spreadXma: real
    var bidXma: real
    var askXma: real
    ghost var events: seq<Event>    // every event since construction
    ghost var interval: seq<Event>  // those of the current interval, from the pseudo event that began it

    ghost function CountingView(): (r: Counting)
      reads this`haveEvent, this`lastEvent, this`spreadNumerator, this`availNumerator, this`numSamples
    {
      Counting(haveEvent, lastEvent, spreadNumerator, availNumerator, numSamples)
    }

    ghost function IntervalView(): (r: Interval)
      reads this`haveAnyIntervalEvent, this`haveIntervalEvent, this`lastIntervalEvent, this`spreadIntervalNumerator, this`numIntervalSamples
    {
      Interval(haveAnyIntervalEvent, haveIntervalEvent, lastIntervalEvent, spreadIntervalNumerator, numIntervalSamples)
    }

    ghost function XmaView(): (r: Xma)
      reads this`lastXmaEvent, this`spreadXma
    {
      Xma(decay, lastXmaEvent, spreadXma)
    }

    /** The accumulators hold the sum over whole seconds of the quote in force, since the first event and
        since the interval began, and the average is what decaying second by second makes it. */
    ghost predicate Valid()
      reads this
    {
      && Counted(events, CountingView()) && Accrued(interval, IntervalView()) && Averaged(events, haveAnyXmaEvent, XmaView())
      && (events == [] <==> interval == []) && (events != [] ==> lastIntervalEvent.quote == lastEvent.quote)
    }

    constructor (decay: real)
      ensures Valid() && events == [] && this.decay == decay
    {
      this.decay := decay;
      spreadNumerator, availNumerator, spreadIntervalNumerator, numSamples, numIntervalSamples := 0, 0, 0, 0, -1;
      haveEvent, haveAnyIntervalEvent, haveIntervalEvent, haveAnyXmaEvent := false, false, false, false;
      var none := Event(0, Quote(0, 0, 0, 0));
      lastEvent, lastIntervalEvent, lastXmaEvent := none, none, none;
      spreadXma, bidXma, askXma := -1.0, 0.0, 0.0;
      events, interval := [], [];
    }

    /** The loop that adds one sample per second. */
    method UpdateCountingStats(e: Event)
      modifies this`spreadNumerator, this`availNumerator, this`numSamples, this`haveEvent, this`lastEvent
      ensures CountingView() == CountingAfter(old(CountingView()), e)
    {
      if !haveEvent {
        lastEvent := e;
        haveEvent := true;
        return;
      }
      hide Held;
      var evtSpread, evtAvail := SpreadFixed(lastEvent.quote), Avail(lastEvent.quote);
      HeldLonger(evtSpread, 0);
      HeldLonger(evtAvail, 0);
      var i := lastEvent.sec;
      while i < e.sec
        invariant lastEvent == old(lastEvent) && haveEvent
        invariant var n := i - lastEvent.sec;
          && 0 <= n && (n > 0 ==> i <= e.sec) && numSamples == old(numSamples) + n
          && spreadNumerator == old(spreadNumerator) + Held(evtSpread, n)
          && availNumerator == old(availNumerator) + Held(evtAvail, n)
      {
        HeldLonger(evtSpread, i - lastEvent.sec);
        HeldLonger(evtAvail, i - lastEvent.sec);
        spreadNumerator := spreadNumerator + evtSpread;
        availNumerator := availNumerator + evtAvail;
        numSamples := numSamples + 1;
        i := i + 1;
      }
      lastEvent := e;
    }

    /** The closed form of the same accumulation. */
    method UpdateIntervalSpread(e: Event)
      modifies this`spreadIntervalNumerator, this`numIntervalSamples, this`haveAnyIntervalEvent, this`haveIntervalEvent, this`lastIntervalEvent
      ensures IntervalView() == IntervalAfter(old(IntervalView()), e)
    {
      if !haveAnyIntervalEvent {
        haveAnyIntervalEvent := true;
        lastIntervalEvent := e;
        spreadIntervalNumerator := 0;
        numIntervalSamples := 0;
        return;
      }
      var evtSpread := SpreadFixed(lastIntervalEvent.quote);
      var n := e.sec - lastIntervalEvent.sec;
      spreadIntervalNumerator := spreadIntervalNumerator + evtSpread * n;
      numIntervalSamples := numIntervalSamples + n;
      if !haveIntervalEvent {
        haveIntervalEvent := true;
        if n == 0 {
          spreadIntervalNumerator := 0;
          numIntervalSamples := 0;
        }
      }
      lastIntervalEvent := e;
    }

    method UpdateXmaStats(e: Event)
      modifies this`haveAnyXmaEvent, this`lastXmaEvent, this`spreadXma, this`bidXma, this`askXma
      ensures haveAnyXmaEvent
      ensures XmaView() == if old(haveAnyXmaEvent) then Updated(old(XmaView()), e) else First(decay, e)
    {
      if !haveAnyXmaEvent {
        haveAnyXmaEvent := true;
        lastXmaEvent := e;
        spreadXma := (1.0 - decay) * Spread(e.quote);
        bidXma := e.quote.bid as real / 10000.0;
        askXma := e.quote.ask as real / 10000.0;
        return;
      }
      var n := e.sec - lastXmaEvent.sec;
      if n > 0 {
        var q := lastXmaEvent.quote;
        spreadXma := Blend(decay, n, Spread(q), spreadXma);
        bidXma := Blend(decay, n, q.bid as real / 10000.0, bidXma);
        askXma := Blend(decay, n, q.ask as real / 10000.0, askXma);
      }
      lastXmaEvent := e;
    }

    /** The three updates. */
    method UpdateAll(e: Event)
      modifies this`spreadNumerator, this`availNumerator, this`numSamples, this`haveEvent, this`lastEvent
      modifies this`haveAnyXmaEvent, this`lastXmaEvent, this`spreadXma, this`bidXma, this`askXma
      modifies this`spreadIntervalNumerator, this`numIntervalSamples, this`haveAnyIntervalEvent, this`haveIntervalEvent, this`lastIntervalEvent
      ensures CountingView() == CountingAfter(old(CountingView()), e)
      ensures IntervalView() == IntervalAfter(old(IntervalView()), e)
      ensures haveAnyXmaEvent && XmaView() == if old(haveAnyXmaEvent) then Updated(old(XmaView()), e) else First(decay, e)
    {
      UpdateCountingStats(e);
      UpdateXmaStats(e);
      UpdateIntervalSpread(e);
    }

    /** `updateFromEvent`: after every event, in time order and through any resets, the loop and the closed
        form hold the sums over seconds of the quote in force, and the average is the one decayed once a
        second. */
    method UpdateFromEvent(e: Event)
      requires Valid() && (events != [] ==> lastEvent.sec <= e.sec && lastIntervalEvent.sec <= e.sec)
      modifies this
      ensures Valid() && events == old(events) + [e] && interval == old(interval) + [e]
    {
      hide Counted, Accrued, Averaged, CountingAfter, IntervalAfter, Updated, First;
      LastsAgree(events, CountingView(), haveAnyXmaEvent, XmaView());
      CountedStep(events, CountingView(), e);
      AccruedStep(interval, IntervalView(), e);
      AveragedStep(events, haveAnyXmaEvent, XmaView(), e);
      UpdateAll(e);
      events, interval := events + [e], interval + [e];
    }

    /** `getIntervalSpread`; None is a division by zero, which happens in the interval's first second. */
    method GetIntervalSpread(sec: int) returns (spread: Option<real>)
      ensures Valid() && events == [] ==> spread == Some(0.0)
      ensures Valid() && events != [] && sec >= lastIntervalEvent.sec ==>
        spread == if sec == interval[0].sec then None
                  else Some(SampleSum(interval, SpreadFixed, sec) as real / (sec - interval[0].sec) as real / 10000.0)
    {
      if numIntervalSamples < 0 {
        return Some(if haveIntervalEvent || haveAnyIntervalEvent then Spread(lastIntervalEvent.quote) else 0.0);
      }
      var n := sec - lastIntervalEvent.sec;
      var num := spreadIntervalNumerator + SpreadFixed(lastIntervalEvent.quote) * n;
      hide Counted, Averaged, SampleSum;
      if Valid() && events != [] && sec >= lastIntervalEvent.sec { SampleSumTail(interval, SpreadFixed, sec); }
      if numIntervalSamples + n == 0 { return None; }
      return Some(num as real / (numIntervalSamples + n) as real / 10000.0);
    }

    /** `getSpreadXMA`. */
    method GetSpreadXma(sec: int) returns (spread: real)
      requires lastXmaEvent.sec <= sec
      ensures haveAnyXmaEvent ==> spread == Reading(XmaView(), sec)
      ensures !haveAnyXmaEvent && spreadXma < 0.0 ==> spread == 0.0
      ensures Valid() && events != [] && spreadXma >= 0.0 ==> spread == Decayed(events, decay, sec)
    {
      hide Counted, Accrued, Decayed, Spread, Blend;
      if Valid() && events != [] { DecayedTail(events, decay, sec); }
      if spreadXma < 0.0 {
        return if haveAnyXmaEvent then Spread(lastXmaEvent.quote) else 0.0;
      }
      var n := sec - lastXmaEvent.sec;
      return Blend(decay, n, Spread(lastXmaEvent.quote), spreadXma);
    }

    /** `resetIntervalSpread`: a new interval begins at `sec` with the quote in force; the totals since the
        first event and the decaying average are left alone. */
    method ResetIntervalSpread(sec: int)
      requires Valid()
      modifies this`spreadIntervalNumerator, this`numIntervalSamples, this`haveIntervalEvent, this`lastIntervalEvent, this`interval
      ensures Valid()
      ensures interval == if events == [] then [] else [Event(sec, lastEvent.quote)]
    {
      if !haveAnyIntervalEvent { return; }
      haveIntervalEvent := false;
      spreadIntervalNumerator := 0;
      numIntervalSamples := 0;
      if lastIntervalEvent.sec != sec { lastIntervalEvent := Event(sec, lastIntervalEvent.quote); }
      SampleSumOne(lastIntervalEvent, SpreadFixed);
      interval := [lastIntervalEvent];
    }
  }
}
