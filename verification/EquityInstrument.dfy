/** Pre-trade limits of one instrument: the sliding one-second order-rate window, the size, price,
    value and position limits, and the locate ledger (`src/oe/EquityInstrument.cpp`). */
module EquityInstrument {
  import opened Basics
  import opened Orders
  import opened Time

  const LOCATES_REMAINING_SENTINEL: int := -0x8000_0000_0000_0000

  ghost predicate Nondecreasing(s: seq<int>) {
    forall i, j :: 0 <= i < j < |s| ==> s[i] <= s[j]
  }

  /** What is left of a queue after popping everything earlier than `from`. */
  function DropBefore(s: seq<int>, from: int): (r: seq<int>) {
    if s == [] || s[0] >= from then s else DropBefore(s[1..], from)
  }

  /** How many of `s` fall in the closed second that starts at `from`. */
  function CountInSecond(s: seq<int>, from: int): (r: nat) {
    if s == [] then 0
    else (if from <= s[0] <= from + NANOS then 1 else 0) + CountInSecond(s[1..], from)
  }

  /** No more than `limit` consecutive entries within one second. */
  ghost predicate Spaced(s: seq<int>, limit: int) {
    forall i, j :: 0 <= i <= j < |s| && s[j] - s[i] <= NANOS ==> j - i + 1 <= limit
  }

  lemma {:induction false} DropBeforeIsSuffix(s: seq<int>, from: int) returns (k: nat)
    requires Nondecreasing(s)
    ensures k <= |s| && DropBefore(s, from) == s[k..]
    ensures (forall i :: 0 <= i < k ==> s[i] < from) && (forall i :: k <= i < |s| ==> from <= s[i])
  {
    if s == [] || s[0] >= from {
      k := 0;
    } else {
      k := DropBeforeIsSuffix(s[1..], from);
      k := k + 1;
      assert s[1..][k - 1..] == s[k..];
      assert forall i :: 1 <= i < |s| ==> s[i] == s[1..][i - 1];
    }
  }

  /** Popping twice is popping to the later time. */
  lemma {:induction false} DropBeforeTwice(s: seq<int>, a: int, b: int)
    requires a <= b
    ensures DropBefore(DropBefore(s, a), b) == DropBefore(s, b)
  {
    if s != [] && s[0] < a { DropBeforeTwice(s[1..], a, b); }
  }

  lemma DropBeforePush(s: seq<int>, from: int, t: int)
    requires Nondecreasing(s) && from <= t
    ensures DropBefore(s + [t], from) == DropBefore(s, from) + [t]
    decreases |s|
  {
    if s != [] && s[0] < from {
      assert (s + [t])[1..] == s[1..] + [t];
      DropBeforePush(s[1..], from, t);
    } else if s == [] {
      assert [] + [t] == [t];
    }
  }

  /** Accepting an order when fewer than `limit` were accepted in the second before it keeps the
      spacing. */
  lemma SpacedPush(s: seq<int>, limit: int, t: int)
    requires Nondecreasing(s) && Spaced(s, limit) && (s != [] ==> s[|s| - 1] <= t)
    requires |DropBefore(s, t - NANOS)| + 1 <= limit
    ensures Spaced(s + [t], limit)
  {
    var k := DropBeforeIsSuffix(s, t - NANOS);
    var s' := s + [t];
    forall i, j | 0 <= i <= j < |s'| && s'[j] - s'[i] <= NANOS ensures j - i + 1 <= limit {
      if j < |s| {
        assert s'[j] == s[j] && s'[i] == s[i];
      } else if i < |s| {
        assert s'[i] == s[i] && i >= k;
      }
    }
  }

  lemma SpacedTail(s: seq<int>, limit: int)
    requires s != [] && Nondecreasing(s) && Spaced(s, limit)
    ensures Nondecreasing(s[1..]) && Spaced(s[1..], limit)
  {
  }

  lemma {:induction false} CountFromFirst(s: seq<int>, from: int) returns (n: nat)
    requires Nondecreasing(s) && (s != [] ==> from <= s[0])
    ensures n == CountInSecond(s, from) <= |s| && (n > 0 ==> s[n - 1] <= from + NANOS)
  {
    if s == [] {
      n := 0;
    } else {
      var m := CountFromFirst(s[1..], from);
      n := CountInSecond(s, from);
      if m > 0 { assert s[1..][m - 1] == s[m]; }
    }
  }

  /** Spacing bounds the count in every closed second, wherever it starts. */
  lemma {:induction false} SpacedBoundsEverySecond(s: seq<int>, limit: nat, from: int)
    requires Nondecreasing(s) && Spaced(s, limit)
    ensures CountInSecond(s, from) <= limit
  {
    if s == [] {
    } else if s[0] < from {
      SpacedTail(s, limit);
      SpacedBoundsEverySecond(s[1..], limit, from);
    } else {
      var n := CountFromFirst(s, from);
      if n > 0 { assert s[n - 1] - s[0] <= NANOS; }
    }
  }

  lemma {:induction false} AllInSecond(s: seq<int>, to: int)
    requires forall i :: 0 <= i < |s| ==> to - NANOS <= s[i] <= to
    ensures CountInSecond(s, to - NANOS) == |s|
  {
    if s != [] { AllInSecond(s[1..], to); }
  }

  /** What the queue holds is the count of the second before `to`. */
  lemma {:induction false} DropBeforeCounts(s: seq<int>, to: int)
    requires Nondecreasing(s) && (s != [] ==> s[|s| - 1] <= to)
    ensures |DropBefore(s, to - NANOS)| == CountInSecond(s, to - NANOS)
  {
    if s == [] {
    } else if s[0] < to - NANOS {
      DropBeforeCounts(s[1..], to);
    } else {
      AllInSecond(s, to);
    }
  }

  datatype Request = Request(time: int, size: u32, price: real, side: Side)
  datatype Limits = Limits(size: u32, price: real, value: real, position: u32, positionValue: real)

  function Abs(n: int): (r: nat) { if n < 0 then -n else n }

  function PostPosition(r: Request, holdings: int): (result: int) {
    if r.side == Buy then holdings + r.size else holdings - r.size
  }

  /** The limits on this order alone and on the position it would lead to. */
  predicate WithinLimits(l: Limits, r: Request, holdings: int) {
    && r.size <= l.size
    && r.price <= l.price
    && r.size as real * r.price <= l.value
    && Abs(PostPosition(r, holdings)) <= l.position
    && Abs(PostPosition(r, holdings)) as real * r.price <= l.positionValue
  }

  predicate Sells(side: Side) {
    side == Sell || side == Short || side == ShortExempt
  }

  /** Shares that must be located to sell: those that would leave the position short once the open
      sells are done, truncated to 32 bits. */
  function Required(r: Request, holdings: int, openSells: u32): (result: u32) {
    var post := PostPosition(r, holdings) - openSells;
    if post < 0 then -post % 0x1_0000_0000 else 0
  }

  /** The position once `k` shares of the order are done. */
  function HoldingsAfter(r: Request, holdings: int, k: nat): (h: int) {
    if r.side == Buy then holdings + k else holdings - k
  }

  lemma TimesAtMost(a: nat, b: nat, price: real)
    requires a <= b && price >= 0.0
    ensures a as real * price <= b as real * price
  {
    ProductNonNegative((b - a) as real, price);
  }

  /** Part of a fill moves the position only part of the way. */
  lemma PartWayWithin(r: Request, holdings: int, k: nat, limit: nat)
    requires k <= r.size && Abs(holdings) <= limit && Abs(PostPosition(r, holdings)) <= limit
    ensures Abs(HoldingsAfter(r, holdings, k)) <= limit && HoldingsAfter(r, holdings, r.size) == PostPosition(r, holdings)
  {
  }

  /** However much of an accepted order is done, the position stays inside the limit it started in, and so
      does the value done. */
  lemma PartialFillsStayWithin(l: Limits, r: Request, holdings: int, k: nat)
    requires WithinLimits(l, r, holdings) && Abs(holdings) <= l.position && k <= r.size && r.price >= 0.0
    ensures k <= l.size && r.price <= l.price && k as real * r.price <= l.value
    ensures Abs(HoldingsAfter(r, holdings, k)) <= l.position
    ensures Abs(HoldingsAfter(r, holdings, r.size)) as real * r.price <= l.positionValue
  {
    hide Abs, HoldingsAfter, PostPosition;
    PartWayWithin(r, holdings, k, l.position);
    TimesAtMost(k, r.size, r.price);
  }

  /** An order at every limit is accepted: they are inclusive. */
  lemma LimitsInclusive(r: Request, holdings: int)
    requires Abs(PostPosition(r, holdings)) <= U32_MAX
    ensures var post := Abs(HoldingsAfter(r, holdings, r.size));
      WithinLimits(Limits(r.size, r.price, r.size as real * r.price, post, post as real * r.price), r, holdings)
  {
  }

  /** The locates asked for are exactly the shares the order would leave short once all open sells are done,
      if and only if those are fewer than 2^32. */
  lemma LocatesCoverShortIff(r: Request, holdings: int, openSells: u32)
    requires r.side != Buy && r.side != UnknownSide
    ensures Sells(r.side) && var short := r.size + openSells - holdings;
      Required(r, holdings, openSells) == (if short > 0 then short else 0) <==> short <= U32_MAX
  {
  }

  class Instrument {
    const limits: Limits
    const rateLimit: int           // m_order_rate_limit; negative means none
    var orderRate: seq<int>        // m_order_rate, creation times in nanoseconds
    var holdings: int              // local and remote position
    var openSells: u32
    var locatesRemaining: int
    var locatesUsed: int
    ghost var accepted: seq<int>   // the creation times of all accepted orders
    ghost var lastSeen: int        // the creation time of the latest order validated

    /** The queue is always the accepted history restricted to the last second. */
    ghost predicate Valid()
      reads this
    {
      rateLimit >= 0 ==>
        && Nondecreasing(accepted) && Spaced(accepted, rateLimit)
        && (accepted != [] ==> accepted[|accepted| - 1] <= lastSeen)
        && orderRate == DropBefore(accepted, lastSeen - NANOS)
    }

    constructor (limits: Limits, rateLimit: int, holdings: int, locates: int)
      ensures Valid() && accepted == []
      ensures this.limits == limits && this.rateLimit == rateLimit && locatesRemaining == locates && locatesUsed == 0
    {
      this.limits, this.rateLimit, this.holdings := limits, rateLimit, holdings;
      openSells, locatesRemaining, locatesUsed := 0, locates, 0;
      orderRate, accepted, lastSeen := [], [], 0;
    }

    /** The rate limit lets the order through. */
    ghost predicate RateAllows(time: int)
      reads this
    {
      rateLimit >= 0 ==> |DropBefore(accepted, time - NANOS)| < rateLimit
    }

    ghost predicate LocatesAllow(r: Request)
      reads this
    {
      Sells(r.side) ==>
        locatesRemaining != LOCATES_REMAINING_SENTINEL && Required(r, holdings, openSells) <= locatesRemaining
    }

    /** The rate limiter's loop: forget accepted orders more than a second older than `time`. */
    method ExpireOld(time: int)
      requires Valid() && (rateLimit >= 0 && accepted != [] ==> lastSeen <= time)
      modifies this`orderRate, this`lastSeen
      ensures Valid() && lastSeen == time
      ensures rateLimit >= 0 ==> orderRate == DropBefore(accepted, time - NANOS)
    {
      if rateLimit > -1 {
        if accepted != [] { DropBeforeTwice(accepted, lastSeen - NANOS, time - NANOS); }
        while orderRate != [] && orderRate[0] < time - NANOS
          invariant DropBefore(orderRate, time - NANOS) == DropBefore(accepted, time - NANOS)
          decreases |orderRate|
        {
          orderRate := orderRate[1..];
        }
      }
      lastSeen := time;
    }

    method RecordAccepted(time: int)
      requires Valid() && lastSeen == time && RateAllows(time)
      modifies this`orderRate, this`accepted
      ensures Valid() && accepted == old(accepted) + [time]
    {
      if rateLimit > -1 {
        SpacedPush(accepted, rateLimit, time);
        DropBeforePush(accepted, time - NANOS, time);
        orderRate := orderRate + [time];
      }
      accepted := accepted + [time];
    }

    /** The limits that need no history. */
    method CheckLimits(r: Request) returns (ok: bool, post: int)
      ensures ok <==> WithinLimits(limits, r, holdings)
      ensures post == PostPosition(r, holdings)
    {
      post := holdings;
      if r.side == Buy { post := post + r.size; } else { post := post - r.size; }
      if r.size > limits.size { return false, post; }
      if r.price > limits.price { return false, post; }
      var orderValue := r.size as real * r.price;
      if orderValue > limits.value { return false, post; }
      if Abs(post) > limits.position { return false, post; }
      var positionValue := Abs(post) as real * r.price;
      if positionValue > limits.positionValue { return false, post; }
      return true, post;
    }

    /** The block for sells: correct the side and take the locates, if there are enough. */
    method TakeLocates(r: Request, post0: int) returns (ok: bool, side: Side)
      requires Sells(r.side) && post0 == PostPosition(r, holdings)
      modifies this`locatesRemaining, this`locatesUsed
      ensures ok <==> old(LocatesAllow(r))
      ensures var n := if ok then Required(r, holdings, openSells) else 0;
        locatesRemaining == old(locatesRemaining) - n && locatesUsed == old(locatesUsed) + n
      ensures side == if PostPosition(r, holdings) - openSells < 0 then Short else Sell
    {
      var post := post0 - openSells;
      var required: u32 := 0;
      if post < 0 {
        side := Short;
        required := -post % 0x1_0000_0000;
      } else {
        side := Sell;
      }
      if locatesRemaining != LOCATES_REMAINING_SENTINEL {
        if required > locatesRemaining { return false, side; }
      } else {
        return false, side;
      }
      locatesRemaining := locatesRemaining - required;
      locatesUsed := locatesUsed + required;
      return true, side;
    }

    /** `validate`, for orders whose creation times do not go back. It accepts exactly the orders all
        limits allow; an accepted sell takes its locates from the ledger and has its side corrected. */
    method Validate(r: Request) returns (ok: bool, side: Side)
      requires Valid() && (rateLimit >= 0 && accepted != [] ==> lastSeen <= r.time)
      modifies this`orderRate, this`locatesRemaining, this`locatesUsed, this`accepted, this`lastSeen
      ensures Valid() && lastSeen == r.time
      ensures ok <==> old(RateAllows(r.time)) && WithinLimits(limits, r, holdings) && old(LocatesAllow(r))
      ensures accepted == if ok then old(accepted) + [r.time] else old(accepted)
      ensures var n := if ok && Sells(r.side) then Required(r, holdings, openSells) else 0;
        locatesRemaining == old(locatesRemaining) - n && locatesUsed == old(locatesUsed) + n
      ensures ok ==> side == if !Sells(r.side) then r.side
                             else if PostPosition(r, holdings) - openSells < 0 then Short else Sell
      ensures old(locatesRemaining) >= 0 ==> locatesRemaining >= 0
    {
      side := r.side;
      hide Nondecreasing, Spaced, DropBefore, WithinLimits;
      ExpireOld(r.time);
      if rateLimit > -1 && |orderRate| + 1 > rateLimit { return false, side; }
      var within, post := CheckLimits(r);
      if !within { return false, side; }
      if r.side == Sell || r.side == Short || r.side == ShortExempt {
        ok, side := TakeLocates(r, post);
        if !ok { return; }
      }
      RecordAccepted(r.time);
      return true, side;
    }

    /** The rate limit lets an order through exactly when fewer than the limit were accepted in the closed
        second that ends with it. */
    lemma RateAllowsIff(time: int)
      requires Valid() && (rateLimit >= 0 && accepted != [] ==> lastSeen <= time)
      ensures RateAllows(time) <==> (rateLimit >= 0 ==> CountInSecond(accepted, time - NANOS) + 1 <= rateLimit)
    {
      if rateLimit >= 0 { DropBeforeCounts(accepted, time); }
    }

    /** Over the whole history any closed one-second window holds at most `rateLimit` accepted
        orders. */
    lemma RateHolds(from: int)
      requires Valid() && rateLimit >= 0
      ensures CountInSecond(accepted, from) <= rateLimit
    {
      SpacedBoundsEverySecond(accepted, rateLimit, from);
    }
  }
}
