/** The exchange simulator's events and queue, and the ledger of an immediate order: what of its size is
    filled, cancelled, or still on its way in scheduled events. */
module SimEvents {
  import opened Basics
  import opened Orders

  /** What an event tells: the order reached the exchange, or a report on its way back. */
  datatype Kind = SentE | AckE | FillE | PendingCancelE | CancelE | CancelRejectE

  datatype SimEvent = SimEvent(ts: int, index: nat, kind: Kind, id: u32, size: u32, price: real)

  /** `SimEvent::Ordering`: earliest time first, then smallest index. */
  predicate Before(a: SimEvent, b: SimEvent) {
    a.ts < b.ts || (a.ts == b.ts && a.index < b.index)
  }

  /** Entry `i` is one the priority queue may yield. */
  predicate IsTop(q: seq<SimEvent>, i: nat) {
    i < |q| && forall j :: 0 <= j < |q| ==> !Before(q[j], q[i])
  }

  function Without(q: seq<SimEvent>, i: nat): (r: seq<SimEvent>)
    requires i < |q|
  {
    q[..i] + q[i + 1..]
  }

  function CountOf(q: seq<SimEvent>, id: u32, kind: Kind): (r: nat) {
    if q == [] then 0
    else CountOf(q[..|q| - 1], id, kind) + if q[|q| - 1].id == id && q[|q| - 1].kind == kind then 1 else 0
  }

  /** The shares events of this kind still carry. */
  function SharesOf(q: seq<SimEvent>, id: u32, kind: Kind): (r: nat) {
    if q == [] then 0
    else SharesOf(q[..|q| - 1], id, kind) + if q[|q| - 1].id == id && q[|q| - 1].kind == kind then q[|q| - 1].size else 0
  }

  function CountAt(q: seq<SimEvent>, ts: int): (r: nat) {
    if q == [] then 0 else CountAt(q[..|q| - 1], ts) + if q[|q| - 1].ts == ts then 1 else 0
  }

  lemma {:induction false} CountsPlus(a: seq<SimEvent>, b: seq<SimEvent>, id: u32, kind: Kind, ts: int)
    ensures CountOf(a + b, id, kind) == CountOf(a, id, kind) + CountOf(b, id, kind)
    ensures SharesOf(a + b, id, kind) == SharesOf(a, id, kind) + SharesOf(b, id, kind)
    ensures CountAt(a + b, ts) == CountAt(a, ts) + CountAt(b, ts)
    decreases |b|
  {
    if b == [] {
      assert a + b == a;
    } else {
      CountsPlus(a, b[..|b| - 1], id, kind, ts);
      assert (a + b)[..|a + b| - 1] == a + b[..|b| - 1];
    }
  }

  lemma CountsOne(e: SimEvent, id: u32, kind: Kind, ts: int)
    ensures CountOf([e], id, kind) == if e.id == id && e.kind == kind then 1 else 0
    ensures SharesOf([e], id, kind) == if e.id == id && e.kind == kind then e.size else 0
    ensures CountAt([e], ts) == if e.ts == ts then 1 else 0
  {
  }

  lemma CountsWithout(q: seq<SimEvent>, i: nat, id: u32, kind: Kind, ts: int)
    requires i < |q|
    ensures CountOf(q, id, kind) == CountOf(Without(q, i), id, kind) + CountOf([q[i]], id, kind)
    ensures SharesOf(q, id, kind) == SharesOf(Without(q, i), id, kind) + SharesOf([q[i]], id, kind)
    ensures CountAt(q, ts) == CountAt(Without(q, i), ts) + CountAt([q[i]], ts)
  {
    assert q == q[..i] + ([q[i]] + q[i + 1..]);
    CountsPlus(q[..i], [q[i]] + q[i + 1..], id, kind, ts);
    CountsPlus([q[i]], q[i + 1..], id, kind, ts);
    CountsPlus(q[..i], q[i + 1..], id, kind, ts);
  }

  lemma {:induction false} NoneOf(q: seq<SimEvent>, id: u32, kind: Kind)
    requires forall i :: 0 <= i < |q| ==> q[i].id != id || q[i].kind != kind
    ensures CountOf(q, id, kind) == 0 && SharesOf(q, id, kind) == 0
  {
    if q != [] { NoneOf(q[..|q| - 1], id, kind); }
  }

  lemma {:induction false} ZeroCountMeansNone(q: seq<SimEvent>, id: u32, kind: Kind)
    ensures CountOf(q, id, kind) == 0 <==> forall i :: 0 <= i < |q| ==> q[i].id != id || q[i].kind != kind
    ensures CountOf(q, id, kind) == 0 ==> SharesOf(q, id, kind) == 0
  {
    if q != [] {
      var init := q[..|q| - 1];
      ZeroCountMeansNone(init, id, kind);
      assert forall i :: 0 <= i < |init| ==> init[i] == q[i];
    }
  }

  // ----- the ledger -----

  ghost predicate Untouched(o: OrderV) {
    o.open == 0 && o.filled == 0 && o.cancelled == 0
  }

  /** Every scheduled acknowledgement of the order comes before its fills and cancels. */
  ghost predicate AckFirst(q: seq<SimEvent>, id: u32) {
    forall i, j :: 0 <= i < |q| && 0 <= j < |q| ==>
      q[i].id == id && q[j].id == id && q[i].kind == AckE && q[j].kind in {FillE, CancelE} ==> Before(q[i], q[j])
  }

  /** An immediate order's shares: until it reaches the exchange nothing has happened to it; from then
      on filled, cancelled and scheduled shares make up its size, and what is open is what is
      scheduled, except for an order that is cancelled without ever being acknowledged. */
  ghost predicate Ledger(q: seq<SimEvent>, o: OrderV) {
    var x := o.id;
    && CountOf(q, x, PendingCancelE) == 0 && CountOf(q, x, CancelRejectE) == 0
    && CountOf(q, x, SentE) + CountOf(q, x, AckE) <= 1
    && (CountOf(q, x, SentE) == 1 ==> Untouched(o) && CountOf(q, x, FillE) == 0 && CountOf(q, x, CancelE) == 0)
    && (CountOf(q, x, SentE) == 0 ==> o.filled + o.cancelled + SharesOf(q, x, FillE) + SharesOf(q, x, CancelE) == o.terms.size)
    && (CountOf(q, x, AckE) == 1 ==> Untouched(o))
    && AckFirst(q, x)
    && (CountOf(q, x, SentE) == 0 && CountOf(q, x, AckE) == 0 ==>
      || o.open == SharesOf(q, x, FillE) + SharesOf(q, x, CancelE)
      || (o.open == 0 && SharesOf(q, x, FillE) == 0))
  }

  /** No event of the order is scheduled. */
  ghost predicate Settled(q: seq<SimEvent>, id: u32) {
    forall i :: 0 <= i < |q| ==> q[i].id != id
  }

  /** The order is done: every share filled or cancelled, none open. */
  ghost predicate Closed(o: OrderV) {
    o.filled + o.cancelled == o.terms.size && o.open == 0
  }

  lemma SettledIsClosed(q: seq<SimEvent>, o: OrderV)
    requires Ledger(q, o) && Settled(q, o.id)
    ensures Closed(o)
  {
    ZeroCountMeansNone(q, o.id, SentE);
    ZeroCountMeansNone(q, o.id, AckE);
    ZeroCountMeansNone(q, o.id, FillE);
    ZeroCountMeansNone(q, o.id, CancelE);
  }

  /** Queue changes that leave the order's own events alone leave its ledger alone. */
  lemma LedgerIgnoresOthers(q: seq<SimEvent>, q': seq<SimEvent>, o: OrderV, o': OrderV)
    requires Ledger(q, o)
    requires o'.id == o.id && o'.terms == o.terms && o'.open == o.open && o'.filled == o.filled && o'.cancelled == o.cancelled
    requires forall k :: CountOf(q', o.id, k) == CountOf(q, o.id, k) && SharesOf(q', o.id, k) == SharesOf(q, o.id, k)
    requires forall j :: 0 <= j < |q'| && q'[j].id == o.id ==> q'[j] in q
    ensures Ledger(q', o')
  {
  }

  lemma OthersAppended(q: seq<SimEvent>, news: seq<SimEvent>, o: OrderV)
    requires Ledger(q, o) && forall j :: 0 <= j < |news| ==> news[j].id != o.id
    ensures Ledger(q + news, o)
  {
    forall k ensures CountOf(q + news, o.id, k) == CountOf(q, o.id, k) && SharesOf(q + news, o.id, k) == SharesOf(q, o.id, k) {
      CountsPlus(q, news, o.id, k, 0);
      NoneOf(news, o.id, k);
    }
    forall j | 0 <= j < |q + news| && (q + news)[j].id == o.id ensures (q + news)[j] in q {
      assert j < |q|;
    }
    LedgerIgnoresOthers(q, q + news, o, o);
  }

  lemma OtherPopped(q: seq<SimEvent>, i: nat, o: OrderV)
    requires Ledger(q, o) && i < |q| && q[i].id != o.id
    ensures Ledger(Without(q, i), o)
  {
    var q' := Without(q, i);
    forall k ensures CountOf(q', o.id, k) == CountOf(q, o.id, k) && SharesOf(q', o.id, k) == SharesOf(q, o.id, k) {
      CountsWithout(q, i, o.id, k, 0);
      NoneOf([q[i]], o.id, k);
    }
    LedgerIgnoresOthers(q, q', o, o);
  }

  lemma AckFirstWithout(q: seq<SimEvent>, i: nat, id: u32)
    requires AckFirst(q, id) && i < |q|
    ensures AckFirst(Without(q, i), id)
  {
  }

  /** All counts of the order's own event kinds after it is popped. */
  lemma OwnPopped(q: seq<SimEvent>, i: nat, kind: Kind)
    requires i < |q|
    ensures var e := q[i];
      && CountOf(Without(q, i), e.id, kind) == CountOf(q, e.id, kind) - (if e.kind == kind then 1 else 0)
      && SharesOf(Without(q, i), e.id, kind) == SharesOf(q, e.id, kind) - (if e.kind == kind then e.size else 0)
  {
    CountsWithout(q, i, q[i].id, kind, 0);
    CountsOne(q[i], q[i].id, kind, 0);
  }

  lemma OwnPoppedAll(q: seq<SimEvent>, i: nat)
    requires i < |q|
    ensures forall kind :: CountOf(Without(q, i), q[i].id, kind) == CountOf(q, q[i].id, kind) - (if q[i].kind == kind then 1 else 0)
    ensures forall kind :: SharesOf(Without(q, i), q[i].id, kind) == SharesOf(q, q[i].id, kind) - (if q[i].kind == kind then q[i].size else 0)
    ensures forall kind :: kind == q[i].kind ==> CountOf(q, q[i].id, kind) >= 1
  {
    forall kind
      ensures CountOf(Without(q, i), q[i].id, kind) == CountOf(q, q[i].id, kind) - (if q[i].kind == kind then 1 else 0)
      ensures SharesOf(Without(q, i), q[i].id, kind) == SharesOf(q, q[i].id, kind) - (if q[i].kind == kind then q[i].size else 0)
    {
      OwnPopped(q, i, kind);
    }
  }

  /** An acknowledgement is delivered: it opens the whole size, all of which is scheduled. */
  lemma AckKeepsLedger(q: seq<SimEvent>, i: nat, o: OrderV, ts: int, xts: int)
    requires Ledger(q, o) && i < |q| && q[i].id == o.id && q[i].kind == AckE
    ensures Ledger(Without(q, i), OnAck(o, o.terms.size, ts, xts))
  {
    OwnPoppedAll(q, i);
    AckFirstWithout(q, i, o.id);
  }

  /** While an acknowledgement is scheduled, no fill or cancel can be the next event. */
  lemma NoAckPending(q: seq<SimEvent>, i: nat, o: OrderV)
    requires Ledger(q, o) && IsTop(q, i) && q[i].id == o.id && (q[i].kind == FillE || q[i].kind == CancelE)
    ensures CountOf(q, o.id, AckE) == 0 && CountOf(q, o.id, SentE) == 0
  {
    ZeroCountMeansNone(q, o.id, AckE);
    ZeroCountMeansNone(q, o.id, q[i].kind);
  }

  /** A fill is delivered. */
  lemma FillKeepsLedger(q: seq<SimEvent>, i: nat, o: OrderV, price: real, ts: int, xts: int, fee: int)
    requires Ledger(q, o) && IsTop(q, i) && q[i].id == o.id && q[i].kind == FillE
    ensures Ledger(Without(q, i), OnFill(o, q[i].size, price, ts, xts, fee))
  {
    NoAckPending(q, i, o);
    OwnPoppedAll(q, i);
    AckFirstWithout(q, i, o.id);
    Add32Exact(o.filled, q[i].size);
    Sub32Exact(o.open, q[i].size);
  }

  /** A cancel is delivered. */
  lemma CancelKeepsLedger(q: seq<SimEvent>, i: nat, o: OrderV, ts: int, xts: int)
    requires Ledger(q, o) && IsTop(q, i) && q[i].id == o.id && q[i].kind == CancelE
    ensures Ledger(Without(q, i), OnCancel(o, q[i].size, ts, xts))
  {
    NoAckPending(q, i, o);
    OwnPoppedAll(q, i);
    AckFirstWithout(q, i, o.id);
    Add32Exact(o.cancelled, q[i].size);
    if q[i].size <= o.open { Sub32Exact(o.open, q[i].size); }
  }

  // ----- what the exchange schedules for an immediate order -----

  /** A cancel of the whole size, or an acknowledgement with a fill and, for the rest, a cancel. */
  ghost predicate Disposes(news: seq<SimEvent>, o: OrderV) {
    && (forall j :: 0 <= j < |news| ==> news[j].id == o.id)
    && match |news|
       case 1 => news[0].kind == CancelE && news[0].size == o.terms.size
       case 2 =>
         && news[0].kind == AckE && news[1].kind == FillE && Before(news[0], news[1])
         && news[1].size == o.terms.size
       case 3 =>
         && news[0].kind == AckE && news[1].kind == FillE && news[2].kind == CancelE
         && Before(news[0], news[1]) && Before(news[0], news[2])
         && news[1].size + news[2].size == o.terms.size
       case _ => false
  }

  lemma CountsOfNews(news: seq<SimEvent>, o: OrderV, kind: Kind)
    requires Disposes(news, o)
    ensures CountOf(news, o.id, kind) ==
      (match kind
       case AckE => if |news| == 1 then 0 else 1
       case FillE => if |news| == 1 then 0 else 1
       case CancelE => if |news| == 2 then 0 else 1
       case _ => 0)
    ensures SharesOf(news, o.id, FillE) == if |news| == 1 then 0 else news[1].size
    ensures SharesOf(news, o.id, CancelE) == if |news| == 1 then news[0].size else if |news| == 2 then 0 else news[2].size
  {
    forall k: Kind
      ensures CountOf(news, o.id, k) == (if news[0].kind == k then 1 else 0)
        + (if |news| > 1 && news[1].kind == k then 1 else 0) + (if |news| > 2 && news[2].kind == k then 1 else 0)
      ensures SharesOf(news, o.id, k) == (if news[0].kind == k then news[0].size else 0)
        + (if |news| > 1 && news[1].kind == k then news[1].size else 0) + (if |news| > 2 && news[2].kind == k then news[2].size else 0)
    {
      CountsOne(news[0], o.id, k, 0);
      if |news| == 1 {
        assert news == [news[0]];
      } else {
        CountsOne(news[1], o.id, k, 0);
        CountsPlus([news[0]], [news[1]], o.id, k, 0);
        if |news| == 2 {
          assert news == [news[0]] + [news[1]];
        } else {
          CountsOne(news[2], o.id, k, 0);
          CountsPlus([news[0]] + [news[1]], [news[2]], o.id, k, 0);
          assert news == [news[0]] + [news[1]] + [news[2]];
        }
      }
    }
  }

  /** Until the order arrives nothing else of it is scheduled. */
  lemma SentIsLast(q: seq<SimEvent>, i: nat, o: OrderV)
    requires Ledger(q, o) && i < |q| && q[i].id == o.id && q[i].kind == SentE
    ensures Settled(Without(q, i), o.id) && Untouched(o)
  {
    var rest := Without(q, i);
    OwnPoppedAll(q, i);
    forall j | 0 <= j < |rest| ensures rest[j].id != o.id {
      ZeroCountMeansNone(rest, o.id, rest[j].kind);
    }
  }

  lemma NewsAckFirst(rest: seq<SimEvent>, news: seq<SimEvent>, o: OrderV)
    requires Disposes(news, o) && forall j :: 0 <= j < |rest| ==> rest[j].id != o.id
    ensures AckFirst(rest + news, o.id)
  {
  }

  /** The order reaches the exchange and is disposed of: its ledger carries on in the new events. */
  lemma SentKeepsLedger(q: seq<SimEvent>, i: nat, o: OrderV, news: seq<SimEvent>)
    requires Ledger(q, o) && i < |q| && q[i].id == o.id && q[i].kind == SentE && Disposes(news, o)
    ensures Ledger(Without(q, i) + news, o)
  {
    var x, rest := o.id, Without(q, i);
    SentIsLast(q, i, o);
    forall k: Kind
      ensures CountOf(rest + news, x, k) == CountOf(news, x, k) && SharesOf(rest + news, x, k) == SharesOf(news, x, k)
    {
      CountsPlus(rest, news, x, k, 0);
      NoneOf(rest, x, k);
    }
    forall k: Kind { CountsOfNews(news, o, k); }
    NewsAckFirst(rest, news, o);
  }

  lemma NewOrderLedger(q: seq<SimEvent>, o: OrderV, sent: SimEvent)
    requires Settled(q, o.id) && Untouched(o) && sent.id == o.id && sent.kind == SentE
    ensures Ledger(q + [sent], o)
  {
    forall k: Kind
      ensures CountOf(q + [sent], o.id, k) == (if k == SentE then 1 else 0)
    {
      CountsPlus(q, [sent], o.id, k, 0);
      NoneOf(q, o.id, k);
      CountsOne(sent, o.id, k, 0);
    }
    assert forall j :: 0 <= j < |q + [sent]| && (q + [sent])[j].id == o.id ==> (q + [sent])[j] == sent;
  }

  // ----- an order whose cancel overtakes its acknowledgement -----

  /** The order of the reports: the cancel, the acknowledgement, the fill. */
  function LateRank(k: Kind): (r: nat) {
    match k
    case CancelE => 0
    case AckE => 1
    case FillE => 2
    case _ => 3
  }

  ghost predicate LateOrder(q: seq<SimEvent>, id: u32) {
    forall i, j :: 0 <= i < |q| && 0 <= j < |q| && q[i].id == id && q[j].id == id && LateRank(q[i].kind) < LateRank(q[j].kind) ==>
      Before(q[i], q[j])
  }

  /** A partly crossed order whose cancel is scheduled before its acknowledgement: all shares are
      accounted for, but the acknowledgement opens those already cancelled again, for good. */
  ghost predicate LateLedger(q: seq<SimEvent>, o: OrderV) {
    var x := o.id;
    var c, a, f := CountOf(q, x, CancelE), CountOf(q, x, AckE), CountOf(q, x, FillE);
    && CountOf(q, x, PendingCancelE) == 0 && CountOf(q, x, CancelRejectE) == 0 && CountOf(q, x, SentE) == 0
    && c <= a <= f <= 1 && LateOrder(q, x)
    && o.cancelled + SharesOf(q, x, CancelE) + o.filled + SharesOf(q, x, FillE) == o.terms.size
    && (if c == 1 then o.cancelled == 0 && SharesOf(q, x, CancelE) > 0 else o.cancelled > 0)
    && (f == 1 ==> o.filled == 0)
    && o.open == (if a == 1 then 0 else if f == 1 then o.terms.size else o.cancelled)
  }

  lemma SettledIsLeftOpen(q: seq<SimEvent>, o: OrderV)
    requires LateLedger(q, o) && Settled(q, o.id)
    ensures o.filled + o.cancelled == o.terms.size && o.open == o.cancelled > 0 && !Closed(o)
  {
    ZeroCountMeansNone(q, o.id, AckE);
    ZeroCountMeansNone(q, o.id, FillE);
    ZeroCountMeansNone(q, o.id, CancelE);
  }

  /** Queue changes that leave the order's own events alone leave its late ledger alone. */
  lemma LateIgnoresOthers(q: seq<SimEvent>, q': seq<SimEvent>, o: OrderV)
    requires LateLedger(q, o)
    requires forall k :: CountOf(q', o.id, k) == CountOf(q, o.id, k) && SharesOf(q', o.id, k) == SharesOf(q, o.id, k)
    requires forall j :: 0 <= j < |q'| && q'[j].id == o.id ==> q'[j] in q
    ensures LateLedger(q', o)
  {
  }

  lemma LateOrderWithout(q: seq<SimEvent>, i: nat, id: u32)
    requires LateOrder(q, id) && i < |q|
    ensures LateOrder(Without(q, i), id)
  {
    var q' := Without(q, i);
    assert forall j :: 0 <= j < |q'| ==> q'[j] == if j < i then q[j] else q[j + 1];
  }

  /** Reports come in rank order: what is popped has nothing of lower rank still queued. */
  lemma LateTop(q: seq<SimEvent>, i: nat, o: OrderV, k: Kind)
    requires LateLedger(q, o) && IsTop(q, i) && q[i].id == o.id && LateRank(k) < LateRank(q[i].kind)
    ensures CountOf(q, o.id, k) == 0 && SharesOf(q, o.id, k) == 0
  {
    forall j | 0 <= j < |q| ensures q[j].id != o.id || q[j].kind != k {
      assert !Before(q[j], q[i]);
    }
    ZeroCountMeansNone(q, o.id, k);
  }

  lemma LateCancel(q: seq<SimEvent>, i: nat, o: OrderV, ts: int, xts: int)
    requires LateLedger(q, o) && IsTop(q, i) && q[i].id == o.id && q[i].kind == CancelE
    ensures LateLedger(Without(q, i), OnCancel(o, q[i].size, ts, xts))
  {
    OwnPoppedAll(q, i);
    LateOrderWithout(q, i, o.id);
    ZeroCountMeansNone(Without(q, i), o.id, CancelE);
    Add32Exact(0, q[i].size);
  }

  lemma LateAck(q: seq<SimEvent>, i: nat, o: OrderV, ts: int, xts: int)
    requires LateLedger(q, o) && IsTop(q, i) && q[i].id == o.id && q[i].kind == AckE
    ensures LateLedger(Without(q, i), OnAck(o, o.terms.size, ts, xts))
  {
    LateTop(q, i, o, CancelE);
    OwnPoppedAll(q, i);
    LateOrderWithout(q, i, o.id);
  }

  lemma LateFill(q: seq<SimEvent>, i: nat, o: OrderV, price: real, ts: int, xts: int, fee: int)
    requires LateLedger(q, o) && IsTop(q, i) && q[i].id == o.id && q[i].kind == FillE
    ensures LateLedger(Without(q, i), OnFill(o, q[i].size, price, ts, xts, fee))
  {
    LateTop(q, i, o, CancelE);
    LateTop(q, i, o, AckE);
    OwnPoppedAll(q, i);
    LateOrderWithout(q, i, o.id);
    ZeroCountMeansNone(Without(q, i), o.id, FillE);
    Add32Exact(0, q[i].size);
    Sub32Exact(o.open, q[i].size);
  }

  /** An acknowledgement, a fill of part and a cancel of the rest, the cancel due first. */
  ghost predicate DisposesLate(news: seq<SimEvent>, o: OrderV) {
    && |news| == 3 && (forall j :: 0 <= j < 3 ==> news[j].id == o.id)
    && news[0].kind == AckE && news[1].kind == FillE && news[2].kind == CancelE
    && Before(news[2], news[0]) && Before(news[2], news[1]) && Before(news[0], news[1])
    && news[1].size + news[2].size == o.terms.size && news[2].size > 0
  }

  lemma CountsOfThree(news: seq<SimEvent>, id: u32, k: Kind)
    requires |news| == 3 && forall j :: 0 <= j < 3 ==> news[j].id == id
    ensures CountOf(news, id, k) == (if news[0].kind == k then 1 else 0) + (if news[1].kind == k then 1 else 0) + (if news[2].kind == k then 1 else 0)
    ensures SharesOf(news, id, k) == (if news[0].kind == k then news[0].size else 0) + (if news[1].kind == k then news[1].size else 0)
      + (if news[2].kind == k then news[2].size else 0)
  {
    forall j | 0 <= j < 3 { CountsOne(news[j], id, k, 0); }
    CountsPlus([news[0]], [news[1]], id, k, 0);
    CountsPlus([news[0]] + [news[1]], [news[2]], id, k, 0);
    assert news == [news[0]] + [news[1]] + [news[2]];
  }

  lemma LateStart(rest: seq<SimEvent>, o: OrderV, news: seq<SimEvent>)
    requires Settled(rest, o.id) && Untouched(o) && DisposesLate(news, o)
    ensures LateLedger(rest + news, o)
  {
    var x, q := o.id, rest + news;
    forall k: Kind
      ensures CountOf(q, x, k) == (if k in {AckE, FillE, CancelE} then 1 else 0)
      ensures SharesOf(q, x, k) == if k == AckE then news[0].size else if k == FillE then news[1].size else if k == CancelE then news[2].size else 0
    {
      CountsPlus(rest, news, x, k, 0);
      NoneOf(rest, x, k);
      CountsOfThree(news, x, k);
    }
    forall i, j | 0 <= i < |q| && 0 <= j < |q| && q[i].id == x && q[j].id == x && LateRank(q[i].kind) < LateRank(q[j].kind)
      ensures Before(q[i], q[j])
    {
      assert i >= |rest| && j >= |rest|;
      assert q[i] == news[i - |rest|] && q[j] == news[j - |rest|];
    }
  }

  // ----- either way -----

  /** The exchange's time stamp on a report. */
  function SinceMidnight(ts: int): (r: int) {
    ts % 86_400_000_000_000
  }

  /** The nanoseconds of the day so far: less than a day's, and whole days before it. */
  lemma SinceMidnightOfDay(ts: int, days: int)
    requires 0 <= ts - days * (24 * 60 * 60 * 1_000_000_000) < 24 * 60 * 60 * 1_000_000_000
    ensures SinceMidnight(ts) == ts - days * (24 * 60 * 60 * 1_000_000_000)
  {
  }

  /** The order manager's update of an order for a report. */
  function ReportedOrder(o: OrderV, e: SimEvent): (r: OrderV) {
    match e.kind
    case AckE => OnAck(o, o.terms.size, e.ts, SinceMidnight(e.ts))
    case FillE => OnFill(o, e.size, e.price, e.ts, SinceMidnight(e.ts), 0)
    case CancelE => OnCancel(o, e.size, e.ts, SinceMidnight(e.ts))
    case CancelRejectE => OnCancelRejected(o, e.ts, SinceMidnight(e.ts))
    case _ => o
  }

  /** The order's shares are in balance, in the way its arrival determined. */
  ghost predicate Balanced(late: bool, q: seq<SimEvent>, o: OrderV) {
    if late then LateLedger(q, o) else Ledger(q, o)
  }

  lemma BalancedWithOthers(late: bool, q: seq<SimEvent>, news: seq<SimEvent>, o: OrderV)
    requires Balanced(late, q, o) && forall j :: 0 <= j < |news| ==> news[j].id != o.id
    ensures Balanced(late, q + news, o)
  {
    hide LateLedger, Ledger;
    if late {
      forall k ensures CountOf(q + news, o.id, k) == CountOf(q, o.id, k) && SharesOf(q + news, o.id, k) == SharesOf(q, o.id, k) {
        CountsPlus(q, news, o.id, k, 0);
        NoneOf(news, o.id, k);
      }
      forall j | 0 <= j < |q + news| && (q + news)[j].id == o.id ensures (q + news)[j] in q { assert j < |q|; }
      LateIgnoresOthers(q, q + news, o);
    } else {
      OthersAppended(q, news, o);
    }
  }

  lemma BalancedWithoutOther(late: bool, q: seq<SimEvent>, i: nat, o: OrderV)
    requires Balanced(late, q, o) && i < |q| && q[i].id != o.id
    ensures Balanced(late, Without(q, i), o)
  {
    hide LateLedger, Ledger;
    if late {
      forall k ensures CountOf(Without(q, i), o.id, k) == CountOf(q, o.id, k) && SharesOf(Without(q, i), o.id, k) == SharesOf(q, o.id, k) {
        CountsWithout(q, i, o.id, k, 0);
        NoneOf([q[i]], o.id, k);
      }
      LateIgnoresOthers(q, Without(q, i), o);
    } else {
      OtherPopped(q, i, o);
    }
  }

  /** A delivered report keeps the balance. */
  lemma ReportKeepsBalance(late: bool, q: seq<SimEvent>, i: nat, o: OrderV)
    requires Balanced(late, q, o) && i < |q| && IsTop(q, i) && q[i].id == o.id && q[i].kind in {AckE, FillE, CancelE}
    ensures Balanced(late, Without(q, i), ReportedOrder(o, q[i]))
  {
    hide LateLedger, Ledger, IsTop, Without, OnAck, OnFill, OnCancel;
    var e := q[i];
    match e.kind {
      case AckE => if late { LateAck(q, i, o, e.ts, SinceMidnight(e.ts)); } else { AckKeepsLedger(q, i, o, e.ts, SinceMidnight(e.ts)); }
      case FillE =>
        if late { LateFill(q, i, o, e.price, e.ts, SinceMidnight(e.ts), 0); }
        else { FillKeepsLedger(q, i, o, e.price, e.ts, SinceMidnight(e.ts), 0); }
      case CancelE => if late { LateCancel(q, i, o, e.ts, SinceMidnight(e.ts)); } else { CancelKeepsLedger(q, i, o, e.ts, SinceMidnight(e.ts)); }
    }
  }

  /** With nothing left to deliver the order is closed, unless its cancel overtook its acknowledgement:
      then its cancelled shares stay open. */
  lemma SettledClosedIff(late: bool, q: seq<SimEvent>, o: OrderV)
    requires Balanced(late, q, o) && Settled(q, o.id)
    ensures o.filled + o.cancelled == o.terms.size && (Closed(o) <==> !late) && (late ==> o.open == o.cancelled > 0)
  {
    if late { SettledIsLeftOpen(q, o); } else { SettledIsClosed(q, o); }
  }

  /** Nothing scheduled for a balanced order is a cancel request or its refusal. */
  lemma BalancedIsNotRequested(late: bool, q: seq<SimEvent>, o: OrderV, i: nat)
    requires Balanced(late, q, o) && i < |q| && q[i].id == o.id
    ensures q[i].kind in {SentE, AckE, FillE, CancelE} && (late ==> q[i].kind != SentE)
  {
    ZeroCountMeansNone(q, o.id, q[i].kind);
  }

  // ----- delivering a queue -----

  /** Delivering every event of the queue, each time one the priority queue may yield, takes the order
      from `o` to `o'`. */
  ghost predicate Delivers(q: seq<SimEvent>, o: OrderV, o': OrderV)
    decreases |q|
  {
    if q == [] then o' == o
    else exists i: nat :: i < |q| && IsTop(q, i) && Delivers(Without(q, i), ReportedOrder(o, q[i]), o')
  }

  lemma DeliverOne(late: bool, q: seq<SimEvent>, i: nat, o: OrderV)
    requires Balanced(late, q, o) && i < |q| && IsTop(q, i)
    requires forall j :: 0 <= j < |q| ==> q[j].id == o.id && q[j].kind in {AckE, FillE, CancelE}
    ensures var o', rest := ReportedOrder(o, q[i]), Without(q, i);
      && Balanced(late, rest, o') && o'.id == o.id && o'.terms == o.terms && |rest| < |q|
      && forall j :: 0 <= j < |rest| ==> rest[j].id == o.id && rest[j].kind in {AckE, FillE, CancelE}
  {
    hide Ledger, LateLedger, IsTop;
    ReportKeepsBalance(late, q, i, o);
  }

  lemma {:induction false} DeliveredClosesIff(late: bool, q: seq<SimEvent>, o: OrderV, o': OrderV)
    requires Balanced(late, q, o) && Delivers(q, o, o')
    requires forall j :: 0 <= j < |q| ==> q[j].id == o.id && q[j].kind in {AckE, FillE, CancelE}
    ensures o'.filled + o'.cancelled == o.terms.size && (Closed(o') <==> !late) && (late ==> o'.open == o'.cancelled > 0)
    decreases |q|
  {
    hide Balanced, IsTop, ReportedOrder, Without;
    if q == [] {
      SettledClosedIff(late, q, o);
    } else {
      var i: nat :| i < |q| && IsTop(q, i) && Delivers(Without(q, i), ReportedOrder(o, q[i]), o');
      DeliverOne(late, q, i, o);
      DeliveredClosesIff(late, Without(q, i), ReportedOrder(o, q[i]), o');
    }
  }
}
