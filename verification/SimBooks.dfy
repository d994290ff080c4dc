/** What every state of the exchange simulator keeps: the accounts of its orders and the order of time. */
module SimBooks {
  import opened Basics
  import opened Orders
  import opened OrderTable
  import opened SimEvents
  import opened SimExchange

  /** What the accounts remember besides the queue and the orders. */
  datatype History = History(sentAt: map<u32, int>, arrived: map<u32, Seen>, c: Config)

  function Past(c: Config, s: Sim): (r: History) {
    History(s.sentAt, s.arrived, c)
  }

  /** The last moment anything can be scheduled for an order sent at `sent`. */
  function Deadline(c: Config, sent: int): (r: int) {
    sent + c.ack + (if c.ack < c.cxl then c.cxl else c.ack)
  }

  /** The order in the table is a live order of this session, immediate, and no request of its owner to
      cancel it was accepted. */
  ghost predicate Left(om: Table, touched: set<u32>, id: u32) {
    Holds(om, id) && om.slots[id].value.state != LocallyRejected && Immediate(om.slots[id].value.terms) && id !in touched
  }

  /** The order traded in part on arrival, and its cancel is scheduled before its acknowledgement. */
  predicate IsLate(h: History, o: OrderV) {
    h.c.cxl < h.c.ack && o.id in h.arrived && PartlyCrosses(o.terms, h.arrived[o.id].market, h.arrived[o.id].occupied)
  }

  /** The order's events are due in time: its arrival one acknowledgement latency after it was sent, its
      reports by the deadline. */
  ghost predicate Timely(h: History, q: seq<SimEvent>, id: u32) {
    && id in h.sentAt
    && forall i :: 0 <= i < |q| && q[i].id == id ==>
      q[i].ts <= if q[i].kind == SentE then h.sentAt[id] + h.c.ack else Deadline(h.c, h.sentAt[id])
  }

  /** The order has arrived or will. */
  ghost predicate Arrives(h: History, q: seq<SimEvent>, id: u32) {
    id in h.arrived || exists i :: 0 <= i < |q| && q[i].id == id && q[i].kind == SentE
  }

  /** The order's shares are accounted for, and its events are due in time. */
  ghost predicate Account(h: History, q: seq<SimEvent>, o: OrderV) {
    Balanced(IsLate(h, o), q, o) && Timely(h, q, o.id) && Arrives(h, q, o.id)
  }

  ghost predicate Ledgers(h: History, q: seq<SimEvent>, om: Table, touched: set<u32>) {
    forall id: u32 :: Left(om, touched, id) ==> Account(h, q, om.slots[id].value)
  }

  /** Orders arrive once. */
  ghost predicate ArriveOnce(h: History, q: seq<SimEvent>) {
    && (forall i :: 0 <= i < |q| && q[i].kind == SentE ==> q[i].id !in h.arrived)
    && (forall i, j :: 0 <= i < j < |q| && q[i].kind == SentE && q[j].kind == SentE ==> q[i].id != q[j].id)
  }

  /** Events and resting orders belong to orders in the table; resting orders are not immediate. */
  ghost predicate Tied(h: History, q: seq<SimEvent>, om: Table, resting: map<Spot, SimOrder>) {
    && Sound(om) && ArriveOnce(h, q)
    && (forall id :: id in h.sentAt || id in h.arrived ==> id <= om.localID)
    && (forall i :: 0 <= i < |q| ==> Holds(om, q[i].id) && om.slots[q[i].id].value.state != LocallyRejected)
    && (forall s :: s in resting ==>
      Holds(om, resting[s].id) && om.slots[resting[s].id].value.state != LocallyRejected && !Immediate(om.slots[resting[s].id].value.terms))
  }

  ghost predicate Books(h: History, q: seq<SimEvent>, om: Table, resting: map<Spot, SimOrder>, touched: set<u32>) {
    Tied(h, q, om, resting) && Ledgers(h, q, om, touched)
  }

  /** Nothing queued is in the past, deliveries were made in time order, and every event ever scheduled
      is either queued or delivered. */
  ghost predicate Clock(ts: int, q: seq<SimEvent>, delivered: seq<SimEvent>, scheduled: multiset<SimEvent>) {
    && (forall i :: 0 <= i < |q| ==> q[i].ts >= ts)
    && Sorted(delivered) && (delivered != [] ==> delivered[|delivered| - 1].ts <= ts)
    && scheduled == multiset(q) + multiset(delivered)
  }

  ghost predicate Later(news: seq<SimEvent>, ts: int) {
    forall j :: 0 <= j < |news| ==> news[j].ts >= ts
  }

  lemma ClockAppend(ts: int, q: seq<SimEvent>, delivered: seq<SimEvent>, scheduled: multiset<SimEvent>, news: seq<SimEvent>)
    requires Clock(ts, q, delivered, scheduled) && Later(news, ts)
    ensures Clock(ts, q + news, delivered, scheduled + multiset(news))
  {
  }

  lemma SortedPush(es: seq<SimEvent>, e: SimEvent)
    requires Sorted(es) && (es != [] ==> es[|es| - 1].ts <= e.ts)
    ensures Sorted(es + [e])
  {
  }

  lemma WithoutParts(q: seq<SimEvent>, i: nat)
    requires i < |q|
    ensures multiset(q) == multiset(Without(q, i)) + multiset{q[i]}
  {
    assert q == q[..i] + [q[i]] + q[i + 1..];
  }

  lemma WithoutAt(q: seq<SimEvent>, i: nat)
    requires i < |q|
    ensures |Without(q, i)| == |q| - 1
    ensures forall j :: 0 <= j < |Without(q, i)| ==> Without(q, i)[j] == if j < i then q[j] else q[j + 1]
  {
  }

  lemma ClockPop(ts: int, q: seq<SimEvent>, i: nat, delivered: seq<SimEvent>, scheduled: multiset<SimEvent>)
    requires Clock(ts, q, delivered, scheduled) && i < |q| && IsTop(q, i)
    ensures ts <= q[i].ts && Clock(q[i].ts, Without(q, i), delivered + [q[i]], scheduled)
  {
    hide Sorted;
    WithoutParts(q, i);
    WithoutAt(q, i);
    SortedPush(delivered, q[i]);
    var rest := Without(q, i);
    forall j | 0 <= j < |rest| ensures rest[j].ts >= q[i].ts {
      var k := if j < i then j else j + 1;
      assert rest[j] == q[k] && !Before(q[k], q[i]);
    }
  }

  lemma ClockForward(ts: int, later: int, q: seq<SimEvent>, delivered: seq<SimEvent>, scheduled: multiset<SimEvent>)
    requires Clock(ts, q, delivered, scheduled) && ts <= later
    requires forall i :: 0 <= i < |q| ==> q[i].ts >= later
    ensures Clock(later, q, delivered, scheduled)
  {
  }

  ghost predicate Good(c: Config, s: Sim) {
    && Books(Past(c, s), s.eventq, s.om, s.resting, s.touched) && Clock(s.ts, s.eventq, s.delivered, s.scheduled)
    && forall id :: id in s.touched ==> id <= s.om.localID
  }

  // ----- one order's account -----

  /** The histories say the same of the order. */
  predicate SameOf(h: History, h': History, id: u32) {
    && h'.c == h.c && (id in h.sentAt ==> id in h'.sentAt && h'.sentAt[id] == h.sentAt[id])
    && (id in h'.arrived <==> id in h.arrived) && (id in h.arrived ==> h'.arrived[id] == h.arrived[id])
  }

  lemma AccountWithOthers(h: History, h': History, q: seq<SimEvent>, news: seq<SimEvent>, o: OrderV)
    requires Account(h, q, o) && SameOf(h, h', o.id) && forall j :: 0 <= j < |news| ==> news[j].id != o.id
    ensures Account(h', q + news, o)
  {
    hide Balanced, PartlyCrosses;
    BalancedWithOthers(IsLate(h, o), q, news, o);
    if o.id !in h.arrived {
      var i :| 0 <= i < |q| && q[i].id == o.id && q[i].kind == SentE;
      assert (q + news)[i] == q[i];
    }
  }

  /** Popping anything but its arrival does not stop an order from arriving. */
  lemma StillArrives(h: History, q: seq<SimEvent>, i: nat, id: u32)
    requires Arrives(h, q, id) && i < |q| && (q[i].id != id || q[i].kind != SentE)
    ensures Arrives(h, Without(q, i), id)
  {
    if id !in h.arrived {
      var k :| 0 <= k < |q| && q[k].id == id && q[k].kind == SentE;
      var rest := Without(q, i);
      assert rest[if k < i then k else k - 1] == q[k];
    }
  }

  lemma AccountWithoutOther(h: History, q: seq<SimEvent>, i: nat, o: OrderV)
    requires Account(h, q, o) && i < |q| && q[i].id != o.id
    ensures Account(h, Without(q, i), o)
  {
    hide Balanced, IsLate;
    BalancedWithoutOther(IsLate(h, o), q, i, o);
    StillArrives(h, q, i, o.id);
    WithoutAt(q, i);
  }

  lemma AccountReport(h: History, q: seq<SimEvent>, i: nat, o: OrderV)
    requires Account(h, q, o) && i < |q| && IsTop(q, i) && q[i].id == o.id && q[i].kind in {AckE, FillE, CancelE}
    ensures Account(h, Without(q, i), ReportedOrder(o, q[i]))
  {
    hide Balanced, PartlyCrosses, IsTop;
    ReportKeepsBalance(IsLate(h, o), q, i, o);
    StillArrives(h, q, i, o.id);
    WithoutAt(q, i);
  }

  /** The history once the order arrived and met `m`. */
  function ArrivedPast(h: History, id: u32, m: Seen): (r: History) {
    h.(arrived := h.arrived[id := m])
  }

  /** The arriving order's own account. */
  lemma AccountArrival(h: History, q: seq<SimEvent>, i: nat, o: OrderV, m: Seen, ahead: bool)
    requires Account(h, q, o) && i < |q| && q[i].id == o.id && q[i].kind == SentE && Immediate(o.terms)
    ensures var news := ArrivalOf(o.terms, o.id, q[i].ts, h.c.ack, h.c.cxl, m.market, m.occupied, ahead).news;
      Account(ArrivedPast(h, o.id, m), Without(q, i) + news, o)
  {
    hide Ledger, LateLedger, ArrivalOf, PartlyCrosses;
    var news := ArrivalOf(o.terms, o.id, q[i].ts, h.c.ack, h.c.cxl, m.market, m.occupied, ahead).news;
    BalancedIsNotRequested(IsLate(h, o), q, o, i);
    ImmediateIsDisposed(o, q[i].ts, h.c.ack, h.c.cxl, m.market, m.occupied, ahead);
    if h.c.cxl < h.c.ack && PartlyCrosses(o.terms, m.market, m.occupied) {
      SentIsLast(q, i, o);
      LateStart(Without(q, i), o, news);
    } else {
      SentKeepsLedger(q, i, o, news);
    }
    ArrivalNews(o.terms, o.id, q[i].ts, h.c.ack, h.c.cxl, m.market, m.occupied, ahead);
    WithoutAt(q, i);
  }

  lemma NewOrderAccount(h: History, q: seq<SimEvent>, o: OrderV, sent: SimEvent)
    requires Settled(q, o.id) && Untouched(o) && sent.id == o.id && sent.kind == SentE && o.id !in h.arrived
    requires o.id in h.sentAt && sent.ts == h.sentAt[o.id] + h.c.ack
    ensures Account(h, q + [sent], o)
  {
    NewOrderLedger(q, o, sent);
    assert (q + [sent])[|q|] == sent;
  }

  // ----- all orders -----

  /** One order's entry changed in place, its terms and acceptance kept. */
  ghost predicate OneChanged(om: Table, om': Table, id: u32) {
    && Holds(om, id) && |om'.slots| == |om.slots| && om'.localID == om.localID && Holds(om', id)
    && om'.slots[id].value.id == om.slots[id].value.id
    && om'.slots[id].value.terms == om.slots[id].value.terms
    && om'.slots[id].value.state != LocallyRejected
    && forall i :: 0 <= i < |om.slots| && i != id ==> om'.slots[i] == om.slots[i]
  }

  lemma TiedAfterChange(h: History, q: seq<SimEvent>, om: Table, resting: map<Spot, SimOrder>, om': Table, id: u32)
    requires Tied(h, q, om, resting) && OneChanged(om, om', id)
    ensures Tied(h, q, om', resting)
  {
    hide ArriveOnce;
  }

  lemma ArriveOnceWithout(h: History, q: seq<SimEvent>, i: nat)
    requires ArriveOnce(h, q) && i < |q|
    ensures ArriveOnce(h, Without(q, i))
    ensures q[i].kind == SentE ==> forall m :: ArriveOnce(ArrivedPast(h, q[i].id, m), Without(q, i))
  {
    WithoutAt(q, i);
    assert forall j :: 0 <= j < |q| && j != i && q[j].kind == SentE && q[i].kind == SentE ==> q[j].id != q[i].id;
  }

  lemma TiedWithout(h: History, q: seq<SimEvent>, i: nat, om: Table, resting: map<Spot, SimOrder>)
    requires Tied(h, q, om, resting) && i < |q|
    ensures Tied(h, Without(q, i), om, resting)
  {
    hide ArriveOnce;
    ArriveOnceWithout(h, q, i);
    WithoutAt(q, i);
  }

  /** Delivering entry `i` changes its own order; everyone else's account is as before. */
  lemma LedgersAfterDelivery(h: History, q: seq<SimEvent>, i: nat, om: Table, om': Table, touched: set<u32>)
    requires Sound(om) && Ledgers(h, q, om, touched) && i < |q| && OneChanged(om, om', q[i].id)
    requires om.slots[q[i].id].value.state != LocallyRejected
    requires Left(om, touched, q[i].id) ==> Account(h, Without(q, i), om'.slots[q[i].id].value)
    ensures Ledgers(h, Without(q, i), om', touched)
  {
    hide Account, Without;
    forall id: u32 | Left(om', touched, id) ensures Account(h, Without(q, i), om'.slots[id].value) {
      assert Left(om, touched, id);
      if id != q[i].id { AccountWithoutOther(h, q, i, om.slots[id].value); }
    }
  }

  /** Scheduling events for orders that are touched or not immediate. */
  lemma LedgersAfterAppend(h: History, q: seq<SimEvent>, news: seq<SimEvent>, om: Table, touched: set<u32>)
    requires Sound(om) && Ledgers(h, q, om, touched)
    requires forall j :: 0 <= j < |news| ==> !Left(om, touched, news[j].id)
    ensures Ledgers(h, q + news, om, touched)
  {
    hide Account;
    forall id: u32 | Left(om, touched, id) ensures Account(h, q + news, om.slots[id].value) {
      AccountWithOthers(h, h, q, news, om.slots[id].value);
    }
  }

  lemma TiedAppend(h: History, q: seq<SimEvent>, news: seq<SimEvent>, om: Table, resting: map<Spot, SimOrder>)
    requires Tied(h, q, om, resting)
    requires forall j :: 0 <= j < |news| ==> news[j].kind != SentE && Holds(om, news[j].id) && om.slots[news[j].id].value.state != LocallyRejected
    ensures Tied(h, q + news, om, resting)
  {
  }

  /** The history once order `id` was sent at `ts`. */
  function SentPast(h: History, id: u32, ts: int): (r: History) {
    h.(sentAt := h.sentAt[id := ts])
  }

  lemma SendArrivesOnce(h: History, h': History, q: seq<SimEvent>, news: seq<SimEvent>, om: Table, resting: map<Spot, SimOrder>)
    requires Tied(h, q, om, resting) && h'.arrived == h.arrived
    requires news == [] || (|news| == 1 && news[0].id > om.localID)
    ensures ArriveOnce(h', q + news)
  {
  }

  /** A send adds one order and, if it is accepted, its event. */
  lemma SendTied(h: History, q: seq<SimEvent>, om: Table, resting: map<Spot, SimOrder>,
                 terms: Terms, checks: bool, accepted: bool, news: seq<SimEvent>, ts: int)
    requires Tied(h, q, om, resting) && om.localID < U32_MAX
    requires var s := Sending(om, Fresh(terms), checks, accepted);
      if s.ok then |news| == 1 && news[0].id == s.table.localID else news == []
    ensures var s := Sending(om, Fresh(terms), checks, accepted);
      Tied(SentPast(h, s.table.localID, ts), q + news, s.table, resting)
  {
    hide ArriveOnce, BaseValid;
    var s := Sending(om, Fresh(terms), checks, accepted);
    assert forall k :: 0 <= k < |om.slots| ==> s.table.slots[k] == om.slots[k];
    var h' := SentPast(h, s.table.localID, ts);
    assert ArriveOnce(h', q + news) by { SendArrivesOnce(h, h', q, news, om, resting); }
  }

  lemma SendLedgers(h: History, q: seq<SimEvent>, om: Table, resting: map<Spot, SimOrder>, touched: set<u32>,
                    terms: Terms, checks: bool, accepted: bool, news: seq<SimEvent>, ts: int)
    requires Tied(h, q, om, resting) && Ledgers(h, q, om, touched) && om.localID < U32_MAX
    requires var s := Sending(om, Fresh(terms), checks, accepted);
      if s.ok then |news| == 1 && news[0].id == s.table.localID && news[0].kind == SentE && news[0].ts == ts + h.c.ack else news == []
    ensures var s := Sending(om, Fresh(terms), checks, accepted);
      Ledgers(SentPast(h, s.table.localID, ts), q + news, s.table, touched)
  {
    hide Account, ArriveOnce;
    var s := Sending(om, Fresh(terms), checks, accepted);
    var om', id := s.table, om.localID + 1;
    var h' := SentPast(h, id, ts);
    assert forall k :: 0 <= k < |om.slots| ==> om'.slots[k] == om.slots[k];
    assert om'.slots[id].value.id == id;
    forall k: u32 | Left(om', touched, k) ensures Account(h', q + news, om'.slots[k].value) {
      if k == id {
        assert news == [news[0]];
        NewOrderAccount(h', q, om'.slots[id].value, news[0]);
      } else {
        assert Left(om, touched, k);
        AccountWithOthers(h, h', q, news, om.slots[k].value);
      }
    }
  }

  lemma OneChangedPut(om: Table, id: u32, o: OrderV)
    requires Sound(om) && Holds(om, id) && o.id == id && o.terms == om.slots[id].value.terms && o.state != LocallyRejected
    ensures OneChanged(om, Put(om, id, Some(o)), id)
  {
  }

  /** An accepted cancel request touches its order; a refused one changes nothing. */
  lemma CancelKeeps(h: History, q: seq<SimEvent>, om: Table, resting: map<Spot, SimOrder>, touched: set<u32>,
                    id: u32, newqty: u32, accepted: bool, news: seq<SimEvent>)
    requires Books(h, q, om, resting, touched) && Holds(om, id)
    requires var s := Cancelling(om, id, newqty, accepted);
      if s.ok then |news| == 1 && news[0].id == id && news[0].kind != SentE else news == []
    ensures var s := Cancelling(om, id, newqty, accepted);
      Books(h, q + news, s.table, resting, if s.ok then touched + {id} else touched)
  {
    hide Account, ArriveOnce;
    var s := Cancelling(om, id, newqty, accepted);
    if !s.ok {
      assert q + news == q;
    } else {
      var o := s.table.slots[id].value;
      OneChangedPut(om, id, o);
      TiedAfterChange(h, q, om, resting, s.table, id);
      TiedAppend(h, q, news, s.table, resting);
      forall k: u32 | Left(s.table, touched + {id}, k) ensures Account(h, q + news, s.table.slots[k].value) {
        assert Left(om, touched, k);
        AccountWithOthers(h, h, q, news, om.slots[k].value);
      }
    }
  }

  /** The whole effect of an arrival on the accounts. */
  lemma ArrivalKeeps(h: History, q: seq<SimEvent>, i: nat, om: Table, touched: set<u32>, m: Seen, ahead: bool)
    requires Sound(om) && Ledgers(h, q, om, touched) && i < |q| && q[i].kind == SentE && Holds(om, q[i].id)
    ensures var news := ArrivalOf(om.slots[q[i].id].value.terms, q[i].id, q[i].ts, h.c.ack, h.c.cxl, m.market, m.occupied, ahead).news;
      Ledgers(ArrivedPast(h, q[i].id, m), Without(q, i) + news, om, touched)
  {
    hide Account, ArrivalOf, Without;
    var o := om.slots[q[i].id].value;
    var news := ArrivalOf(o.terms, q[i].id, q[i].ts, h.c.ack, h.c.cxl, m.market, m.occupied, ahead).news;
    var h' := ArrivedPast(h, q[i].id, m);
    ArrivalNews(o.terms, q[i].id, q[i].ts, h.c.ack, h.c.cxl, m.market, m.occupied, ahead);
    forall id: u32 | Left(om, touched, id) ensures Account(h', Without(q, i) + news, om.slots[id].value) {
      if id == q[i].id {
        AccountArrival(h, q, i, o, m, ahead);
      } else {
        AccountWithoutOther(h, q, i, om.slots[id].value);
        AccountWithOthers(h, h', Without(q, i), news, om.slots[id].value);
      }
    }
  }

  /** Cancel requests and their rejections are never scheduled for an order that was left alone. */
  lemma RequestedIsTouched(h: History, q: seq<SimEvent>, i: nat, om: Table, touched: set<u32>)
    requires Sound(om) && Ledgers(h, q, om, touched) && i < |q| && q[i].kind in {PendingCancelE, CancelRejectE}
    ensures !Left(om, touched, q[i].id)
  {
    hide Balanced, IsLate;
    if Left(om, touched, q[i].id) {
      var o := om.slots[q[i].id].value;
      BalancedIsNotRequested(IsLate(h, o), q, o, i);
    }
  }

  /** A popped cancel request is answered; its order was touched. */
  lemma AnswerKeeps(h: History, q: seq<SimEvent>, i: nat, om: Table, resting: map<Spot, SimOrder>, touched: set<u32>,
                    news: seq<SimEvent>, resting': map<Spot, SimOrder>)
    requires Books(h, q, om, resting, touched) && i < |q| && q[i].kind == PendingCancelE
    requires |news| == 1 && news[0].id == q[i].id && news[0].kind != SentE && Shrinks(resting, resting')
    ensures Books(h, Without(q, i) + news, om, resting', touched)
  {
    hide Ledgers, Without, ArriveOnce;
    TiedWithout(h, q, i, om, resting);
    RequestedIsTouched(h, q, i, om, touched);
    LedgersAfterDelivery(h, q, i, om, om, touched);
    LedgersAfterAppend(h, Without(q, i), news, om, touched);
    assert Tied(h, Without(q, i), om, resting');
    TiedAppend(h, Without(q, i), news, om, resting');
  }

  /** Reports scheduled for an order resting on the book. */
  lemma RestingKeeps(h: History, q: seq<SimEvent>, om: Table, resting: map<Spot, SimOrder>, touched: set<u32>,
                     s: Spot, news: seq<SimEvent>, resting': map<Spot, SimOrder>)
    requires Books(h, q, om, resting, touched) && s in resting && Shrinks(resting, resting')
    requires forall j :: 0 <= j < |news| ==> news[j].id == resting[s].id && news[j].kind != SentE
    ensures Books(h, q + news, om, resting', touched)
  {
    hide Ledgers, ArriveOnce;
    LedgersAfterAppend(h, q, news, om, touched);
    assert Tied(h, q, om, resting');
    TiedAppend(h, q, news, om, resting');
  }

  /** A delivered report leaves every account in balance. */
  lemma ReportKeeps(h: History, q: seq<SimEvent>, i: nat, om: Table, resting: map<Spot, SimOrder>, touched: set<u32>)
    requires Books(h, q, om, resting, touched) && i < |q| && IsTop(q, i) && q[i].kind in {AckE, FillE, CancelE, CancelRejectE}
    ensures Books(h, Without(q, i), Reported(om, q[i]), resting, touched)
  {
    hide Account, IsTop, Without, ArriveOnce;
    var e, om' := q[i], Reported(om, q[i]);
    OneChangedPut(om, e.id, om'.slots[e.id].value);
    if Left(om, touched, e.id) {
      if e.kind == CancelRejectE { RequestedIsTouched(h, q, i, om, touched); }
      AccountReport(h, q, i, om.slots[e.id].value);
    }
    TiedWithout(h, q, i, om, resting);
    TiedAfterChange(h, Without(q, i), om, resting, om', e.id);
    LedgersAfterDelivery(h, q, i, om, om', touched);
  }

  lemma ArrivalTied(h: History, q: seq<SimEvent>, i: nat, om: Table, resting: map<Spot, SimOrder>, m: Seen, news: seq<SimEvent>,
                    resting': map<Spot, SimOrder>)
    requires Tied(h, q, om, resting) && i < |q| && q[i].kind == SentE
    requires forall j :: 0 <= j < |news| ==> news[j].id == q[i].id && news[j].kind != SentE
    requires forall s :: s in resting' ==>
      (s in resting && resting'[s] == resting[s]) || (resting'[s].id == q[i].id && !Immediate(om.slots[q[i].id].value.terms))
    ensures Tied(ArrivedPast(h, q[i].id, m), Without(q, i) + news, om, resting')
  {
    hide ArriveOnce, Without;
    TiedWithout(h, q, i, om, resting);
    ArriveOnceWithout(h, q, i);
    assert Tied(ArrivedPast(h, q[i].id, m), Without(q, i), om, resting');
    TiedAppend(ArrivedPast(h, q[i].id, m), Without(q, i), news, om, resting');
  }

  lemma {:induction false} TopExists(q: seq<SimEvent>)
    requires q != []
    ensures exists i: nat :: i < |q| && IsTop(q, i)
  {
    if |q| == 1 {
      assert IsTop(q, 0);
    } else {
      var init, n := q[..|q| - 1], |q| - 1;
      TopExists(init);
      var i: nat :| i < |init| && IsTop(init, i);
      assert forall j :: 0 <= j < n ==> q[j] == init[j] && !Before(init[j], init[i]);
      if Before(q[n], q[i]) { assert IsTop(q, n); } else { assert IsTop(q, i); }
    }
  }

  lemma FewerNow(q: seq<SimEvent>, i: nat)
    requires i < |q|
    ensures CountAt(Without(q, i), q[i].ts) < CountAt(q, q[i].ts)
  {
    CountsWithout(q, i, q[i].id, q[i].kind, q[i].ts);
    CountsOne(q[i], q[i].id, q[i].kind, q[i].ts);
  }
}
