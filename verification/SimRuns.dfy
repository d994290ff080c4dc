/** Every step of the exchange simulator keeps the accounts and the order of time, and forgets nothing; so
    does every run, and what that means for the orders. */
module SimRuns {
  import opened Basics
  import opened Orders
  import opened OrderTable
  import opened SimEvents
  import opened SimExchange
  import opened SimBooks

  // ----- what a step leaves alone -----

  /** Everything known stays known, with the same value. */
  ghost predicate Keeps<T>(a: map<u32, T>, b: map<u32, T>) {
    forall id :: id in a ==> id in b && b[id] == a[id]
  }

  /** Orders stay in the table, with their terms, accepted or not. */
  ghost predicate OrdersKept(om: Table, om': Table) {
    forall id: u32 :: Holds(om, id) ==>
      && Holds(om', id) && om'.slots[id].value.terms == om.slots[id].value.terms
      && (om'.slots[id].value.state == LocallyRejected <==> om.slots[id].value.state == LocallyRejected)
  }

  /** One of the requests is to cancel the order. */
  ghost predicate AskedToCancel(rs: seq<Request>, id: u32) {
    exists j: nat :: j < |rs| && rs[j].CancelReq? && rs[j].id == id
  }

  /** The listeners asked to cancel the order on hearing of an event delivered after the first `from`. */
  ghost predicate CancelHeard(f: Listeners, delivered: seq<SimEvent>, from: nat, id: u32) {
    exists k: nat :: from < k <= |delivered| && AskedToCancel(f(delivered[..k]), id)
  }

  /** Nothing is forgotten: no delivery, no scheduled event, no order, nor when it was sent and what it
      met; only orders the listeners asked to cancel are touched, and arriving orders meet the market of
      `s`. */
  ghost predicate Onward(f: Listeners, s: Sim, s': Sim) {
    && s.ts <= s'.ts && s.delivered <= s'.delivered && s.scheduled <= s'.scheduled
    && Keeps(s.sentAt, s'.sentAt) && Keeps(s.arrived, s'.arrived) && OrdersKept(s.om, s'.om)
    && s.touched <= s'.touched && (forall id :: id in s'.touched ==> id in s.touched || CancelHeard(f, s'.delivered, |s.delivered|, id))
    && forall id :: id in s'.arrived && id !in s.arrived ==>
      Holds(s'.om, id) && s'.arrived[id].market == BestOf(s.market, s'.om.slots[id].value.terms.instrument)
  }

  lemma HeardLater(f: Listeners, delivered: seq<SimEvent>, delivered': seq<SimEvent>, from: nat, from': nat, id: u32)
    requires delivered <= delivered' && from' <= from && CancelHeard(f, delivered, from, id)
    ensures CancelHeard(f, delivered', from', id)
  {
    var k: nat :| from < k <= |delivered| && AskedToCancel(f(delivered[..k]), id);
    assert delivered'[..k] == delivered[..k];
  }

  lemma OnwardTrans(f: Listeners, a: Sim, b: Sim, c: Sim)
    requires Onward(f, a, b) && Onward(f, b, c) && b.market == a.market
    ensures Onward(f, a, c)
  {
    hide CancelHeard;
    forall id | id in c.touched && id !in a.touched ensures CancelHeard(f, c.delivered, |a.delivered|, id) {
      if id in b.touched {
        HeardLater(f, b.delivered, c.delivered, |a.delivered|, |a.delivered|, id);
      } else {
        HeardLater(f, c.delivered, c.delivered, |b.delivered|, |a.delivered|, id);
      }
    }
  }

  // ----- the steps keep it -----

  lemma QueueGood(c: Config, s: Sim, news: seq<SimEvent>)
    requires Books(Past(c, s), s.eventq + news, s.om, s.resting, s.touched) && Clock(s.ts, s.eventq, s.delivered, s.scheduled) && Later(news, s.ts)
    requires forall id :: id in s.touched ==> id <= s.om.localID
    ensures Good(c, Queue(s, news))
  {
    hide Books, Clock;
    ClockAppend(s.ts, s.eventq, s.delivered, s.scheduled, news);
  }

  /** The session accepts a send. */
  predicate Accepts(c: Config, s: Sim, terms: Terms) {
    s.ts != 0 && Supported(terms) && terms.instrument in c.symbols
  }

  lemma SendGood(c: Config, s: Sim, terms: Terms, checks: bool)
    requires Good(c, s) && s.om.localID < U32_MAX
    ensures Good(c, SendAsked(c, s, terms, checks))
  {
    hide Ledgers, Tied, Clock;
    var accepted := Accepts(c, s, terms);
    var o := Sending(s.om, Fresh(terms), checks, accepted);
    var news := if o.ok then [SimEvent(s.ts + c.ack, 0, SentE, o.table.localID, 0, 0.0)] else [];
    SendTied(Past(c, s), s.eventq, s.om, s.resting, terms, checks, accepted, news, s.ts);
    SendLedgers(Past(c, s), s.eventq, s.om, s.resting, s.touched, terms, checks, accepted, news, s.ts);
    QueueGood(c, s.(om := o.table, sentAt := s.sentAt[o.table.localID := s.ts]), news);
  }

  lemma TiedInRange(h: History, q: seq<SimEvent>, om: Table, resting: map<Spot, SimOrder>, id: u32)
    requires Tied(h, q, om, resting) && Holds(om, id)
    ensures id <= om.localID
  {
  }

  lemma CancelGood(c: Config, s: Sim, id: u32, newqty: u32)
    requires Good(c, s) && Holds(s.om, id)
    ensures Good(c, CancelAsked(c, s, id, newqty))
  {
    hide Ledgers, Tied, Clock;
    var t := s.om.slots[id].value.terms;
    var accepted := t.instrument in c.symbols && newqty < t.size;
    var o := Cancelling(s.om, id, newqty, accepted);
    var news := if o.ok then [SimEvent(s.ts + c.cxl, 0, PendingCancelE, id, newqty, 0.0)] else [];
    CancelKeeps(Past(c, s), s.eventq, s.om, s.resting, s.touched, id, newqty, accepted, news);
    TiedInRange(Past(c, s), s.eventq, s.om, s.resting, id);
    QueueGood(c, s.(om := o.table, touched := if o.ok then s.touched + {id} else s.touched), news);
  }

  /** What requests leave alone; they are made at `s.ts`, and touch only orders they name. */
  ghost predicate ByAsking(s: Sim, rs: seq<Request>, s': Sim) {
    && s' == s.(eventq := s'.eventq, om := s'.om, scheduled := s'.scheduled, touched := s'.touched, sentAt := s'.sentAt)
    && s.scheduled <= s'.scheduled && Keeps(s.sentAt, s'.sentAt) && OrdersKept(s.om, s'.om)
    && s.touched <= s'.touched && forall id :: id in s'.touched ==> id in s.touched || AskedToCancel(rs, id)
  }

  lemma SendByAsking(c: Config, s: Sim, terms: Terms, checks: bool)
    requires Good(c, s) && s.om.localID < U32_MAX
    ensures ByAsking(s, [SendReq(terms, checks)], SendAsked(c, s, terms, checks))
  {
    hide Ledgers, ArriveOnce, Clock;
  }

  lemma CancelByAsking(c: Config, s: Sim, id: u32, newqty: u32)
    requires Holds(s.om, id)
    ensures ByAsking(s, [CancelReq(id, newqty)], CancelAsked(c, s, id, newqty))
  {
    assert [CancelReq(id, newqty)][0].id == id;
  }

  lemma ByAskingNothing(s: Sim, rs: seq<Request>)
    ensures ByAsking(s, rs, s)
  {
  }

  lemma AskedGood(c: Config, s: Sim, r: Request)
    requires Good(c, s)
    ensures Good(c, Asked(c, s, r)) && ByAsking(s, [r], Asked(c, s, r))
  {
    hide Good, ByAsking, SendAsked, CancelAsked;
    match r {
      case SendReq(terms, checks) =>
        if s.om.localID < U32_MAX {
          SendGood(c, s, terms, checks);
          SendByAsking(c, s, terms, checks);
        } else {
          ByAskingNothing(s, [r]);
        }
      case CancelReq(id, newqty) =>
        if Holds(s.om, id) {
          CancelGood(c, s, id, newqty);
          CancelByAsking(c, s, id, newqty);
        } else {
          ByAskingNothing(s, [r]);
        }
    }
  }

  lemma ByAskingTrans(a: Sim, rs: seq<Request>, b: Sim, r: Request, d: Sim)
    requires ByAsking(a, rs, b) && ByAsking(b, [r], d)
    ensures ByAsking(a, rs + [r], d)
  {
    forall id | id in d.touched && id !in a.touched ensures AskedToCancel(rs + [r], id) {
      if id in b.touched {
        var j: nat :| j < |rs| && rs[j].CancelReq? && rs[j].id == id;
        assert (rs + [r])[j] == rs[j];
      } else {
        assert (rs + [r])[|rs|] == r;
      }
    }
  }

  lemma {:induction false} AskedAllGood(c: Config, s: Sim, rs: seq<Request>)
    requires Good(c, s)
    ensures Good(c, AskedAll(c, s, rs)) && ByAsking(s, rs, AskedAll(c, s, rs))
  {
    hide Good, ByAsking, Asked;
    if rs == [] {
      ByAskingNothing(s, rs);
    } else {
      var init, last := rs[..|rs| - 1], rs[|rs| - 1];
      AskedAllGood(c, s, init);
      AskedGood(c, AskedAll(c, s, init), last);
      ByAskingTrans(s, init, AskedAll(c, s, init), last, AskedAll(c, s, rs));
      assert init + [last] == rs;
    }
  }

  lemma AskingMovesNone(c: Config, s: Sim, r: Request, id: u32)
    requires Sound(s.om) && Holds(s.om, id)
    ensures var om := Asked(c, s, r).om;
      Sound(om) && Holds(om, id) && om.slots[id].value.open == s.om.slots[id].value.open
  {
    hide Supported;
  }

  /** Requests move no shares. */
  lemma {:induction false} AskingMovesNoShares(c: Config, s: Sim, rs: seq<Request>, id: u32)
    requires Sound(s.om) && Holds(s.om, id)
    ensures var om := AskedAll(c, s, rs).om;
      Sound(om) && Holds(om, id) && om.slots[id].value.open == s.om.slots[id].value.open
  {
    hide Asked, Sound;
    if rs != [] {
      AskingMovesNoShares(c, s, rs[..|rs| - 1], id);
      AskingMovesNone(c, AskedAll(c, s, rs[..|rs| - 1]), rs[|rs| - 1], id);
    }
  }

  lemma QueueGrows(s: Sim, t: Sim, news: seq<SimEvent>)
    requires t.eventq == s.eventq && t.ts == s.ts && forall j :: 0 <= j < |news| ==> news[j].ts > s.ts
    ensures var s' := Queue(t, news); s'.ts == s.ts && Grows(s.eventq, s'.eventq, s.ts)
  {
    NewsGrow(s.eventq, news, s.ts);
  }

  lemma AskedGrows(c: Config, s: Sim, r: Request)
    requires 0 < c.ack && 0 < c.cxl
    ensures var s' := Asked(c, s, r); s'.ts == s.ts && Grows(s.eventq, s'.eventq, s.ts)
  {
    hide Sending, Cancelling, Grows, Queue;
    match r {
      case SendReq(terms, checks) =>
        if s.om.localID < U32_MAX {
          var o := Sending(s.om, Fresh(terms), checks, s.ts != 0 && Supported(terms) && terms.instrument in c.symbols);
          QueueGrows(s, s.(om := o.table, sentAt := s.sentAt[o.table.localID := s.ts]),
                     if o.ok then [SimEvent(s.ts + c.ack, 0, SentE, o.table.localID, 0, 0.0)] else []);
        } else {
          NewsGrow(s.eventq, [], s.ts);
          assert s.eventq + [] == s.eventq;
        }
      case CancelReq(id, newqty) =>
        if Holds(s.om, id) {
          var t := s.om.slots[id].value.terms;
          var o := Cancelling(s.om, id, newqty, t.instrument in c.symbols && newqty < t.size);
          QueueGrows(s, s.(om := o.table, touched := if o.ok then s.touched + {id} else s.touched),
                     if o.ok then [SimEvent(s.ts + c.cxl, 0, PendingCancelE, id, newqty, 0.0)] else []);
        } else {
          NewsGrow(s.eventq, [], s.ts);
          assert s.eventq + [] == s.eventq;
        }
    }
  }

  /** With latencies above zero, what is asked for happens later. */
  lemma {:induction false} AskedAllGrows(c: Config, s: Sim, rs: seq<Request>)
    requires 0 < c.ack && 0 < c.cxl
    ensures var s' := AskedAll(c, s, rs); s'.ts == s.ts && Grows(s.eventq, s'.eventq, s.ts)
  {
    hide Asked;
    if rs != [] {
      var mid := AskedAll(c, s, rs[..|rs| - 1]);
      AskedAllGrows(c, s, rs[..|rs| - 1]);
      AskedGrows(c, mid, rs[|rs| - 1]);
      GrowsTrans(s.eventq, mid.eventq, AskedAll(c, s, rs).eventq, s.ts);
    }
  }

  // ----- servicing an event -----

  /** The state once entry `i`, a report, was popped and applied to its order. */
  function Applied(s: Sim, i: nat): (r: Sim)
    requires i < |s.eventq| && Holds(s.om, s.eventq[i].id)
  {
    Popped(s, i).(om := Reported(s.om, s.eventq[i]))
  }

  predicate IsReport(k: Kind) {
    k in {AckE, FillE, CancelE, CancelRejectE}
  }

  lemma AppliedGood(c: Config, s: Sim, i: nat)
    requires Good(c, s) && i < |s.eventq| && IsTop(s.eventq, i) && IsReport(s.eventq[i].kind)
    ensures Holds(s.om, s.eventq[i].id) && Good(c, Applied(s, i)) && OrdersKept(s.om, Reported(s.om, s.eventq[i]))
  {
    hide Ledgers, ArriveOnce, IsTop, Without, Clock;
    ReportKeeps(Past(c, s), s.eventq, i, s.om, s.resting, s.touched);
    ClockPop(s.ts, s.eventq, i, s.delivered, s.scheduled);
  }

  lemma OrdersKeptTrans(a: Table, b: Table, c: Table)
    requires OrdersKept(a, b) && OrdersKept(b, c)
    ensures OrdersKept(a, c)
  {
  }

  lemma HeardNow(f: Listeners, s: Sim, mid: Sim, s': Sim, rs: seq<Request>)
    requires ByAsking(mid, rs, s') && mid.touched == s.touched && |mid.delivered| == |s.delivered| + 1 && rs == f(mid.delivered)
    ensures forall id :: id in s'.touched ==> id in s.touched || CancelHeard(f, s'.delivered, |s.delivered|, id)
  {
    hide OrdersKept, AskedToCancel;
    assert s'.delivered[..|s'.delivered|] == mid.delivered;
  }

  /** A delivered report, and what the listeners then ask for. */
  lemma ToldGood(c: Config, f: Listeners, s: Sim, i: nat)
    requires Good(c, s) && i < |s.eventq| && IsTop(s.eventq, i) && IsReport(s.eventq[i].kind)
    ensures Holds(s.om, s.eventq[i].id)
    ensures var s' := Told(c, f, Popped(s, i), s.eventq[i]); Good(c, s') && Onward(f, s, s')
  {
    hide Books, Clock, IsTop, Without, Reported, AskedAll, AskedToCancel, OrdersKept;
    AppliedGood(c, s, i);
    var rs := f(Applied(s, i).delivered);
    AskedAllGood(c, Applied(s, i), rs);
    OrdersKeptTrans(s.om, Applied(s, i).om, AskedAll(c, Applied(s, i), rs).om);
    HeardNow(f, s, Applied(s, i), AskedAll(c, Applied(s, i), rs), rs);
    ClockPop(s.ts, s.eventq, i, s.delivered, s.scheduled);
  }

  lemma TiedHolds(h: History, q: seq<SimEvent>, om: Table, resting: map<Spot, SimOrder>, i: nat)
    requires Tied(h, q, om, resting) && i < |q|
    ensures Sound(om) && Holds(om, q[i].id) && (q[i].kind == SentE ==> q[i].id !in h.arrived)
  {
  }

  lemma ArrivedKeeps(c: Config, s: Sim, i: nat)
    requires Good(c, s) && i < |s.eventq| && IsTop(s.eventq, i) && s.eventq[i].kind == SentE
    ensures Holds(s.om, s.eventq[i].id) && Good(c, Arrived(c, Popped(s, i), s.eventq[i]))
  {
    hide Ledgers, Tied, Clock, IsTop, Without, ArrivalOf;
    var e, p := s.eventq[i], Popped(s, i);
    TiedHolds(Past(c, s), s.eventq, s.om, s.resting, i);
    var t, m := s.om.slots[e.id].value.terms, Meets(p, e.id);
    var ahead := AuctionAhead(t, PhaseOf(s.phases, t.instrument));
    var a := ArrivalAt(c, p, e.id);
    ArrivalNews(t, e.id, e.ts, c.ack, c.cxl, m.market, m.occupied, ahead);
    ArrivalKeeps(Past(c, s), s.eventq, i, s.om, s.touched, m, ahead);
    ArrivalTied(Past(c, s), s.eventq, i, s.om, s.resting, m, a.news, Rests(s.resting, a.spot, e.id, a.left));
    ClockPop(s.ts, s.eventq, i, s.delivered, s.scheduled);
    QueueGood(c, p.(registered := p.registered + {e.id}, resting := Rests(p.resting, a.spot, e.id, a.left), arrived := p.arrived[e.id := m]), a.news);
  }

  /** An order arriving at the exchange. */
  lemma ArrivedGood(c: Config, f: Listeners, s: Sim, i: nat)
    requires Good(c, s) && i < |s.eventq| && IsTop(s.eventq, i) && s.eventq[i].kind == SentE
    ensures Holds(s.om, s.eventq[i].id)
    ensures var s' := Arrived(c, Popped(s, i), s.eventq[i]); Good(c, s') && Onward(f, s, s')
  {
    hide Ledgers, Tied, Clock, IsTop, Without, ArrivalAt, Rests;
    ArrivedKeeps(c, s, i);
    TiedHolds(Past(c, s), s.eventq, s.om, s.resting, i);
    ClockPop(s.ts, s.eventq, i, s.delivered, s.scheduled);
  }

  /** A cancel request answered by the exchange. */
  lemma AnsweredGood(c: Config, f: Listeners, s: Sim, i: nat, stale: u32)
    requires Good(c, s) && i < |s.eventq| && IsTop(s.eventq, i) && s.eventq[i].kind == PendingCancelE
    ensures Holds(s.om, s.eventq[i].id)
    ensures var s' := Answered(c, Popped(s, i), s.eventq[i], stale); Good(c, s') && Onward(f, s, s')
  {
    hide Ledgers, Tied, Clock, IsTop, Without, CancelAnswer;
    var e, p := s.eventq[i], Popped(s, i);
    TiedHolds(Past(c, s), s.eventq, s.om, s.resting, i);
    var a := CancelAnswer(e.id in s.registered, s.om.slots[e.id].value, e, c.cxl, s.resting, stale);
    AnswerIsOwn(e.id in s.registered, s.om.slots[e.id].value, e, c.cxl, s.resting, stale);
    AnswerKeeps(Past(c, s), s.eventq, i, s.om, s.resting, s.touched, [a.news], a.resting);
    ClockPop(s.ts, s.eventq, i, s.delivered, s.scheduled);
    QueueGood(c, p.(resting := a.resting), [a.news]);
  }

  /** Every handler keeps the accounts and the clock, and forgets nothing. */
  lemma HandledGood(c: Config, f: Listeners, s: Sim, i: nat, stale: u32)
    requires Good(c, s) && i < |s.eventq| && IsTop(s.eventq, i)
    ensures Holds(s.om, s.eventq[i].id)
    ensures var s' := Handled(c, f, Popped(s, i), s.eventq[i], stale); Good(c, s') && Onward(f, s, s')
  {
    hide Good, Onward, IsTop, Popped, Told, Arrived, Answered;
    match s.eventq[i].kind {
      case SentE => ArrivedGood(c, f, s, i);
      case PendingCancelE => AnsweredGood(c, f, s, i, stale);
      case _ => ToldGood(c, f, s, i);
    }
  }

  /** With latencies above zero a handler schedules for later than the event it handles. */
  lemma HandledGrows(c: Config, f: Listeners, s: Sim, e: SimEvent, stale: u32)
    requires Holds(s.om, e.id) && e.ts == s.ts && 0 < c.ack && 0 < c.cxl
    ensures var s' := Handled(c, f, s, e, stale); s'.ts == s.ts && Grows(s.eventq, s'.eventq, s.ts)
  {
    hide ArrivalOf, CancelAnswer, Grows, Reported, AskedAll;
    match e.kind {
      case SentE =>
        var t, m := s.om.slots[e.id].value.terms, Meets(s, e.id);
        ArrivalNews(t, e.id, s.ts, c.ack, c.cxl, m.market, m.occupied, AuctionAhead(t, PhaseOf(s.phases, t.instrument)));
        NewsGrow(s.eventq, ArrivalAt(c, s, e.id).news, s.ts);
      case PendingCancelE =>
        var o := s.om.slots[e.id].value;
        AnswerIsOwn(e.id in s.registered, o, e, c.cxl, s.resting, stale);
        NewsGrow(s.eventq, [CancelAnswer(e.id in s.registered, o, e, c.cxl, s.resting, stale).news], s.ts);
      case _ => AskedAllGrows(c, s.(om := Reported(s.om, e)), f(s.delivered));
    }
  }

  /** Requests and handlers leave deliveries, market and phases alone and only add to the queue. */
  ghost predicate OnlyAdds(s: Sim, s': Sim) {
    s'.ts == s.ts && s'.delivered == s.delivered && s'.market == s.market && s'.phases == s.phases && s.eventq <= s'.eventq
  }

  lemma {:induction false} AskedAllOnlyAdds(c: Config, s: Sim, rs: seq<Request>)
    ensures OnlyAdds(s, AskedAll(c, s, rs))
  {
    hide Sending, Cancelling;
    if rs != [] { AskedAllOnlyAdds(c, s, rs[..|rs| - 1]); }
  }

  lemma ToldOnlyAdds(c: Config, f: Listeners, s: Sim, e: SimEvent)
    requires Holds(s.om, e.id)
    ensures OnlyAdds(s, Told(c, f, s, e))
  {
    hide Reported, AskedAll, Forgets;
    AskedAllOnlyAdds(c, s.(om := Reported(s.om, e)), f(s.delivered));
  }

  lemma HandledOnlyAdds(c: Config, f: Listeners, s: Sim, e: SimEvent, stale: u32)
    requires Holds(s.om, e.id)
    ensures OnlyAdds(s, Handled(c, f, s, e, stale))
  {
    hide ArrivalAt, CancelAnswer, Told;
    if IsReport(e.kind) { ToldOnlyAdds(c, f, s, e); }
  }

  /** Entry `i` was delivered and the others stayed. */
  ghost predicate Delivered(s: Sim, i: nat, s': Sim) {
    && i < |s.eventq| && IsTop(s.eventq, i)
    && s'.ts == s.eventq[i].ts && s'.delivered == s.delivered + [s.eventq[i]] && Without(s.eventq, i) <= s'.eventq
  }

  /** One round of the service loop keeps the accounts and the clock, delivers one event, and with
      latencies above zero leaves fewer events at its time. */
  lemma ServicedGood(c: Config, f: Listeners, s: Sim, s': Sim)
    requires Good(c, s) && Serviced(c, f, s, s')
    ensures Good(c, s') && Onward(f, s, s') && s'.market == s.market && s'.phases == s.phases
    ensures exists i: nat :: Delivered(s, i, s')
    ensures 0 < c.ack && 0 < c.cxl && s'.ts == s.ts ==> CountAt(s'.eventq, s'.ts) < CountAt(s.eventq, s.ts)
  {
    hide Good, Onward, IsTop, Without, Handled, CountAt, Grows;
    var i: nat, stale: u32 :| i < |s.eventq| && IsTop(s.eventq, i) && Holds(s.om, s.eventq[i].id)
      && s' == Handled(c, f, Popped(s, i), s.eventq[i], stale);
    HandledGood(c, f, s, i, stale);
    HandledOnlyAdds(c, f, Popped(s, i), s.eventq[i], stale);
    assert Delivered(s, i, s');
    if 0 < c.ack && 0 < c.cxl {
      HandledGrows(c, f, Popped(s, i), s.eventq[i], stale);
      GrowsCountAt(Without(s.eventq, i), s'.eventq, s'.ts);
      FewerNow(s.eventq, i);
    }
  }

  lemma OnwardStays(f: Listeners, s: Sim)
    ensures Onward(f, s, s)
  {
  }

  /** The deliveries after the first `from` were made between the two times. */
  ghost predicate DeliveredWithin(delivered: seq<SimEvent>, from: nat, after: int, before: int) {
    forall k :: from <= k < |delivered| ==> after <= delivered[k].ts < before
  }

  /** What is due before the limit is delivered before the limit. */
  lemma DueFirst(c: Config, s: Sim, limit: int, s': Sim, i: nat)
    requires Good(c, s) && SomeDue(s.eventq, limit) && Delivered(s, i, s')
    ensures s.ts <= s'.ts < limit
  {
    hide Without, Books;
  }

  lemma {:induction false} ReachedGood(c: Config, f: Listeners, s: Sim, limit: int, s': Sim, n: nat)
    requires Good(c, s) && Reached(c, f, s, limit, s', n)
    ensures Good(c, s') && Onward(f, s, s') && s'.market == s.market && s'.phases == s.phases
    ensures |s'.delivered| == |s.delivered| + n && DeliveredWithin(s'.delivered, |s.delivered|, s.ts, limit)
    ensures s'.ts == s.ts || s'.ts < limit
    decreases n
  {
    hide Good, Serviced, CountAt, SomeDue, IsTop, Without, Keeps, OrdersKept, CancelHeard;
    if n == 0 {
      OnwardStays(f, s);
    } else {
      var mid: Sim :| Reached(c, f, s, limit, mid, n - 1) && SomeDue(mid.eventq, limit) && Serviced(c, f, mid, s');
      ReachedGood(c, f, s, limit, mid, n - 1);
      ServicedGood(c, f, mid, s');
      OnwardTrans(f, s, mid, s');
      var i: nat :| Delivered(mid, i, s');
      DueFirst(c, mid, limit, s', i);
    }
  }

  lemma ForwardGood(c: Config, f: Listeners, s: Sim, t: Sim, now: int)
    requires Good(c, t) && Onward(f, s, t) && t.ts <= now && !SomeDue(t.eventq, now)
    ensures Good(c, t.(ts := now)) && Onward(f, s, t.(ts := now))
  {
    hide Books, CancelHeard, Keeps, OrdersKept;
    ClockForward(t.ts, now, t.eventq, t.delivered, t.scheduled);
  }

  /** The loop leaves nothing due: every event queued before with an earlier time was delivered. */
  lemma DueAreDelivered(c: Config, f: Listeners, s: Sim, s': Sim)
    requires Good(c, s) && Good(c, s') && Onward(f, s, s')
    ensures forall e :: e in s.eventq && e.ts < s'.ts ==>
      multiset(s'.delivered[|s.delivered|..])[e] >= multiset(s.eventq)[e] && e in s'.delivered[|s.delivered|..]
  {
    hide Books, CancelHeard, Keeps, OrdersKept, Sorted;
    var news := s'.delivered[|s.delivered|..];
    assert s'.delivered == s.delivered + news;
    forall e | e in s.eventq && e.ts < s'.ts ensures multiset(news)[e] >= multiset(s.eventq)[e] && e in news {
      assert multiset(s.eventq)[e] > 0;
      assert e !in s'.eventq;
      assert s.scheduled[e] <= s'.scheduled[e];
      assert e in multiset(news);
    }
  }

  /** The whole loop up to `now`, whichever order ties are broken in and whatever erased memory holds. */
  lemma RanGood(c: Config, f: Listeners, s: Sim, now: int, s': Sim, n: nat)
    requires Good(c, s) && s.ts <= now && Ran(c, f, s, now, s', n)
    ensures Good(c, s') && Onward(f, s, s') && s'.ts == now && s'.market == s.market && s'.phases == s.phases
    ensures !SomeDue(s'.eventq, now)
    ensures |s'.delivered| == |s.delivered| + n && DeliveredWithin(s'.delivered, |s.delivered|, s.ts, now)
    ensures forall e :: e in s.eventq && e.ts < now ==> e in s'.delivered[|s.delivered|..]
  {
    hide Good, Onward, SomeDue, DeliveredWithin, Reached;
    var t: Sim :| Reached(c, f, s, now, t, n) && !SomeDue(t.eventq, now) && s' == t.(ts := now);
    ReachedGood(c, f, s, now, t, n);
    ForwardGood(c, f, s, t, now);
    DueAreDelivered(c, f, s, s');
  }

  // ----- what it means for orders -----

  /** An immediate order the exchange accepted, none of whose owner's cancel requests was, has all its
      shares filled or cancelled once none of its events are queued. It is closed if and only if cancels
      are not faster than acknowledgements or it did not trade in part on arrival; otherwise the shares
      that did not trade stay open although they were cancelled. */
  lemma SettledOrderClosesIff(c: Config, s: Sim, id: u32)
    requires Good(c, s) && Left(s.om, s.touched, id) && Settled(s.eventq, id)
    ensures id in s.arrived
    ensures var o := s.om.slots[id].value;
      && o.filled + o.cancelled == o.terms.size
      && (Closed(o) <==> c.ack <= c.cxl || !PartlyCrosses(o.terms, s.arrived[id].market, s.arrived[id].occupied))
      && (!Closed(o) ==> o.open == o.cancelled > 0)
  {
    hide Balanced, PartlyCrosses;
    var o := s.om.slots[id].value;
    SettledClosedIff(IsLate(Past(c, s), o), s.eventq, o);
  }

  /** None of its events are queued once the clock is past the deadline. */
  lemma OrderSettlesByDeadline(c: Config, s: Sim, id: u32)
    requires Good(c, s) && Left(s.om, s.touched, id)
    ensures id in s.sentAt && (s.ts > Deadline(c, s.sentAt[id]) ==> Settled(s.eventq, id))
  {
    hide Balanced, PartlyCrosses;
  }

  /** What the session supports, word by word. */
  lemma AcceptsIs(c: Config, s: Sim, terms: Terms)
    ensures Accepts(c, s, terms) <==> s.ts != 0 && Supported(terms) && terms.instrument in c.symbols
    ensures Supported(terms) <==>
      && terms.kind in {OrderType.Market, Limit}
      && terms.tif !in {UnknownTif, Gtc, AuctionHalt, Timed, FillOrKill}
  {
    assert terms.tif.UnknownTif? || terms.tif.Day? || terms.tif.Ext? || terms.tif.Gtc? || terms.tif.AuctionOpen? || terms.tif.AuctionClose?
      || terms.tif.AuctionHalt? || terms.tif.Timed? || terms.tif.ImmediateOrCancel? || terms.tif.FillOrKill?;
  }

  /** A send that passed the manager's own checks: accepted, its order is live and arrives one acknowledgement
      latency later; refused by the session, it is locally rejected and nothing is scheduled. */
  lemma SentOrder(c: Config, s: Sim, terms: Terms, checks: bool)
    requires Good(c, s) && s.om.localID < U32_MAX && checks && BaseValid(Fresh(terms))
    ensures var s', id := SendAsked(c, s, terms, checks), s.om.localID + 1;
      && Holds(s'.om, id) && s'.om.slots[id].value.terms == terms
      && (s'.om.slots[id].value.state == LocallyRejected <==> !Accepts(c, s, terms))
      && s'.eventq == s.eventq + (if Accepts(c, s, terms) then [SimEvent(s.ts + c.ack, 0, SentE, id, 0, 0.0)] else [])
      && id !in s'.touched && id !in s'.arrived && id in s'.sentAt && s'.sentAt[id] == s.ts
  {
    hide Ledgers, ArriveOnce, Clock, Accepts;
    assert Accepts(c, s, terms) == (s.ts != 0 && Supported(terms) && terms.instrument in c.symbols) by { AcceptsIs(c, s, terms); }
  }

  /** In state `s` an immediate order was sent and accepted; then the clock was moved to `now`, past the
      order's deadline, and nobody asked to cancel it. */
  ghost predicate SentAndRan(c: Config, f: Listeners, s: Sim, terms: Terms, checks: bool, now: int, s': Sim, n: nat) {
    && s.om.localID < U32_MAX && Accepts(c, s, terms) && checks && BaseValid(Fresh(terms)) && Immediate(terms)
    && now > Deadline(c, s.ts) && Ran(c, f, SendAsked(c, s, terms, checks), now, s', n)
    && forall k :: |s.delivered| < k <= |s'.delivered| ==> !AskedToCancel(f(s'.delivered[..k]), s.om.localID + 1)
  }

  /** From the send to the end: everything about the order was delivered, its shares are all filled or
      cancelled, and it is closed exactly in the cases above, seen against the market it was sent into. */
  lemma SentOrderClosesIff(c: Config, f: Listeners, s: Sim, terms: Terms, checks: bool, now: int, s': Sim, n: nat, id: u32)
    requires Good(c, s) && SentAndRan(c, f, s, terms, checks, now, s', n) && id == s.om.localID + 1
    ensures Holds(s'.om, id) && Settled(s'.eventq, id) && id in s'.arrived
    ensures var o := s'.om.slots[id].value;
      && o.terms == terms && o.filled + o.cancelled == terms.size
      && (Closed(o) <==> c.ack <= c.cxl || !PartlyCrosses(terms, BestOf(s.market, terms.instrument), s'.arrived[id].occupied))
      && (!Closed(o) ==> o.open == o.cancelled > 0)
  {
    hide Good, SomeDue, PartlyCrosses, Settled, AskedToCancel, Ran, Closed, Immediate;
    var mid := SendAsked(c, s, terms, checks);
    SendGood(c, s, terms, checks);
    SentOrder(c, s, terms, checks);
    RanGood(c, f, mid, now, s', n);
    OrderSettlesByDeadline(c, s', id);
    SettledOrderClosesIff(c, s', id);
  }

  /** Time order and completeness, in every state. */
  lemma InOrder(c: Config, s: Sim)
    requires Good(c, s)
    ensures Sorted(s.delivered)
    ensures forall e: SimEvent :: e.ts < s.ts ==> s.scheduled[e] == multiset(s.delivered)[e]
    ensures forall i, j :: 0 <= i < |s.delivered| && 0 <= j < |s.eventq| ==> s.delivered[i].ts <= s.eventq[j].ts
  {
    hide Books;
  }

  // ----- a trade -----

  lemma RestingIsHeld(h: History, q: seq<SimEvent>, om: Table, resting: map<Spot, SimOrder>, touched: set<u32>, s: Spot)
    requires Books(h, q, om, resting, touched) && s in resting
    ensures Holds(om, resting[s].id)
  {
    hide Ledgers, ArriveOnce;
  }

  lemma CrossOneIsOwn(o: OrderV, resting: map<Spot, SimOrder>, s: Spot, avail: u32, price: real, at: int, matched: bool, front: bool,
                      cxlRemainder: bool)
    requires s in resting
    ensures var x := CrossOne(o, resting[s], avail, price, at, matched, front, cxlRemainder);
      && Shrinks(resting, Crossed(resting, s, matched, x.1))
      && forall j :: 0 <= j < |x.0| ==> x.0[j].id == resting[s].id && x.0[j].kind != SentE && x.0[j].ts == at
  {
  }

  lemma CrossedGood(c: Config, s: Sim, spot: Spot, avail: u32, price: real, at: int, matched: bool, front: bool, cxlRemainder: bool)
    requires Good(c, s) && spot in s.resting && s.ts <= at
    ensures Holds(s.om, s.resting[spot].id) && Good(c, CrossedAt(c, s, spot, avail, price, at, matched, front, cxlRemainder))
  {
    hide Books, Clock, CrossOne, Crossed;
    RestingIsHeld(Past(c, s), s.eventq, s.om, s.resting, s.touched, spot);
    var so := s.resting[spot];
    CrossOneIsOwn(s.om.slots[so.id].value, s.resting, spot, avail, price, at + c.ack, matched, front, cxlRemainder);
    var x := CrossOne(s.om.slots[so.id].value, so, avail, price, at + c.ack, matched, front, cxlRemainder);
    RestingKeeps(Past(c, s), s.eventq, s.om, s.resting, s.touched, spot, x.0, Crossed(s.resting, spot, matched, x.1));
    QueueGood(c, s.(resting := Crossed(s.resting, spot, matched, x.1)), x.0);
  }

  lemma HeldAndSound(c: Config, s: Sim, i: nat)
    requires Good(c, s) && i < |s.eventq|
    ensures Sound(s.om) && Holds(s.om, s.eventq[i].id)
  {
    hide Ledgers, ArriveOnce, Clock;
  }
}
