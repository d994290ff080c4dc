/** The exchange simulator in a closed loop with the order manager and a strategy:
    `src/oe/L2SimSession.cpp`. Each method is proved against its step in `SimBooks`. */
module L2Sim {
  import opened Basics
  import opened Orders
  import opened OrderTable
  import opened SimEvents
  import opened SimExchange
  import opened SimBooks
  import opened SimRuns
  import opened SimCrossing

  class L2SimSession {
    const config: Config
    const strategy: Listeners                        // what the listeners ask for
    var ts: int                                      // m_ts; 0 is "no time yet"
    var eventq: seq<SimEvent>                        // m_eventq
    var registered: set<u32>                         // the keys of m_orders
    var resting: map<Spot, SimOrder>
    var market: map<nat, Market>                     // instruments with a book
    var phases: map<nat, Phase>
    var om: Table                                    // the order manager
    var delivered: seq<SimEvent>                     // the events serviced so far, in order
    ghost var scheduled: multiset<SimEvent>          // every event ever put in the queue
    ghost var touched: set<u32>                      // orders whose owner's cancel request was accepted
    ghost var sentAt: map<u32, int>                  // when each order was sent
    ghost var arrived: map<u32, Seen>                // what each order met on arrival

    /** The state as a value. */
    ghost function View(): (r: Sim)
      reads this
    {
      Sim(ts, eventq, registered, resting, market, phases, om, delivered, scheduled, touched, sentAt, arrived)
    }

    ghost predicate Valid()
      reads this
    {
      Good(config, View())
    }

    /** Nothing asked for now happens now. */
    predicate Patient() {
      0 < config.ack && 0 < config.cxl
    }

    constructor (config: Config, strategy: Listeners)
      ensures Valid() && View() == Sim(0, [], {}, map[], map[], map[], EMPTY, [], multiset{}, {}, map[], map[])
      ensures this.config == config && this.strategy == strategy
    {
      this.config, this.strategy := config, strategy;
      ts, eventq, delivered, om := 0, [], [], EMPTY;
      registered, resting, market, phases := {}, map[], map[], map[];
      scheduled, touched, sentAt, arrived := multiset{}, {}, map[], map[];
    }

    /** Put events in the queue. */
    method Schedule(news: seq<SimEvent>)
      modifies this`eventq, this`scheduled
      ensures View() == Queue(old(View()), news)
    {
      eventq := eventq + news;
      scheduled := scheduled + multiset(news);
    }

    // ----- requests -----

    /** The order manager's new table, and the event of a request if the session took it. */
    method Commit(om': Table, e: SimEvent, ok: bool)
      modifies this`eventq, this`om, this`scheduled
      ensures View() == Queue(old(View()).(om := om'), if ok then [e] else [])
    {
      om := om';
      Schedule(if ok then [e] else []);
    }

    method Send(terms: Terms, checks: bool)
      requires om.localID < U32_MAX
      modifies this`eventq, this`om, this`scheduled, this`sentAt
      ensures View() == SendAsked(config, old(View()), terms, checks)
      ensures old(Valid()) ==> Valid()
    {
      hide Books, Clock, Sending;
      if Valid() { SendGood(config, View(), terms, checks); }
      var s := Sending(om, Fresh(terms), checks, ts != 0 && Supported(terms) && terms.instrument in config.symbols);
      sentAt := sentAt[s.table.localID := ts];
      Commit(s.table, SimEvent(ts + config.ack, 0, SentE, s.table.localID, 0, 0.0), s.ok);
    }

    method Cancel(id: u32, newqty: u32)
      requires Holds(om, id)
      modifies this`eventq, this`om, this`scheduled, this`touched
      ensures View() == CancelAsked(config, old(View()), id, newqty)
      ensures old(Valid()) ==> Valid()
    {
      hide Books, Clock, Cancelling;
      if Valid() { CancelGood(config, View(), id, newqty); }
      var t := om.slots[id].value.terms;
      var s := Cancelling(om, id, newqty, t.instrument in config.symbols && newqty < t.size);
      if s.ok { touched := touched + {id}; }
      Commit(s.table, SimEvent(ts + config.cxl, 0, PendingCancelE, id, newqty, 0.0), s.ok);
    }

    /** The listeners' requests during a callback, in order. */
    method Notify()
      modifies this`eventq, this`om, this`scheduled, this`touched, this`sentAt
      ensures View() == AskedAll(config, old(View()), strategy(old(delivered)))
    {
      hide SendAsked, CancelAsked, Good;
      var requests := strategy(delivered);
      for i := 0 to |requests|
        invariant View() == AskedAll(config, old(View()), requests[..i])
      {
        assert requests[..i + 1][..i] == requests[..i];
        match requests[i] {
          case SendReq(terms, checks) => if om.localID < U32_MAX { Send(terms, checks); }
          case CancelReq(id, newqty) => if Holds(om, id) { Cancel(id, newqty); }
        }
      }
      assert requests[..|requests|] == requests;
    }

    // ----- the handlers -----

    method OnOrderAcknowledged(e: SimEvent)
      requires Holds(om, e.id) && e.kind == AckE
      modifies this`eventq, this`om, this`scheduled, this`touched, this`sentAt
      ensures View() == Told(config, strategy, old(View()), e)
    {
      hide AskedAll;
      var o := om.slots[e.id].value;
      om := Put(om, e.id, Some(OnAck(o, o.terms.size, e.ts, SinceMidnight(e.ts))));
      Notify();
    }

    /** A fill; an order with nothing open is forgotten. */
    method OnOrderFilled(e: SimEvent)
      requires Holds(om, e.id) && e.kind == FillE && Sound(om)
      modifies this`eventq, this`om, this`scheduled, this`touched, this`sentAt, this`registered
      ensures View() == Told(config, strategy, old(View()), e)
    {
      hide AskedAll;
      var o := om.slots[e.id].value;
      om := Put(om, e.id, Some(OnFill(o, e.size, e.price, e.ts, SinceMidnight(e.ts), 0)));
      AskingMovesNoShares(config, View(), strategy(delivered), e.id);
      Notify();
      if om.slots[e.id].value.open == 0 {
        registered := registered - {e.id};
      }
    }

    /** A cancel; an order cancelled in full is forgotten. */
    method OnOrderCancelled(e: SimEvent)
      requires Holds(om, e.id) && e.kind == CancelE
      modifies this`eventq, this`om, this`scheduled, this`touched, this`sentAt, this`registered
      ensures View() == Told(config, strategy, old(View()), e)
    {
      hide AskedAll;
      var o := om.slots[e.id].value;
      om := Put(om, e.id, Some(OnCancel(o, e.size, e.ts, SinceMidnight(e.ts))));
      Notify();
      if Sub32(o.terms.size, e.size) == 0 {
        registered := registered - {e.id};
      }
    }

    method OnOrderCancelRejected(e: SimEvent)
      requires Holds(om, e.id) && e.kind == CancelRejectE
      modifies this`eventq, this`om, this`scheduled, this`touched, this`sentAt
      ensures View() == Told(config, strategy, old(View()), e)
    {
      hide AskedAll;
      om := Put(om, e.id, Some(OnCancelRejected(om.slots[e.id].value, e.ts, SinceMidnight(e.ts))));
      Notify();
    }

    /** Register the order, match it against the book, put it on the book if it rests and its spot is free,
        and schedule its reports. */
    method Admit(e: SimEvent)
      requires Holds(om, e.id)
      modifies this`eventq, this`scheduled, this`registered, this`resting, this`arrived
      ensures View() == Arrived(config, old(View()), e)
    {
      hide ArrivalOf;
      var t := om.slots[e.id].value.terms;
      var occupied := OwnSpot(t) in resting;
      var best := BestOf(market, t.instrument);
      arrived := arrived[e.id := Seen(best, occupied)];
      registered := registered + {e.id};
      var a := ArrivalOf(t, e.id, ts, config.ack, config.cxl, best, occupied, AuctionAhead(t, PhaseOf(phases, t.instrument)));
      if a.spot.Some? && a.spot.value !in resting {
        resting := resting[a.spot.value := SimOrder(e.id, a.left)];
      }
      Schedule(a.news);
    }

    /** The order reaches the exchange. Listeners hear nothing yet. What is filled, cancelled and put on the
        book is all of the order, unless another order waits for the same auction at its price. */
    method OnOrderSent(e: SimEvent)
      requires Holds(om, e.id)
      modifies this`eventq, this`scheduled, this`registered, this`resting, this`arrived
      ensures View() == Arrived(config, old(View()), e)
      ensures var t := om.slots[e.id].value.terms;
        t.side != UnknownSide && t.size > 0 ==>
          (TakenIn(eventq[|old(eventq)|..], e.id) + Rested(old(resting), resting, SpotOf(t)) == t.size <==> !old(AuctionPriceTaken(View(), t)))
    {
      hide Arrived, TakenIn, Rested, AuctionPriceTaken, SpotOf;
      ghost var t := om.slots[e.id].value.terms;
      if t.side != UnknownSide && t.size > 0 { ArrivedAccountsIff(config, View(), e); }
      Admit(e);
    }

    /** Take what is cancelled off the book and say what to answer. */
    method TakeOff(e: SimEvent, stale: u32) returns (news: SimEvent)
      requires Holds(om, e.id) && ts == e.ts
      modifies this`resting
      ensures var a := CancelAnswer(e.id in registered, om.slots[e.id].value, e, config.cxl, old(resting), stale);
        news == a.news && resting == a.resting
    {
      var o := om.slots[e.id].value;
      news := SimEvent(ts + config.cxl, 0, CancelRejectE, e.id, 0, 0.0);
      if e.id in registered && Cancellable(o.state) {
        var r := Reduce(resting, OwnSpot(o.terms), e.id, e.size, stale);
        resting := r.resting;
        if r.amount != 0 {
          news := CancelEvent(e.id, ts + config.cxl, 0, r.amount);
        }
      }
    }

    /** A cancel request reaches the exchange; `stale` is what the erased entry's memory holds. */
    method OnOrderPendingCancel(e: SimEvent, stale: u32)
      requires Holds(om, e.id) && ts == e.ts
      modifies this`eventq, this`scheduled, this`resting
      ensures View() == Answered(config, old(View()), e, stale)
    {
      var news := TakeOff(e, stale);
      Schedule([news]);
    }

    /** A trade or a better quote, told by market data at time `at`, meets one resting order. */
    method Cross(s: Spot, avail: u32, price: real, at: int, matched: bool, front: bool, cxlRemainder: bool)
      requires Valid() && s in resting && ts <= at
      modifies this`eventq, this`scheduled, this`resting
      ensures Valid() && Holds(om, old(resting)[s].id)
      ensures View() == CrossedAt(config, old(View()), s, avail, price, at, matched, front, cxlRemainder)
    {
      hide Good, CrossOne, Crossed;
      CrossedGood(config, View(), s, avail, price, at, matched, front, cxlRemainder);
      var so := resting[s];
      var x := CrossOne(om.slots[so.id].value, so, avail, price, at + config.ack, matched, front, cxlRemainder);
      resting := Crossed(resting, s, matched, x.1);
      Schedule(x.0);
    }

    /** One round of `cross_helper`'s loop. */
    method CrossOnce(p: Print, spot: Spot, avail: u32) returns (left: u32)
      requires Valid() && ts <= p.at && spot in resting && Holds(om, resting[spot].id)
      modifies this`eventq, this`scheduled, this`resting
      ensures Valid() && (View(), left) == CrossRound(config, old(View()), p, spot, avail)
    {
      hide Good, CrossedAt;
      var so := resting[spot];
      var matched := p.check(om.slots[so.id].value.terms) && avail > 0;
      Cross(spot, avail, p.price, p.at, matched, p.front(spot), p.cxlRemainder);
      left := if matched && p.front(spot) then avail - Min(so.remains, avail) else avail;
    }

    /** `cross_helper`: the orders of one container, in its order. */
    method CrossHelper(p: Print, spots: seq<Spot>, avail: u32, ghost instrument: nat, ghost shelf: Shelf) returns (crossed: u32)
      requires Valid() && ts <= p.at && Lists(resting, instrument, shelf, spots)
      modifies this`eventq, this`scheduled, this`resting
      ensures Valid() && Listed(old(View()), spots)
      ensures var r := CrossedAll(config, old(View()), p, spots, avail); View() == r.0 && crossed == avail - r.1
      ensures FillShares(eventq) == FillShares(old(eventq)) + crossed
      ensures AllShares(resting, spots) == AllShares(old(resting), spots) - crossed
    {
      hide Good, CrossRound, FillShares, AllShares;
      ListsListed(config, View(), instrument, shelf, spots);
      CrossConserves(config, View(), p, spots, avail);
      var left: u32 := avail;
      for i := 0 to |spots|
        invariant Valid() && left <= avail && Listed(View(), spots[i..])
        invariant ts == old(ts)
        invariant CrossedAll(config, old(View()), p, spots, avail) == CrossedAll(config, View(), p, spots[i..], left)
      {
        RoundLeavesOthers(config, View(), p, spots[i..], left);
        RoundConserves(config, View(), p, spots[i], left);
        assert spots[i..][0] == spots[i] && spots[i..][1..] == spots[i + 1..];
        left := CrossOnce(p, spots[i], left);
      }
      assert spots[|spots|..] == [];
      crossed := avail - left;
    }

    /** The rounds of `exec_cross_helper` for one order: as long as it is not filled they come back to it. */
    method FillByExecution(id: u32, size: u32, avail: u32, price: real, at: int) returns (fills: seq<SimEvent>)
      requires avail > 0
      ensures fills == ExecFills(id, size, avail, price, at) && FillShares(fills) == size
    {
      var remains: u32 := size;
      fills := [];
      while remains > avail
        invariant ExecFills(id, size, avail, price, at) == fills + ExecFills(id, remains, avail, price, at)
      {
        fills := fills + [SimEvent(at, 0, FillE, id, avail, price)];
        remains := remains - avail;
      }
      fills := fills + [SimEvent(at, 0, FillE, id, remains, price)];
      ExecFillsAll(id, size, avail, price, at);
    }

    /** An execution meets one order: the shares ahead of it go first. */
    method ExecOne(spot: Spot, ahead: u32, avail: u32, price: real, at: int)
      requires Valid() && ts <= at && spot in resting
      modifies this`eventq, this`scheduled, this`resting
      ensures Valid() && View() == ExecRound(config, old(View()), spot, ahead, avail, price, at)
    {
      hide Good, ExecFills, FillShares;
      ExecGood(config, View(), spot, ahead, avail, price, at);
      if avail > ahead {
        var fills := FillByExecution(resting[spot].id, resting[spot].remains, avail - ahead, price, at + config.ack);
        resting := resting - {spot};
        Schedule(fills);
      }
    }

    /** `exec_cross_helper`: the orders of one container up to the first whose price is not good enough. */
    method ExecCross(check: Terms -> bool, spots: seq<Spot>, ahead: map<Spot, u32>, avail: u32, price: real, at: int, ghost instrument: nat,
                     ghost shelf: Shelf) returns (ahead': map<Spot, u32>, left: u32)
      requires Valid() && ts <= at && Lists(resting, instrument, shelf, spots) && forall spot :: spot in spots ==> spot in ahead
      modifies this`eventq, this`scheduled, this`resting
      ensures Valid() && Listed(old(View()), spots)
      ensures Execution(View(), ahead', left) == ExecAll(config, old(View()), check, spots, ahead, avail, price, at)
    {
      hide Good, ExecRound, Lists;
      ListsListed(config, View(), instrument, shelf, spots);
      ahead', left := ahead, avail;
      for i := 0 to |spots|
        invariant Valid() && ts <= at && left <= avail && Listed(View(), spots[i..]) && forall spot :: spot in spots ==> spot in ahead'
        invariant ExecAll(config, old(View()), check, spots, ahead, avail, price, at)
          == ExecAll(config, View(), check, spots[i..], ahead', left, price, at)
      {
        var spot := spots[i];
        assert spots[i..][0] == spot && spots[i..][1..] == spots[i + 1..];
        if !check(om.slots[resting[spot].id].value.terms) { return; }
        ExecLeavesOthers(config, View(), spots[i..], ahead'[spot], left, price, at);
        ExecOne(spot, ahead'[spot], left, price, at);
        var front := Min(ahead'[spot], left);
        ahead', left := ahead'[spot := ahead'[spot] - front], left - front;
      }
      assert spots[|spots|..] == [];
    }

    // ----- the service loop -----

    /** The handler of an event just popped; what erased memory holds is anything. */
    method Dispatch(e: SimEvent) returns (ghost stale: u32)
      requires Holds(om, e.id) && Sound(om) && ts == e.ts
      modifies this`eventq, this`om, this`registered, this`resting, this`scheduled, this`touched, this`sentAt, this`arrived
      ensures View() == Handled(config, strategy, old(View()), e, stale)
    {
      hide Told, Arrived, Answered;
      stale := 0;
      match e.kind {
        case SentE => OnOrderSent(e);
        case AckE => OnOrderAcknowledged(e);
        case PendingCancelE =>
          var memory: u32 := *;
          stale := memory;
          OnOrderPendingCancel(e, memory);
        case CancelE => OnOrderCancelled(e);
        case CancelRejectE => OnOrderCancelRejected(e);
        case FillE => OnOrderFilled(e);
      }
    }

    /** The clock moves to the time of entry `i`, and the entry leaves the queue. */
    method Pop(i: nat)
      requires i < |eventq|
      modifies this`ts, this`eventq, this`delivered
      ensures View() == Popped(old(View()), i) && ts == old(eventq)[i].ts && om == old(om)
    {
      var e := eventq[i];
      ts := e.ts;
      eventq := Without(eventq, i);
      delivered := delivered + [e];
    }

    /** Service the next event: one the priority queue may yield leaves the queue, the clock moves to its
        time, and its handler runs; the other entries stay. */
    method Service()
      requires Valid() && eventq != []
      modifies this`ts, this`eventq, this`om, this`delivered, this`registered, this`resting, this`scheduled, this`touched, this`sentAt, this`arrived
      ensures Valid() && Serviced(config, strategy, old(View()), View()) && Onward(strategy, old(View()), View())
      ensures exists i: nat :: Delivered(old(View()), i, View())
      ensures Patient() && ts == old(ts) ==> CountAt(eventq, ts) < CountAt(old(eventq), ts)
    {
      hide Good, Onward, Handled, Popped, CountAt, Delivered;
      TopExists(eventq);
      var i: nat :| i < |eventq| && IsTop(eventq, i);
      var e := eventq[i];
      HeldAndSound(config, View(), i);
      Pop(i);
      ghost var stale := Dispatch(e);
      assert Serviced(config, strategy, old(View()), View());
      ServicedGood(config, strategy, old(View()), View());
    }

    /** The clock moves to `now` after everything due strictly before it has been delivered, in time order,
        each event at its own time. */
    method UpdateTs(now: int)
      requires Valid() && ts <= now && Patient()
      modifies this`ts, this`eventq, this`om, this`delivered, this`registered, this`resting, this`scheduled, this`touched, this`sentAt, this`arrived
      ensures Valid() && ts == now
      ensures exists n: nat :: Ran(config, strategy, old(View()), now, View(), n)
      ensures Onward(strategy, old(View()), View())
      ensures forall e :: e in eventq ==> e.ts >= now
      ensures forall e :: e in old(eventq) && e.ts < now ==> e in delivered[|old(delivered)|..]
      ensures DeliveredWithin(delivered, |old(delivered)|, old(ts), now)
    {
      hide Good, Onward, Serviced, CountAt, DeliveredWithin;
      ghost var n: nat := 0;
      while SomeDue(eventq, now)
        invariant Valid() && ts <= now && Reached(config, strategy, old(View()), now, View(), n)
        decreases now - ts, CountAt(eventq, ts)
      {
        ghost var mid := View();
        Service();
        n := n + 1;
        ghost var i: nat :| Delivered(mid, i, View());
        DueFirst(config, mid, now, View(), i);
      }
      ts := now;
      RanGood(config, strategy, old(View()), now, View(), n);
    }

    /** `on_start_of_data`, then the packet's market data. */
    method OnPacket(at: int, market: map<nat, Market>, phases: map<nat, Phase>)
      requires Valid() && ts <= at && Patient()
      modifies this
      ensures Valid() && ts == at && this.market == market && this.phases == phases
      ensures exists n: nat, t: Sim :: Ran(config, strategy, old(View()), at, t, n) && View() == t.(market := market, phases := phases)
      ensures Onward(strategy, old(View()), View())
      ensures forall e :: e in eventq ==> e.ts >= at
      ensures forall e :: e in old(eventq) && e.ts < at ==> e in delivered[|old(delivered)|..]
      ensures DeliveredWithin(delivered, |old(delivered)|, old(ts), at)
    {
      hide Books, Clock, DeliveredWithin, Ran, CancelHeard, Keeps, OrdersKept;
      UpdateTs(at);
      ghost var t := View();
      this.market, this.phases := market, phases;
      assert View() == t.(market := market, phases := phases);
    }

    // ----- every state of every run -----

    /** An immediate order that the exchange accepted and none of whose cancel requests was has all its
        shares filled or cancelled once none of its events are queued; it is closed if and only if cancels
        are not faster than acknowledgements or it did not trade in part on arrival. */
    lemma ImmediateOrdersCloseIff(id: u32)
      requires Valid() && Left(om, touched, id) && Settled(eventq, id)
      ensures id in arrived
      ensures var o := om.slots[id].value;
        && o.filled + o.cancelled == o.terms.size
        && (Closed(o) <==> config.ack <= config.cxl || !PartlyCrosses(o.terms, arrived[id].market, arrived[id].occupied))
        && (!Closed(o) ==> o.open == o.cancelled > 0)
    {
      SettledOrderClosesIff(config, View(), id);
    }

    /** None of its events are queued once the clock is past the deadline. */
    lemma SettledByDeadline(id: u32)
      requires Valid() && Left(om, touched, id)
      ensures id in sentAt && (ts > Deadline(config, sentAt[id]) ==> Settled(eventq, id))
    {
      OrderSettlesByDeadline(config, View(), id);
    }

    /** Time order and completeness. */
    lemma DeliveredInOrder()
      requires Valid()
      ensures Sorted(delivered)
      ensures forall e: SimEvent :: e.ts < ts ==> scheduled[e] == multiset(delivered)[e]
      ensures forall i, j :: 0 <= i < |delivered| && 0 <= j < |eventq| ==> delivered[i].ts <= eventq[j].ts
    {
      InOrder(config, View());
    }
  }
}
