/** The exchange simulator as a value: its state, and what each request, market event and serviced event
    makes of it (`src/oe/L2SimSession.cpp`). Times are instants in nanoseconds; the order manager is the
    table of `OrderTable`, moved by the same operations. */
module SimExchange {
  import opened Basics
  import opened Orders
  import opened OrderTable
  import opened SimEvents

  /** Best prices and sizes, `book_p->best()`. */
  datatype Market = Market(bid: real, bidSize: u32, ask: real, askSize: u32)

  datatype Phase = UnknownPhase | Premarket | MarketHours | Postmarket

  /** The containers of a `BookEntry` that hold resting orders. */
  datatype Shelf = Bids | Asks | OpenBids | OpenAsks | CloseBids | CloseAsks

  datatype Spot = Spot(instrument: nat, shelf: Shelf, price: real)
  datatype SimOrder = SimOrder(id: u32, remains: u32)

  /** What a listener may ask for during a callback, or the user between packets. */
  datatype Request = SendReq(terms: Terms, checks: bool) | CancelReq(id: u32, newqty: u32)

  /** What the listeners ask for, given all events so far. */
  type Listeners = seq<SimEvent> -> seq<Request>

  predicate Auction(t: Terms) {
    t.tif == AuctionOpen || t.tif == AuctionClose
  }

  /** A market or immediate-or-cancel order outside the auctions. */
  predicate Immediate(t: Terms) {
    !Auction(t) && (t.kind == OrderType.Market || t.tif == ImmediateOrCancel)
  }

  predicate Supported(t: Terms) {
    && (t.kind == OrderType.Market || t.kind == Limit)
    && t.tif in {Day, Ext, ImmediateOrCancel, AuctionOpen, AuctionClose}
  }

  /** The auction the order is for is still to come. */
  predicate AuctionAhead(t: Terms, p: Phase) {
    if t.tif == AuctionOpen then p == UnknownPhase || p == Premarket
    else p == UnknownPhase || p == Premarket || p == MarketHours
  }

  /** How far the day has come. */
  function Hour(p: Phase): (r: nat) {
    match p
    case UnknownPhase => 0
    case Premarket => 0
    case MarketHours => 1
    case Postmarket => 2
  }

  function PhaseOf(phases: map<nat, Phase>, instrument: nat): (r: Phase) {
    if instrument in phases then phases[instrument] else UnknownPhase
  }

  /** The opening auction is ahead until the market opens, the closing one until it closes, and both before
      anything is known of the day. */
  lemma AheadUntilItsHour(t: Terms, p: Phase)
    requires Auction(t)
    ensures AuctionAhead(t, p) <==> Hour(p) < if t.tif == AuctionOpen then 1 else 2
    ensures AuctionAhead(t, PhaseOf(map[], t.instrument))
  {
  }

  /** The order trades against the opposite best price. */
  predicate Crosses(t: Terms, m: Market) {
    if t.side == Buy then t.kind == OrderType.Market || t.price >= m.ask
    else t.side != UnknownSide && (t.kind == OrderType.Market || t.price <= m.bid)
  }

  function FillSize(t: Terms, m: Market): (r: u32) {
    Min(t.size, if t.side == Buy then m.askSize else m.bidSize)
  }

  function OwnSpot(t: Terms): (r: Spot) {
    Spot(t.instrument, if t.side == Buy then Bids else Asks, t.price)
  }

  function AuctionSpot(t: Terms): (r: Spot) {
    var shelf := if t.side == Buy then (if t.tif == AuctionClose then CloseBids else OpenBids)
                 else if t.tif == AuctionClose then CloseAsks else OpenAsks;
    var price := if t.kind != OrderType.Market then t.price else if t.side == Buy then 500000.0 else 0.0;
    Spot(t.instrument, shelf, price)
  }

  ghost predicate Sorted(es: seq<SimEvent>) {
    forall i, j :: 0 <= i < j < |es| ==> es[i].ts <= es[j].ts
  }

  /** New events at the end of the queue, all later than `ts`. */
  ghost predicate Grows(q: seq<SimEvent>, q': seq<SimEvent>, ts: int) {
    && |q| <= |q'| && q'[..|q|] == q
    && forall i :: |q| <= i < |q'| ==> q'[i].ts > ts
  }

  lemma GrowsTrans(a: seq<SimEvent>, b: seq<SimEvent>, c: seq<SimEvent>, ts: int)
    requires Grows(a, b, ts) && Grows(b, c, ts)
    ensures Grows(a, c, ts)
  {
  }

  /** Later events do not count at an earlier time. */
  lemma {:induction false} GrowsCountAt(q: seq<SimEvent>, q': seq<SimEvent>, ts: int)
    requires Grows(q, q', ts)
    ensures CountAt(q', ts) == CountAt(q, ts)
    decreases |q'|
  {
    if |q'| == |q| {
      assert q' == q;
    } else {
      var init := q'[..|q'| - 1];
      assert init[..|q|] == q;
      GrowsCountAt(q, init, ts);
    }
  }

  lemma NewsGrow(q: seq<SimEvent>, news: seq<SimEvent>, ts: int)
    requires forall j :: 0 <= j < |news| ==> news[j].ts > ts
    ensures Grows(q, q + news, ts)
  {
    assert (q + news)[..|q|] == q;
  }

  // ----- an order arriving at the exchange -----

  function AckEvent(id: u32, at: int): (r: SimEvent) { SimEvent(at, 0, AckE, id, 0, 0.0) }
  function FillEvent(id: u32, at: int, size: u32, price: real): (r: SimEvent) { SimEvent(at, 1, FillE, id, size, price) }
  function CancelEvent(id: u32, at: int, index: nat, size: u32): (r: SimEvent) { SimEvent(at, index, CancelE, id, size, 0.0) }

  datatype Arrival = Arrival(news: seq<SimEvent>, spot: Option<Spot>, left: u32)

  /** What the exchange does with an order: the reports it schedules and where it rests, if it does. */
  function ArrivalOf(t: Terms, id: u32, now: int, ack: nat, cxl: nat, m: Option<Market>, occupied: bool, ahead: bool): (r: Arrival) {
    var cancelled := Arrival([CancelEvent(id, now + cxl, 0, t.size)], None, 0);
    if Auction(t) then
      if ahead then Arrival([AckEvent(id, now + ack)], Some(AuctionSpot(t)), t.size) else cancelled
    else if m.None? || (occupied && t.side != UnknownSide) then cancelled
    else if Crosses(t, m.value) then
      var fill := FillSize(t, m.value);
      var reports := [AckEvent(id, now + ack), FillEvent(id, now + ack, fill, if t.side == Buy then m.value.ask else m.value.bid)];
      if fill == t.size then Arrival(reports, None, 0)
      else if Immediate(t) then Arrival(reports + [CancelEvent(id, now + cxl, 1, t.size - fill)], None, 0)
      else Arrival(reports + (if fill == 0 then [AckEvent(id, now + ack)] else []), Some(OwnSpot(t)), t.size - fill)
    else if Immediate(t) then cancelled
    else Arrival([AckEvent(id, now + ack)], Some(OwnSpot(t)), t.size)
  }

  /** Part of the order trades on arrival, and the rest does not. */
  predicate PartlyCrosses(t: Terms, m: Option<Market>, occupied: bool) {
    && m.Some? && !(occupied && t.side != UnknownSide)
    && Crosses(t, m.value) && FillSize(t, m.value) < t.size
  }

  /** An immediate order never rests, and every share of it is scheduled to be filled or cancelled: with
      the acknowledgement first, or, for a part when cancels are faster, after the cancel. */
  lemma ImmediateIsDisposed(o: OrderV, now: int, ack: nat, cxl: nat, m: Option<Market>, occupied: bool, ahead: bool)
    requires Immediate(o.terms)
    ensures var a := ArrivalOf(o.terms, o.id, now, ack, cxl, m, occupied, ahead);
      a.spot == None && if cxl < ack && PartlyCrosses(o.terms, m, occupied) then DisposesLate(a.news, o) else Disposes(a.news, o)
  {
  }

  lemma DisposedStart(o: OrderV, news: seq<SimEvent>)
    requires Untouched(o) && Disposes(news, o)
    ensures Ledger(news, o)
  {
    hide Ledger;
    var sent := SimEvent(0, 0, SentE, o.id, 0, 0.0);
    NewOrderLedger([], o, sent);
    assert [] + [sent] == [sent] && Without([sent], 0) == [] && [] + news == news;
    SentKeepsLedger([sent], 0, o, news);
  }

  lemma ArrivalNews(t: Terms, id: u32, now: int, ack: nat, cxl: nat, m: Option<Market>, occupied: bool, ahead: bool)
    ensures var a := ArrivalOf(t, id, now, ack, cxl, m, occupied, ahead);
      && (forall j :: 0 <= j < |a.news| ==>
        a.news[j].id == id && a.news[j].kind in {AckE, FillE, CancelE} && (a.news[j].ts == now + ack || a.news[j].ts == now + cxl))
      && (a.spot.Some? ==> !Immediate(t))
  {
  }

  /** A good price for the order is one no worse than its limit. */
  predicate NoWorse(t: Terms, price: real) {
    t.kind == Limit ==> if t.side == Buy then price <= t.price else t.price <= price
  }

  /** What the other side of the market offers: its best price, and the shares there. */
  function Offer(t: Terms, m: Market): (r: (real, u32)) {
    if t.side == Buy then (m.ask, m.askSize) else (m.bid, m.bidSize)
  }

  lemma SharesOfFew(news: seq<SimEvent>, id: u32, k: Kind)
    requires 1 <= |news| <= 3 && forall j :: 0 <= j < |news| ==> news[j].id == id
    ensures SharesOf(news, id, k) == (if news[0].kind == k then news[0].size else 0) + (if |news| > 1 && news[1].kind == k then news[1].size else 0)
      + (if |news| > 2 && news[2].kind == k then news[2].size else 0)
    ensures CountOf(news, id, k) == (if news[0].kind == k then 1 else 0) + (if |news| > 1 && news[1].kind == k then 1 else 0)
      + (if |news| > 2 && news[2].kind == k then 1 else 0)
  {
    forall j | 0 <= j < |news| { CountsOne(news[j], id, k, 0); }
    if |news| == 3 {
      CountsOfThree(news, id, k);
    } else if |news| == 2 {
      CountsPlus([news[0]], [news[1]], id, k, 0);
      assert news == [news[0]] + [news[1]];
    } else {
      assert news == [news[0]];
    }
  }

  /** The shares a set of reports fills and cancels. */
  function FilledIn(news: seq<SimEvent>, id: u32): (r: nat) { SharesOf(news, id, FillE) }

  function TakenIn(news: seq<SimEvent>, id: u32): (r: nat) { SharesOf(news, id, FillE) + SharesOf(news, id, CancelE) }

  /** Every share of an arriving order is filled, cancelled or left to rest; it is acknowledged exactly if
      it trades or rests. */
  lemma ArrivalAccounts(t: Terms, id: u32, now: int, ack: nat, cxl: nat, m: Option<Market>, occupied: bool, ahead: bool)
    ensures var a := ArrivalOf(t, id, now, ack, cxl, m, occupied, ahead);
      && TakenIn(a.news, id) + (if a.spot.Some? then a.left else 0) == t.size
      && (CountOf(a.news, id, AckE) > 0 <==> a.spot.Some? || CountOf(a.news, id, FillE) > 0)
  {
    hide CountOf, SharesOf;
    var a := ArrivalOf(t, id, now, ack, cxl, m, occupied, ahead);
    SharesOfFew(a.news, id, FillE);
    SharesOfFew(a.news, id, CancelE);
    SharesOfFew(a.news, id, AckE);
  }

  /** Every report is due one latency after the arrival; every fill carries the other side's best price,
      which is no worse than the limit, and no more than there is at it. */
  lemma ArrivalPrices(t: Terms, id: u32, now: int, ack: nat, cxl: nat, m: Option<Market>, occupied: bool, ahead: bool)
    requires t.kind == OrderType.Market || t.kind == Limit
    ensures var a := ArrivalOf(t, id, now, ack, cxl, m, occupied, ahead);
      forall j :: 0 <= j < |a.news| ==> var e := a.news[j];
        && e.ts == now + (if e.kind == CancelE then cxl else ack)
        && (e.kind == FillE ==> m.Some? && e.price == Offer(t, m.value).0 && NoWorse(t, e.price) && e.size <= Offer(t, m.value).1)
  {
  }

  /** Shares of an order outside the auctions stay unfilled only for a reason: there is no market or no
      side, its price is taken, the other side has no more, or its best price is worse than the limit. So
      what rests never crosses what is left of the market. */
  lemma ArrivalTradesInFull(t: Terms, id: u32, now: int, ack: nat, cxl: nat, m: Option<Market>, occupied: bool, ahead: bool)
    requires !Auction(t) && t.side != UnknownSide && m.Some? && !occupied && (t.kind == OrderType.Market || t.kind == Limit)
    ensures var a := ArrivalOf(t, id, now, ack, cxl, m, occupied, ahead);
      && FilledIn(a.news, id) == (if NoWorse(t, Offer(t, m.value).0) then Min(t.size, Offer(t, m.value).1) else 0)
      && (t.size > 0 ==> (a.spot.Some? <==> t.kind == Limit && t.tif != ImmediateOrCancel && FilledIn(a.news, id) < t.size))
  {
    hide SharesOf;
    var a := ArrivalOf(t, id, now, ack, cxl, m, occupied, ahead);
    SharesOfFew(a.news, id, FillE);
  }

  /** No market, no side or a taken price: nothing trades, and an order with a side is cancelled. */
  lemma ArrivalWithoutMarket(t: Terms, id: u32, now: int, ack: nat, cxl: nat, m: Option<Market>, occupied: bool, ahead: bool)
    requires !Auction(t) && t.side != UnknownSide && (m.None? || occupied)
    ensures ArrivalOf(t, id, now, ack, cxl, m, occupied, ahead) == Arrival([CancelEvent(id, now + cxl, 0, t.size)], None, 0)
  {
  }

  /** An auction order waits for its auction in full if that is still ahead, and is cancelled otherwise. */
  lemma AuctionArrival(t: Terms, id: u32, now: int, ack: nat, cxl: nat, m: Option<Market>, occupied: bool, ahead: bool)
    requires Auction(t)
    ensures var a := ArrivalOf(t, id, now, ack, cxl, m, occupied, ahead);
      FilledIn(a.news, id) == 0 && (a.spot.Some? <==> ahead) && (ahead ==> a.left == t.size)
  {
    hide SharesOf;
    SharesOfFew(ArrivalOf(t, id, now, ack, cxl, m, occupied, ahead).news, id, FillE);
  }

  /** A resting order is on its own side of its own instrument, in the container of its auction if it has
      one, at its own price; a market order in an auction is ahead of every limit up to 500000. */
  lemma ArrivalRests(t: Terms, id: u32, now: int, ack: nat, cxl: nat, m: Option<Market>, occupied: bool, ahead: bool)
    ensures var a := ArrivalOf(t, id, now, ack, cxl, m, occupied, ahead);
      a.spot.Some? ==> var s := a.spot.value;
        && s.instrument == t.instrument
        && (s.shelf in {Bids, OpenBids, CloseBids} <==> t.side == Buy)
        && (s.shelf in {OpenBids, OpenAsks} <==> t.tif == AuctionOpen) && (s.shelf in {CloseBids, CloseAsks} <==> t.tif == AuctionClose)
        && (t.kind != OrderType.Market ==> s.price == t.price)
        && (t.kind == OrderType.Market ==> if t.side == Buy then s.price == 500000.0 else s.price == 0.0)
  {
  }

  /** For every immediate order and market, whatever order its reports are delivered in: it ends closed if
      and only if cancels are not faster than acknowledgements or it did not trade in part on arrival.
      Otherwise the shares that did not trade stay open although they were cancelled. */
  lemma ImmediateClosesIff(o: OrderV, now: int, ack: nat, cxl: nat, m: Option<Market>, occupied: bool, ahead: bool, o': OrderV)
    requires Immediate(o.terms) && Untouched(o)
    requires Delivers(ArrivalOf(o.terms, o.id, now, ack, cxl, m, occupied, ahead).news, o, o')
    ensures o'.filled + o'.cancelled == o.terms.size
    ensures Closed(o') <==> ack <= cxl || !PartlyCrosses(o.terms, m, occupied)
    ensures !Closed(o') ==> o'.open == o'.cancelled > 0
  {
    hide Ledger, LateLedger, Delivers, ArrivalOf, PartlyCrosses, Disposes, DisposesLate;
    var news := ArrivalOf(o.terms, o.id, now, ack, cxl, m, occupied, ahead).news;
    var late := cxl < ack && PartlyCrosses(o.terms, m, occupied);
    ImmediateIsDisposed(o, now, ack, cxl, m, occupied, ahead);
    ArrivalNews(o.terms, o.id, now, ack, cxl, m, occupied, ahead);
    assert [] + news == news;
    if late { LateStart([], o, news); } else { DisposedStart(o, news); }
    DeliveredClosesIff(late, news, o, o');
  }

  // ----- the exchange's side of a cancel, and of a trade -----

  datatype Reduction = Reduction(resting: map<Spot, SimOrder>, amount: u32)

  /** `reduce_helper`: take `qty` shares off the order resting at the spot, all of it for zero; more
      than rests there is refused. After erasing the entry the code reads the amount to report from it:
      `stale` is whatever that memory then holds. */
  function Reduce(resting: map<Spot, SimOrder>, s: Spot, id: u32, qty: u32, stale: u32): (r: Reduction) {
    if s in resting && resting[s].id == id then
      var remains := resting[s].remains;
      if qty == 0 || remains == qty then Reduction(resting - {s}, stale)
      else if qty < remains then Reduction(resting[s := SimOrder(id, remains - qty)], qty)
      else Reduction(resting, 0)
    else Reduction(resting, 0)
  }

  /** The shares resting for an order at a spot. */
  function RestsAt(resting: map<Spot, SimOrder>, s: Spot, id: u32): (r: nat) {
    if s in resting && resting[s].id == id then resting[s].remains else 0
  }

  /** The reduction touches one spot and takes what was asked for, or all of it, or nothing. */
  lemma ReduceTakes(resting: map<Spot, SimOrder>, s: Spot, id: u32, qty: u32, stale: u32)
    ensures var r := Reduce(resting, s, id, qty, stale);
      var before, after := RestsAt(resting, s, id), RestsAt(r.resting, s, id);
      && r.resting - {s} == resting - {s}
      && after == (if qty == 0 then 0 else if qty <= before then before - qty else before)
  {
  }

  /** The reported amount is what was taken off the book, whatever the erased memory holds, if and only
      if the order was not resting there to be taken whole. */
  lemma ReduceReportsIff(resting: map<Spot, SimOrder>, s: Spot, id: u32, qty: u32)
    ensures (forall stale: u32 :: var r := Reduce(resting, s, id, qty, stale);
      r.amount == RestsAt(resting, s, id) - RestsAt(r.resting, s, id))
      <==> !(s in resting && resting[s].id == id && (qty == 0 || resting[s].remains == qty))
  {
    if s in resting && resting[s].id == id && (qty == 0 || resting[s].remains == qty) {
      var other: u32 := if resting[s].remains == 0 then 1 else 0;
      assert Reduce(resting, s, id, qty, other).amount == other != resting[s].remains;
    }
  }

  /** Cancelling all of a resting order of 100 shares may report none, so that the request is refused
      although the order has left the book. */
  lemma WholeCancelMayBeRefused(s: Spot)
    ensures var r := Reduce(map[s := SimOrder(1, 100)], s, 1, 0, 0);
      r.amount == 0 && r.resting == map[]
  {
  }

  /** Entries only disappear or shrink. */
  ghost predicate Shrinks(resting: map<Spot, SimOrder>, resting': map<Spot, SimOrder>) {
    forall s :: s in resting' ==> s in resting && resting'[s].id == resting[s].id && resting'[s].remains <= resting[s].remains
  }

  predicate Cancellable(s: OrderState) {
    s in {OrderState.Sent, Acknowledged, PartiallyFilled, CancelReplaced, PendingCancel, PendingCancelReplace}
  }

  datatype Answer = Answer(news: SimEvent, resting: map<Spot, SimOrder>)

  /** What the exchange answers to a cancel request. */
  function CancelAnswer(registered: bool, o: OrderV, e: SimEvent, cxl: nat, resting: map<Spot, SimOrder>, stale: u32): (r: Answer) {
    var refused := SimEvent(e.ts + cxl, 0, CancelRejectE, e.id, 0, 0.0);
    if !registered || !Cancellable(o.state) then Answer(refused, resting)
    else
      var r := Reduce(resting, OwnSpot(o.terms), e.id, e.size, stale);
      Answer(if r.amount == 0 then refused else CancelEvent(e.id, e.ts + cxl, 0, r.amount), r.resting)
  }

  lemma AnswerIsOwn(registered: bool, o: OrderV, e: SimEvent, cxl: nat, resting: map<Spot, SimOrder>, stale: u32)
    ensures var a := CancelAnswer(registered, o, e, cxl, resting, stale);
      a.news.id == e.id && a.news.ts == e.ts + cxl && a.news.kind != SentE && Shrinks(resting, a.resting)
  {
  }

  /** A request names the quantity to leave open, but the exchange takes that quantity off: what then rests
      is what was asked for if and only if that is nothing, or half of what rested. */
  lemma CancelLeavesNewQtyIff(resting: map<Spot, SimOrder>, s: Spot, id: u32, newqty: u32, stale: u32)
    ensures RestsAt(Reduce(resting, s, id, newqty, stale).resting, s, id) == newqty
      <==> newqty == 0 || RestsAt(resting, s, id) == 2 * newqty
  {
  }

  /** What is answered: a request for part of what rests takes it off and is granted; one for more than rests,
      for an order the exchange does not know or one that has come to an end, is refused and changes nothing. */
  lemma CancelAnswers(registered: bool, o: OrderV, e: SimEvent, cxl: nat, resting: map<Spot, SimOrder>, stale: u32)
    ensures var a, spot := CancelAnswer(registered, o, e, cxl, resting, stale), OwnSpot(o.terms);
      var before, after := RestsAt(resting, spot, e.id), RestsAt(a.resting, spot, e.id);
      var known := registered && o.state !in {OrderState.Unknown, NewAndUnsent, LocallyRejected, Filled, PartiallyCancelled,
                                              OrderState.Cancelled, RemotelyRejected, CancelRejected};
      && (known && 0 < e.size < before ==> a.news == CancelEvent(e.id, e.ts + cxl, 0, e.size) && after == before - e.size)
      && (!known || (e.size > before) ==> a.news == SimEvent(e.ts + cxl, 0, CancelRejectE, e.id, 0, 0.0) && a.resting == resting)
      && (known && 0 < before && (e.size == 0 || e.size == before) ==> after == 0)
  {
    assert o.state.Unknown? || o.state.NewAndUnsent? || o.state.LocallyRejected? || o.state.Sent? || o.state.Acknowledged?
      || o.state.PartiallyFilled? || o.state.Filled? || o.state.PendingCancel? || o.state.PartiallyCancelled? || o.state.Cancelled?
      || o.state.PendingCancelReplace? || o.state.CancelReplaced? || o.state.RemotelyRejected? || o.state.CancelRejected?;
  }

  /** What one resting order gets from a trade or a better quote: the body of `cross_helper`'s loop.
      `matched` is its price test with shares available, `front` that nothing is ahead of the order. */
  function CrossOne(o: OrderV, so: SimOrder, avail: u32, price: real, at: int, matched: bool, front: bool, cxlRemainder: bool):
    (r: (seq<SimEvent>, u32))
  {
    var open := if o.state in {OrderState.Unknown, NewAndUnsent, LocallyRejected, OrderState.Sent} then o.terms.size else so.remains;
    if matched then
      var fill := if front then Min(so.remains, avail) else 0;
      var fills := if front then [SimEvent(at, 0, FillE, so.id, fill, price)] else [];
      var left := so.remains - fill;
      (fills + (if left != 0 && cxlRemainder then [CancelEvent(so.id, at, 0, Sub32(open, fill))] else []), left)
    else (if cxlRemainder then [CancelEvent(so.id, at, 0, open)] else [], so.remains)
  }

  /** The resting orders once one of them was crossed; one with nothing left is erased. */
  function Crossed(resting: map<Spot, SimOrder>, s: Spot, matched: bool, left: u32): (r: map<Spot, SimOrder>)
    requires s in resting
  {
    if matched && left == 0 then resting - {s} else resting[s := SimOrder(resting[s].id, left)]
  }

  /** `emplace`: an occupied spot keeps its order. */
  function Rests(resting: map<Spot, SimOrder>, s: Option<Spot>, id: u32, left: u32): (r: map<Spot, SimOrder>) {
    if s.Some? && s.value !in resting then resting[s.value := SimOrder(id, left)] else resting
  }

  // ----- the state and its steps -----

  /** What the session is configured with. */
  datatype Config = Config(ack: nat, cxl: nat, symbols: set<nat>)

  /** What an order met on arrival: its instrument's best quote, and an order at its own price. */
  datatype Seen = Seen(market: Option<Market>, occupied: bool)

  datatype Sim = Sim(
    ts: int,                          // m_ts; 0 is "no time yet"
    eventq: seq<SimEvent>,            // m_eventq
    registered: set<u32>,             // the keys of m_orders
    resting: map<Spot, SimOrder>,
    market: map<nat, Market>,         // instruments with a book
    phases: map<nat, Phase>,
    om: Table,                        // the order manager
    delivered: seq<SimEvent>,         // the events serviced so far, in order
    scheduled: multiset<SimEvent>,    // every event ever put in the queue
    touched: set<u32>,                // orders whose owner's cancel request was accepted
    sentAt: map<u32, int>,            // when each order was sent
    arrived: map<u32, Seen>)          // what each order met on arrival

  function BestOf(market: map<nat, Market>, instrument: nat): (r: Option<Market>) {
    if instrument in market then Some(market[instrument]) else None
  }

  /** Put events in the queue. */
  function Queue(s: Sim, news: seq<SimEvent>): (r: Sim) {
    s.(eventq := s.eventq + news, scheduled := s.scheduled + multiset(news))
  }

  /** `OrderManager::send` through this session's `send`. */
  function SendAsked(c: Config, s: Sim, terms: Terms, checks: bool): (r: Sim)
    requires s.om.localID < U32_MAX
  {
    var o := Sending(s.om, Fresh(terms), checks, s.ts != 0 && Supported(terms) && terms.instrument in c.symbols);
    Queue(s.(om := o.table, sentAt := s.sentAt[o.table.localID := s.ts]),
          if o.ok then [SimEvent(s.ts + c.ack, 0, SentE, o.table.localID, 0, 0.0)] else [])
  }

  /** `OrderManager::cancel` through this session's `cancel`. */
  function CancelAsked(c: Config, s: Sim, id: u32, newqty: u32): (r: Sim)
    requires Holds(s.om, id)
  {
    var t := s.om.slots[id].value.terms;
    var o := Cancelling(s.om, id, newqty, t.instrument in c.symbols && newqty < t.size);
    Queue(s.(om := o.table, touched := if o.ok then s.touched + {id} else s.touched),
          if o.ok then [SimEvent(s.ts + c.cxl, 0, PendingCancelE, id, newqty, 0.0)] else [])
  }

  /** One request. Naming no order, or sending beyond the last id, does nothing. */
  function Asked(c: Config, s: Sim, r: Request): (result: Sim) {
    match r
    case SendReq(terms, checks) => if s.om.localID < U32_MAX then SendAsked(c, s, terms, checks) else s
    case CancelReq(id, newqty) => if Holds(s.om, id) then CancelAsked(c, s, id, newqty) else s
  }

  function AskedAll(c: Config, s: Sim, rs: seq<Request>): (r: Sim) {
    if rs == [] then s else Asked(c, AskedAll(c, s, rs[..|rs| - 1]), rs[|rs| - 1])
  }

  /** What a request for a cancel does: it goes out exactly if the manager lets it, the symbol is known and the
      quantity is below the order's size, and then reaches the exchange one cancel latency later. */
  lemma CancelRequested(c: Config, s: Sim, id: u32, newqty: u32)
    requires Holds(s.om, id)
    ensures var s', o := CancelAsked(c, s, id, newqty), s.om.slots[id].value;
      var ok := !CancelRefused(o, newqty) && o.terms.instrument in c.symbols && newqty < o.terms.size;
      && s'.eventq == s.eventq + (if ok then [SimEvent(s.ts + c.cxl, 0, PendingCancelE, id, newqty, 0.0)] else [])
      && s'.touched == (if ok then s.touched + {id} else s.touched)
      && Holds(s'.om, id) && (ok ==> s'.om.slots[id].value.state == PendingCancel)
  {
  }

  /** Entry `i` leaves the queue, and the clock is at its time. */
  function Popped(s: Sim, i: nat): (r: Sim)
    requires i < |s.eventq|
  {
    s.(ts := s.eventq[i].ts, eventq := Without(s.eventq, i), delivered := s.delivered + [s.eventq[i]])
  }

  /** The order manager's update for a report. */
  function Reported(om: Table, e: SimEvent): (r: Table)
    requires Holds(om, e.id)
  {
    Put(om, e.id, Some(ReportedOrder(om.slots[e.id].value, e)))
  }

  /** The report closes the order's registration: a fill that leaves nothing open, a cancel of it all. */
  predicate Forgets(om: Table, e: SimEvent)
    requires Holds(om, e.id)
  {
    || (e.kind == FillE && ReportedOrder(om.slots[e.id].value, e).open == 0)
    || (e.kind == CancelE && e.size == om.slots[e.id].value.terms.size)
  }

  /** A report is passed to the order manager, which tells its listeners. */
  function Told(c: Config, f: Listeners, s: Sim, e: SimEvent): (r: Sim)
    requires Holds(s.om, e.id)
  {
    var told := AskedAll(c, s.(om := Reported(s.om, e)), f(s.delivered));
    if Forgets(s.om, e) then told.(registered := told.registered - {e.id}) else told
  }

  lemma {:induction false} AskingRegistersNone(c: Config, s: Sim, rs: seq<Request>)
    ensures AskedAll(c, s, rs).registered == s.registered
  {
    hide Sending, Cancelling;
    if rs != [] { AskingRegistersNone(c, s, rs[..|rs| - 1]); }
  }

  /** The exchange forgets an order, so that it refuses its cancels, exactly when a fill leaves none of it open
      or a cancel takes its whole size at once. */
  lemma ForgottenIff(c: Config, f: Listeners, s: Sim, e: SimEvent)
    requires Holds(s.om, e.id) && e.kind !in {SentE, PendingCancelE}
    ensures var o := s.om.slots[e.id].value;
      var ends := (e.kind == FillE && e.size == o.open) || (e.kind == CancelE && e.size == o.terms.size);
      Told(c, f, s, e).registered == if ends then s.registered - {e.id} else s.registered
  {
    hide AskedAll, OnAck, OnCancel, OnCancelRejected;
    AskingRegistersNone(c, s.(om := Reported(s.om, e)), f(s.delivered));
  }

  /** What the order meets on arrival. */
  function Meets(s: Sim, id: u32): (r: Seen)
    requires Holds(s.om, id)
  {
    var t := s.om.slots[id].value.terms;
    Seen(BestOf(s.market, t.instrument), OwnSpot(t) in s.resting)
  }

  function ArrivalAt(c: Config, s: Sim, id: u32): (r: Arrival)
    requires Holds(s.om, id)
  {
    var t, m := s.om.slots[id].value.terms, Meets(s, id);
    ArrivalOf(t, id, s.ts, c.ack, c.cxl, m.market, m.occupied, AuctionAhead(t, PhaseOf(s.phases, t.instrument)))
  }

  /** The order reaches the exchange: it is registered, matched against the book, and its reports are
      scheduled. */
  function Arrived(c: Config, s: Sim, e: SimEvent): (r: Sim)
    requires Holds(s.om, e.id)
  {
    var a := ArrivalAt(c, s, e.id);
    Queue(s.(registered := s.registered + {e.id}, resting := Rests(s.resting, a.spot, e.id, a.left),
             arrived := s.arrived[e.id := Meets(s, e.id)]), a.news)
  }

  /** The books agree on the spot. */
  predicate SameAt(a: map<Spot, SimOrder>, b: map<Spot, SimOrder>, spot: Spot) {
    (spot in a <==> spot in b) && (spot in a ==> a[spot] == b[spot])
  }

  /** Where the order rests if it does. */
  function SpotOf(t: Terms): (r: Spot) {
    if Auction(t) then AuctionSpot(t) else OwnSpot(t)
  }

  /** The shares newly at a spot. */
  function Rested(resting: map<Spot, SimOrder>, resting': map<Spot, SimOrder>, spot: Spot): (r: nat) {
    if spot in resting' && spot !in resting then resting'[spot].remains else 0
  }

  /** The order is for an auction and another one waits for it at the same price. */
  ghost predicate AuctionPriceTaken(s: Sim, t: Terms) {
    Auction(t) && AuctionAhead(t, PhaseOf(s.phases, t.instrument)) && AuctionSpot(t) in s.resting
  }

  /** An order outside the auctions never meets another one where it comes to rest; one for an auction rests
      exactly if its auction is ahead. */
  lemma ArrivalSpotFree(t: Terms, id: u32, now: int, ack: nat, cxl: nat, m: Option<Market>, occupied: bool, ahead: bool)
    requires t.side != UnknownSide
    ensures var a := ArrivalOf(t, id, now, ack, cxl, m, occupied, ahead);
      && (a.spot.Some? ==> a.spot.value == SpotOf(t) && (!Auction(t) ==> !occupied))
      && (Auction(t) ==> (a.spot.Some? <==> ahead) && (ahead ==> a.left == t.size))
  {
  }

  /** The shares newly at the order's spot: what is left to rest, if the spot was free. */
  lemma RestsAdds(resting: map<Spot, SimOrder>, t: Terms, spot: Option<Spot>, id: u32, left: u32)
    requires spot.Some? ==> spot.value == SpotOf(t)
    ensures var resting' := Rests(resting, spot, id, left);
      && Rested(resting, resting', SpotOf(t)) == (if spot.Some? && spot.value !in resting then left else 0)
      && (forall s :: s != SpotOf(t) || s in resting ==> SameAt(resting', resting, s))
      && (SpotOf(t) in resting' && SpotOf(t) !in resting ==> resting'[SpotOf(t)].id == id)
  {
    hide SpotOf;
  }

  /** An arrival loses no share if and only if it is not for an auction for which another order waits at
      the same price: then it is acknowledged, but the earlier entry stays and the order is nowhere.
      Nothing else in the book changes. */
  lemma ArrivedAccountsIff(c: Config, s: Sim, e: SimEvent)
    requires Holds(s.om, e.id) && s.om.slots[e.id].value.terms.side != UnknownSide && s.om.slots[e.id].value.terms.size > 0
    ensures var t, s' := s.om.slots[e.id].value.terms, Arrived(c, s, e);
      && s.eventq <= s'.eventq && s'.registered == s.registered + {e.id}
      && (forall spot :: spot != SpotOf(t) || spot in s.resting ==> SameAt(s'.resting, s.resting, spot))
      && (SpotOf(t) in s'.resting && SpotOf(t) !in s.resting ==> s'.resting[SpotOf(t)].id == e.id)
      && (TakenIn(s'.eventq[|s.eventq|..], e.id) + Rested(s.resting, s'.resting, SpotOf(t)) == t.size <==> !AuctionPriceTaken(s, t))
  {
    hide TakenIn, ArrivalOf, AuctionAhead, Rests, Rested, SameAt, OwnSpot, AuctionSpot;
    var t, m, s' := s.om.slots[e.id].value.terms, Meets(s, e.id), Arrived(c, s, e);
    var a, ahead := ArrivalAt(c, s, e.id), AuctionAhead(t, PhaseOf(s.phases, t.instrument));
    ArrivalAccounts(t, e.id, s.ts, c.ack, c.cxl, m.market, m.occupied, ahead);
    ArrivalSpotFree(t, e.id, s.ts, c.ack, c.cxl, m.market, m.occupied, ahead);
    RestsAdds(s.resting, t, a.spot, e.id, a.left);
    assert s'.eventq[|s.eventq|..] == a.news;
  }

  /** A cancel request reaches the exchange and is answered. */
  function Answered(c: Config, s: Sim, e: SimEvent, stale: u32): (r: Sim)
    requires Holds(s.om, e.id)
  {
    var a := CancelAnswer(e.id in s.registered, s.om.slots[e.id].value, e, c.cxl, s.resting, stale);
    Queue(s.(resting := a.resting), [a.news])
  }

  /** The handler of an event; `stale` is what the memory of an erased entry holds. */
  function Handled(c: Config, f: Listeners, s: Sim, e: SimEvent, stale: u32): (r: Sim)
    requires Holds(s.om, e.id)
  {
    match e.kind
    case SentE => Arrived(c, s, e)
    case PendingCancelE => Answered(c, s, e, stale)
    case _ => Told(c, f, s, e)
  }

  /** The next event was serviced: one the priority queue may yield left the queue, the clock moved to its
      time, and its handler ran. */
  ghost predicate Serviced(c: Config, f: Listeners, s: Sim, s': Sim) {
    exists i: nat, stale: u32 ::
      i < |s.eventq| && IsTop(s.eventq, i) && Holds(s.om, s.eventq[i].id) && s' == Handled(c, f, Popped(s, i), s.eventq[i], stale)
  }

  predicate SomeDue(q: seq<SimEvent>, limit: int) {
    exists j :: 0 <= j < |q| && q[j].ts < limit
  }

  /** `n` events were serviced, each while some event was due before `limit`. */
  ghost predicate Reached(c: Config, f: Listeners, s: Sim, limit: int, s': Sim, n: nat)
    decreases n
  {
    if n == 0 then s' == s
    else exists mid: Sim :: Reached(c, f, s, limit, mid, n - 1) && SomeDue(mid.eventq, limit) && Serviced(c, f, mid, s')
  }

  /** The whole service loop up to `now`. */
  ghost predicate Ran(c: Config, f: Listeners, s: Sim, now: int, s': Sim, n: nat) {
    exists t: Sim :: Reached(c, f, s, now, t, n) && !SomeDue(t.eventq, now) && s' == t.(ts := now)
  }

  /** A trade or a better quote meets one resting order. */
  function CrossedAt(c: Config, s: Sim, spot: Spot, avail: u32, price: real, at: int, matched: bool, front: bool, cxlRemainder: bool): (r: Sim)
    requires spot in s.resting && Holds(s.om, s.resting[spot].id)
  {
    var so := s.resting[spot];
    var x := CrossOne(s.om.slots[so.id].value, so, avail, price, at + c.ack, matched, front, cxlRemainder);
    Queue(s.(resting := Crossed(s.resting, spot, matched, x.1)), x.0)
  }
}
