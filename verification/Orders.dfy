/** What one order knows of itself, and how acknowledgements, fills, cancels and rejects change it:
    the `order_update_on_*` helpers of `src/oe/OrderManager.cpp` and the quantity arithmetic the BOE
    session builds on them. Sizes are 32-bit unsigned; prices and values are reals. */
module Orders {
  import opened Basics

  datatype Side = UnknownSide | Buy | Sell | Short | ShortExempt
  datatype OrderType = UnknownType | Market | Limit | Stop | MidpointPeg
  datatype TimeInForce = UnknownTif | Day | Ext | Gtc | AuctionOpen | AuctionClose | AuctionHalt
    | Timed | ImmediateOrCancel | FillOrKill

  datatype OrderState = Unknown | NewAndUnsent | LocallyRejected | Sent | Acknowledged | PartiallyFilled
    | Filled | PendingCancel | PartiallyCancelled | Cancelled | PendingCancelReplace | CancelReplaced
    | RemotelyRejected | CancelRejected

  /** What the order's creator fixed. */
  datatype Terms = Terms(instrument: nat, account: nat, price: real, size: u32, side: Side, tif: TimeInForce, kind: OrderType)

  datatype OrderV = OrderV(
    terms: Terms,
    id: u32,              // m_localID
    routed: bool,         // m_session_p is set
    state: OrderState,
    open: u32,
    filled: u32,
    cancelled: u32,
    paid: real,           // m_total_value_paid
    lastResponse: int,
    lastExchange: int,
    feeCode: int,
    pendingNewQty: u32)   // m_pendingcancel_newqty

  /** A newly created order. */
  function Fresh(terms: Terms): (r: OrderV) {
    OrderV(terms, 0, false, NewAndUnsent, 0, 0, 0, 0.0, 0, 0, 0, U32_MAX)
  }

  const EPSILON: real := 1.0 / 4503599627370496.0

  /** `validate_base`. */
  predicate BaseValid(o: OrderV) {
    && o.state == NewAndUnsent && o.terms.price > EPSILON && o.terms.size > 0
    && o.terms.side != UnknownSide && o.terms.tif != UnknownTif && o.terms.kind != UnknownType
  }

  predicate IsTerminal(o: OrderV) {
    || o.open == 0
    || o.state in {LocallyRejected, RemotelyRejected, Cancelled, Filled, NewAndUnsent, CancelReplaced, Unknown}
  }

  function OnAck(o: OrderV, size: u32, ts: int, xts: int): (r: OrderV) {
    o.(open := size, state := Acknowledged, lastResponse := ts, lastExchange := xts)
  }

  function OnReject(o: OrderV, ts: int, xts: int): (r: OrderV) {
    o.(open := 0, state := RemotelyRejected, lastResponse := ts, lastExchange := xts)
  }

  function OnFill(o: OrderV, qty: u32, price: real, ts: int, xts: int, fee: int): (r: OrderV) {
    o.(state := if Add32(qty, o.filled) == o.terms.size then Filled else PartiallyFilled,
       filled := Add32(o.filled, qty),
       open := Sub32(o.open, qty),
       paid := o.paid + price * qty as real,
       lastResponse := ts, lastExchange := xts, feeCode := fee)
  }

  function OnCancel(o: OrderV, qty: u32, ts: int, xts: int): (r: OrderV) {
    o.(state := if qty >= o.open then Cancelled else PartiallyCancelled,
       cancelled := Add32(o.cancelled, qty),
       open := if qty >= o.open then 0 else Sub32(o.open, qty),
       lastResponse := ts, lastExchange := xts)
  }

  function OnCancelRejected(o: OrderV, ts: int, xts: int): (r: OrderV) {
    o.(state := CancelRejected, pendingNewQty := U32_MAX, lastResponse := ts, lastExchange := xts)
  }

  function OnPendingCancel(o: OrderV, newqty: u32): (r: OrderV) {
    o.(state := PendingCancel, pendingNewQty := newqty)
  }

  /** `cancel` refuses without asking the session. */
  predicate CancelRefused(o: OrderV, newqty: u32) {
    !o.routed || IsTerminal(o) || (o.state == PendingCancel && o.pendingNewQty <= newqty)
  }

  // ----- conservation of quantity -----

  datatype Event =
    | Fill(qty: u32, price: real, ts: int, xts: int, fee: int)
    | Cancel(qty: u32, ts: int, xts: int)
    | CancelReject(ts: int, xts: int)
    | CancelRequest(newqty: u32)

  function Apply(o: OrderV, e: Event): (r: OrderV) {
    match e
    case Fill(qty, price, ts, xts, fee) => OnFill(o, qty, price, ts, xts, fee)
    case Cancel(qty, ts, xts) => OnCancel(o, qty, ts, xts)
    case CancelReject(ts, xts) => OnCancelRejected(o, ts, xts)
    case CancelRequest(newqty) => OnPendingCancel(o, newqty)
  }

  function ApplyAll(o: OrderV, es: seq<Event>): (r: OrderV)
    decreases |es|
  {
    if es == [] then o else ApplyAll(Apply(o, es[0]), es[1..])
  }

  /** No fill or cancel exceeds what is open when it arrives. */
  ghost predicate WithinOpen(o: OrderV, es: seq<Event>)
    decreases |es|
  {
    es != [] ==>
      && (es[0].Fill? || es[0].Cancel? ==> es[0].qty <= o.open)
      && WithinOpen(Apply(o, es[0]), es[1..])
  }

  function FilledQty(es: seq<Event>): (r: nat) {
    if es == [] then 0 else (if es[0].Fill? then es[0].qty else 0) + FilledQty(es[1..])
  }

  function CancelledQty(es: seq<Event>): (r: nat) {
    if es == [] then 0 else (if es[0].Cancel? then es[0].qty else 0) + CancelledQty(es[1..])
  }

  function FillValue(es: seq<Event>): (r: real) {
    if es == [] then 0.0 else (if es[0].Fill? then es[0].price * es[0].qty as real else 0.0) + FillValue(es[1..])
  }

  /** Every share is open, filled or cancelled; a filled order has none of the other two. */
  ghost predicate Conserved(o: OrderV) {
    && o.open + o.filled + o.cancelled == o.terms.size
    && (o.state == Filled ==> o.open == 0 && o.filled == o.terms.size)
  }

  lemma AckConserves(o: OrderV, ts: int, xts: int)
    requires o.filled == 0 && o.cancelled == 0
    ensures Conserved(OnAck(o, o.terms.size, ts, xts))
  {
  }

  lemma Commutes(a: u32, b: u32)
    ensures Add32(a, b) == Add32(b, a)
  {
  }

  lemma ConservedStep(o: OrderV, e: Event)
    requires Conserved(o) && (e.Fill? || e.Cancel? ==> e.qty <= o.open)
    ensures var o' := Apply(o, e);
      && Conserved(o') && o'.terms == o.terms
      && o'.filled == o.filled + (if e.Fill? then e.qty else 0)
      && o'.cancelled == o.cancelled + (if e.Cancel? then e.qty else 0)
      && o'.paid == o.paid + (if e.Fill? then e.price * e.qty as real else 0.0)
  {
    if e.Fill? || e.Cancel? {
      Sub32Exact(o.open, e.qty);
      Add32Exact(o.filled, if e.Fill? then e.qty else 0);
      Add32Exact(o.cancelled, if e.Cancel? then e.qty else 0);
    }
    hide Add32, Sub32;
    if e.Fill? { assert Add32(e.qty, o.filled) == Add32(o.filled, e.qty) by { Commutes(e.qty, o.filled); } }
  }

  /** From an acknowledged order on, in every reachable state the shares add up, and the totals are
      those of the events. */
  lemma {:induction false} ConservedThroughout(o: OrderV, es: seq<Event>)
    requires Conserved(o) && WithinOpen(o, es)
    ensures var o' := ApplyAll(o, es);
      && Conserved(o') && o'.terms == o.terms
      && o'.filled == o.filled + FilledQty(es)
      && o'.cancelled == o.cancelled + CancelledQty(es)
      && o'.paid == o.paid + FillValue(es)
    decreases |es|
  {
    if es != [] {
      ConservedStep(o, es[0]);
      ConservedThroughout(Apply(o, es[0]), es[1..]);
    }
  }

  // ----- how an order ends -----

  /** Nothing of the order can trade any more. */
  ghost predicate Done(o: OrderV) {
    IsTerminal(o) && o.open == 0
  }

  /** The state an event leaves, by sizes alone: a fill fills the order exactly when it brings the filled
      shares to its size, a cancel cancels it exactly when it takes all that is open, and either way it is
      then done. */
  lemma EndStates(o: OrderV, e: Event)
    requires Conserved(o) && (e.Fill? || e.Cancel? ==> e.qty <= o.open)
    ensures var o' := Apply(o, e);
      && (e.Fill? ==> o'.state == if o.filled + e.qty == o.terms.size then Filled else PartiallyFilled)
      && (e.Cancel? ==> o'.state == if o.open == e.qty then Cancelled else PartiallyCancelled)
      && (e.CancelReject? ==> o'.state == CancelRejected && o'.open == o.open && o'.pendingNewQty == U32_MAX)
      && (e.CancelRequest? ==> o'.state == PendingCancel && o'.open == o.open && o'.pendingNewQty == e.newqty)
      && (o'.state == Filled || o'.state == OrderState.Cancelled ==> Done(o'))
      && (!e.CancelRequest? ==> o'.lastResponse == e.ts && o'.lastExchange == e.xts)
      && (e.Fill? ==> o'.feeCode == e.fee)
  {
    if e.Fill? {
      Add32Exact(e.qty, o.filled);
      Sub32Exact(o.open, e.qty);
    }
  }

  /** An acknowledged order has what was acknowledged open, and is not done unless that is nothing. */
  lemma AckOpens(o: OrderV, size: u32, ts: int, xts: int)
    ensures var o' := OnAck(o, size, ts, xts);
      && o'.open == size && o'.state == Acknowledged && o'.lastResponse == ts && o'.lastExchange == xts
      && (IsTerminal(o') <==> size == 0)
  {
  }

  /** A rejected order is done, whatever it was before. */
  lemma RejectEnds(o: OrderV, ts: int, xts: int)
    ensures var o' := OnReject(o, ts, xts);
      Done(o') && o'.state == RemotelyRejected && o'.lastResponse == ts && o'.lastExchange == xts
  {
  }

  lemma {:induction false} ApplyLast(o: OrderV, es: seq<Event>)
    requires es != [] && WithinOpen(o, es)
    ensures var init, last := es[..|es| - 1], es[|es| - 1];
      && WithinOpen(o, init) && ApplyAll(o, es) == Apply(ApplyAll(o, init), last)
      && (last.Fill? || last.Cancel? ==> last.qty <= ApplyAll(o, init).open)
      && FilledQty(es) == FilledQty(init) + (if last.Fill? then last.qty else 0)
      && CancelledQty(es) == CancelledQty(init) + (if last.Cancel? then last.qty else 0)
    decreases |es|
  {
    if |es| > 1 {
      ApplyLast(Apply(o, es[0]), es[1..]);
      assert es[1..][..|es| - 2] == es[..|es| - 1][1..];
    }
  }

  /** The state an acknowledged order is in after any events: its last event says what happened, and the
      totals of all events say whether that was the end. */
  lemma RunEnds(o: OrderV, es: seq<Event>)
    requires Conserved(o) && o.filled == 0 && o.cancelled == 0 && WithinOpen(o, es) && es != []
    ensures var state, gone := ApplyAll(o, es).state, FilledQty(es) + CancelledQty(es);
      match es[|es| - 1]
      case Fill(_, _, _, _, _) => state == if FilledQty(es) == o.terms.size then Filled else PartiallyFilled
      case Cancel(_, _, _) => state == if gone == o.terms.size then OrderState.Cancelled else PartiallyCancelled
      case CancelReject(_, _) => state == CancelRejected
      case CancelRequest(_) => state == PendingCancel
  {
    hide Apply;
    var init := es[..|es| - 1];
    ApplyLast(o, es);
    ConservedThroughout(o, init);
    EndStates(ApplyAll(o, init), es[|es| - 1]);
  }

  // ----- the BOE modify message -----

  /** The quantity `send_modify` puts on the wire, in 32-bit arithmetic. */
  function ModifyQty(o: OrderV, newqty: u32): (r: u32) {
    Sub32(Add32(newqty, Sub32(o.terms.size, o.cancelled)), o.open)
  }

  /** The handler of an `OrderModified` message carrying `leaves` open shares. */
  function OnModified(o: OrderV, leaves: u32, ts: int, xts: int): (r: OrderV) {
    if leaves != o.open then OnCancel(o, Sub32(o.open, leaves), ts, xts) else o
  }

  /** The exchange is told the shares already filled plus those to stay open, and no step of the
      computation goes below zero. */
  lemma ModifyTellsFilledPlusNew(o: OrderV, newqty: u32)
    requires Conserved(o)
    ensures o.terms.size >= o.cancelled && newqty + (o.terms.size - o.cancelled) >= o.open
    ensures ModifyQty(o, newqty) == (newqty + o.filled) % 0x1_0000_0000
    ensures newqty <= o.open ==> ModifyQty(o, newqty) == newqty + o.filled <= o.terms.size
  {
    var a := Sub32(o.terms.size, o.cancelled);
    assert a == o.open + o.filled;
    var x := newqty + a;
    if x < 0x1_0000_0000 {
      assert Add32(newqty, a) == x;
    } else {
      assert Add32(newqty, a) == x - 0x1_0000_0000;
    }
  }

  /** An `OrderModified` leaves exactly the shares it names open if and only if it does not raise
      them; conservation then survives. */
  lemma ModifiedSetsOpen(o: OrderV, leaves: u32, ts: int, xts: int)
    ensures OnModified(o, leaves, ts, xts).open == leaves <==> leaves <= o.open
    ensures Conserved(o) && leaves <= o.open ==> Conserved(OnModified(o, leaves, ts, xts))
  {
    if leaves <= o.open {
      assert Sub32(o.open, leaves) == o.open - leaves;
    } else {
      assert Sub32(o.open, leaves) == o.open - leaves + 0x1_0000_0000 > o.open;
    }
  }
}
