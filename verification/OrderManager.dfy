/** The order manager in its own form: order objects updated in place through a table of references,
    and a log appended to by every handler (`src/oe/OrderManager.cpp`). Each method is proved against
    the operation on `OrderTable.Table` of the same name. */
module OrderManager {
  import opened Basics
  import opened Orders
  import opened OrderTable

  class Order {
    const terms: Terms
    var localID: u32
    var routed: bool
    var state: OrderState
    var openSize: u32
    var filledSize: u32
    var cancelledSize: u32
    var totalValuePaid: real
    var lastResponseTime: int
    var lastExchangeTime: int
    var lastFillFeeCode: int
    var pendingCancelNewQty: u32

    ghost function View(): (r: OrderV)
      reads this
    {
      OrderV(terms, localID, routed, state, openSize, filledSize, cancelledSize, totalValuePaid,
             lastResponseTime, lastExchangeTime, lastFillFeeCode, pendingCancelNewQty)
    }

    constructor (terms: Terms)
      ensures View() == Fresh(terms)
    {
      this.terms := terms;
      localID, routed, state := 0, false, NewAndUnsent;
      openSize, filledSize, cancelledSize, totalValuePaid := 0, 0, 0, 0.0;
      lastResponseTime, lastExchangeTime, lastFillFeeCode, pendingCancelNewQty := 0, 0, 0, U32_MAX;
    }

    predicate ValidateBase()
      reads this
      ensures ValidateBase() <==> BaseValid(View())
    {
      && state == NewAndUnsent && terms.price > EPSILON && terms.size > 0
      && terms.side != UnknownSide && terms.tif != UnknownTif && terms.kind != UnknownType
    }

    predicate Terminal()
      reads this
      ensures Terminal() <==> IsTerminal(View())
    {
      || openSize == 0
      || state == LocallyRejected || state == RemotelyRejected || state == OrderState.Cancelled
      || state == Filled || state == NewAndUnsent || state == CancelReplaced || state == Unknown
    }

    method UpdateOnAck(size: u32, ts: int, xts: int)
      modifies this
      ensures View() == OnAck(old(View()), size, ts, xts)
    {
      openSize := size;
      state := Acknowledged;
      lastResponseTime := ts;
      lastExchangeTime := xts;
    }

    method UpdateOnReject(ts: int, xts: int)
      modifies this
      ensures View() == OnReject(old(View()), ts, xts)
    {
      openSize := 0;
      state := RemotelyRejected;
      lastResponseTime := ts;
      lastExchangeTime := xts;
    }

    method UpdateOnFill(qty: u32, price: real, ts: int, xts: int, fee: int)
      modifies this
      ensures View() == OnFill(old(View()), qty, price, ts, xts, fee)
    {
      if Add32(qty, filledSize) == terms.size { state := Filled; } else { state := PartiallyFilled; }
      filledSize := Add32(filledSize, qty);
      openSize := Sub32(openSize, qty);
      totalValuePaid := totalValuePaid + price * qty as real;
      lastResponseTime := ts;
      lastExchangeTime := xts;
      lastFillFeeCode := fee;
    }

    method UpdateOnCancel(qty: u32, ts: int, xts: int)
      modifies this
      ensures View() == OnCancel(old(View()), qty, ts, xts)
    {
      if qty >= openSize {
        state := OrderState.Cancelled;
        cancelledSize := Add32(cancelledSize, qty);
        openSize := 0;
      } else {
        state := PartiallyCancelled;
        cancelledSize := Add32(cancelledSize, qty);
        openSize := Sub32(openSize, qty);
      }
      lastResponseTime := ts;
      lastExchangeTime := xts;
    }
  }

  /** An order that is sent again sits in two slots, one of them not its own. */
  lemma WrongSlot(t: Table, t': Table, v: OrderV, id: u32, checks: bool, accepted: bool, k: nat)
    requires Sound(t) && k < |t.slots| == |t'.slots| - 1 && t.slots[k].Some? && id == t'.localID == Add32(t.localID, 1)
    requires t'.slots[k] == Some(SentAs(v, id, checks, accepted))
    ensures !Sound(t')
  {
  }

  lemma SendingSound(t: Table, v: OrderV, checks: bool, accepted: bool)
    requires Sound(t)
    ensures var t' := Sending(t, v, checks, accepted).table;
      && t' == Table(Add32(t.localID, 1), t.slots + [Some(SentAs(v, Add32(t.localID, 1), checks, accepted))])
      && (Sound(t') <==> t.localID < U32_MAX)
  {
  }

  class OrderManager {
    var localID: u32
    var orders: seq<Order?>
    var log: seq<LogRecord>  // what m_blotter_p has written

    ghost function Slot(i: nat): (r: Option<OrderV>)
      requires i < |orders|
      reads this, orders
    {
      if orders[i] == null then None else Some(orders[i].View())
    }

    ghost function View(): (t: Table)
      reads this, orders
      ensures |t.slots| == |orders| && t.localID == localID
      ensures forall i :: 0 <= i < |orders| ==> t.slots[i] == Slot(i)
    {
      Table(localID, seq(|orders|, i requires 0 <= i < |orders| reads this, orders => Slot(i)))
    }

    ghost predicate Valid()
      reads this, orders
    {
      Sound(View())
    }

    /** The order is in the table, in the slot of its id. */
    ghost predicate Tracks(o: Order)
      reads this, orders, o
      ensures Tracks(o) ==> Holds(View(), o.localID) && View().slots[o.localID].value == o.View()
    {
      o.localID < |orders| && orders[o.localID] == o && View().slots[o.localID] == Slot(o.localID)
    }

    /** No order object entered the table, but for `o`. */
    twostate predicate NoNewcomers(new o: Order?)
      reads this`orders
    {
      forall i :: 0 <= i < |orders| ==> orders[i] == null || orders[i] == o || orders[i] in old(orders)
    }

    constructor ()
      ensures Valid() && View() == EMPTY && log == [] && orders == [null]
    {
      localID, orders, log := 0, [null], [];
    }

    /** The new id, the checks, and what they make of the order. */
    method Enter(o: Order, checks: bool, accepted: bool) returns (ok: bool)
      modifies this, o
      ensures orders == old(orders) + [o] && localID == Add32(old(localID), 1)
      ensures o.View() == SentAs(old(o.View()), localID, checks, accepted)
      ensures ok <==> old(BaseValid(o.View())) && checks && accepted
      ensures log == old(log) + [if ok then SentRec(localID, o.terms) else LocalRejectRec(localID)]
    {
      localID := Add32(localID, 1);
      o.localID := localID;
      orders := orders + [o];
      var passed := o.ValidateBase() && checks;
      if passed { o.routed := true; }
      if passed && accepted {
        o.state := OrderState.Sent;
        log := log + [SentRec(o.localID, o.terms)];
      } else {
        o.state := LocallyRejected;
        log := log + [LocalRejectRec(o.localID)];
      }
      ok := passed && accepted;
    }

    /** `send`; `checks` is the verdict of the order's own validation, the risk checks and the
        instrument's limits, `accepted` the session's answer. The table stays sound if and only if the
        order object is not in it yet and an id is left. */
    method Send(o: Order?, hasSession: bool, checks: bool, accepted: bool) returns (ok: bool)
      requires Valid()
      modifies this, o
      ensures o == null || !hasSession ==> !ok && Valid() && View() == old(View()) && log == old(log)
      ensures o != null && hasSession ==>
        && orders == old(orders) + [o] && localID == Add32(old(localID), 1) && o.View() == SentAs(old(o.View()), localID, checks, accepted)
        && (ok <==> old(BaseValid(o.View())) && checks && accepted)
        && log == old(log) + [if ok then SentRec(localID, o.terms) else LocalRejectRec(localID)]
        && (o !in old(orders) ==> View() == Sending(old(View()), old(o.View()), checks, accepted).table)
        && (Valid() <==> o !in old(orders) && old(localID) < U32_MAX)
      ensures NoNewcomers(o)
    {
      hide Sending, SentAs, BaseValid;
      if o == null || !hasSession { return false; }
      ghost var t, v, n := View(), o.View(), |orders|;
      ok := Enter(o, checks, accepted);
      if o in old(orders) {
        ghost var k :| 0 <= k < n && old(orders)[k] == o;
        assert t.slots[k].Some? && View().slots[k] == Slot(k) == Some(o.View());
        WrongSlot(t, View(), v, localID, checks, accepted, k);
      } else {
        assert forall i :: 0 <= i < n ==> Slot(i) == t.slots[i];
        assert View().slots == t.slots + [Some(o.View())];
        SendingSound(t, v, checks, accepted);
      }
    }

    /** An order in the table occupies only the slot of its own id. */
    lemma OwnSlot(o: Order)
      requires Valid() && o in orders
      ensures Tracks(o) && forall i :: 0 <= i < |orders| && orders[i] == o ==> i == o.localID
    {
      forall i | 0 <= i < |orders| && orders[i] == o ensures i == o.localID {
        assert View().slots[i].Some?;
      }
      var i :| 0 <= i < |orders| && orders[i] == o;
    }

    /** The table after one order changed in place. */
    twostate lemma ChangedInPlace(o: Order)
      requires old(Valid() && Tracks(o)) && orders == old(orders) && localID == old(localID)
      requires o.localID == old(o.localID)
      requires forall x :: x in orders && x != null && x != o ==> x.View() == old(x.View())
      ensures Valid() && View() == Put(old(View()), o.localID, Some(o.View()))
    {
      var was := old(View());
      forall i | 0 <= i < |orders| && orders[i] == o ensures i == o.localID {
        assert was.slots[i] == old(Slot(i)) == Some(old(o.View()));
      }
      assert forall i :: 0 <= i < |orders| && i != o.localID ==> Slot(i) == old(Slot(i));
      assert View().slots == Put(was, o.localID, Some(o.View())).slots;
    }

    /** `cancel`; `accepted` is the session's answer. */
    method Cancel(o: Order?, newqty: u32, accepted: bool) returns (ok: bool)
      requires Valid() && (o != null ==> Tracks(o))
      modifies this, o
      ensures Valid()
      ensures o == null ==> !ok && View() == old(View()) && log == old(log)
      ensures o != null ==>
        var s := Cancelling(old(View()), old(o.localID), newqty, accepted);
        View() == s.table && log == old(log) + s.log && ok == s.ok
      ensures NoNewcomers(null)
    {
      if o == null { return false; }
      if !o.routed { return false; }
      if o.Terminal() { return false; }
      if o.state == PendingCancel && o.pendingCancelNewQty <= newqty { return false; }
      if accepted {
        o.pendingCancelNewQty := newqty;
        o.state := PendingCancel;
        log := log + [CancelRequestRec(o.localID, newqty)];
        ChangedInPlace(o);
        return true;
      }
      return false;
    }

    /** `destroy`; `accepted` is the session's answer. An order that was never sent has no slot. */
    method Destroy(o: Order?, onlyIfTerminal: bool, accepted: bool) returns (ok: bool)
      requires Valid() && (o != null ==> Tracks(o) || o.localID == 0)
      modifies this
      ensures Valid()
      ensures o == null ==> !ok && View() == old(View()) && log == old(log)
      ensures o != null && old(Tracks(o)) ==>
        var s := Destroying(old(View()), o.localID, onlyIfTerminal, accepted);
        View() == s.table && log == old(log) + s.log && ok == s.ok
      ensures o != null && !old(Tracks(o)) ==>
        View() == old(View()) && (ok <==> !onlyIfTerminal || IsTerminal(o.View())) &&
        log == old(log) + if ok then [DestroyRec(0)] else []
      ensures NoNewcomers(null)
    {
      if o == null { return false; }
      if onlyIfTerminal && !o.Terminal() { return false; }
      if o.localID != 0 {
        if o.routed && !accepted { return false; }
        orders := orders[o.localID := null];
        assert forall i :: 0 <= i < |orders| && i != o.localID ==> Slot(i) == old(Slot(i));
        assert View().slots == Put(old(View()), o.localID, None).slots;
      }
      log := log + [DestroyRec(o.localID)];
      assert forall i :: 0 <= i < |orders| && (i != o.localID || o.localID == 0) ==> Slot(i) == old(Slot(i));
      return true;
    }

    /** An order that was never sent is in no slot. */
    lemma NotTracked(o: Order)
      requires Valid() && o.localID == 0
      ensures !Tracks(o)
    {
    }

    /** A record that is not about an order. */
    method LogOther()
      requires Valid()
      modifies this`log
      ensures Valid() && View() == old(View()) && log == old(log) + [Note]
    {
      log := log + [Note];
      assert forall i :: 0 <= i < |orders| ==> Slot(i) == old(Slot(i));
      assert View().slots == old(View()).slots;
    }

    method OnAcknowledged(o: Order?, size: u32, ts: int, xts: int)
      requires Valid() && (o != null ==> Tracks(o))
      modifies this, o
      ensures Valid()
      ensures o == null ==> View() == old(View()) && log == old(log)
      ensures o != null ==>
        var s := Live(old(View()), Command.Ack(old(o.localID), size, ts, xts));
        View() == s.table && log == old(log) + s.log
      ensures NoNewcomers(null)
    {
      if o == null { return; }
      o.UpdateOnAck(size, ts, xts);
      log := log + [AckRec(o.localID, o.openSize, o.lastResponseTime, o.lastExchangeTime)];
      ChangedInPlace(o);
    }

    method OnRejected(o: Order?, ts: int, xts: int)
      requires Valid() && (o != null ==> Tracks(o))
      modifies this, o
      ensures Valid()
      ensures o == null ==> View() == old(View()) && log == old(log)
      ensures o != null ==>
        var s := Live(old(View()), Command.Reject(old(o.localID), ts, xts));
        View() == s.table && log == old(log) + s.log
      ensures NoNewcomers(null)
    {
      if o == null { return; }
      o.UpdateOnReject(ts, xts);
      log := log + [RejectRec(o.localID, o.lastResponseTime, o.lastExchangeTime)];
      ChangedInPlace(o);
    }

    method OnFilled(o: Order?, qty: u32, price: real, ts: int, xts: int, fee: int)
      requires Valid() && (o != null ==> Tracks(o))
      modifies this, o
      ensures Valid()
      ensures o == null ==> View() == old(View()) && log == old(log)
      ensures o != null ==>
        var s := Live(old(View()), Command.Fill(old(o.localID), qty, price, ts, xts, fee));
        View() == s.table && log == old(log) + s.log
      ensures o != null && old(Conserved(o.View())) && qty <= old(o.openSize) ==>
        var full := old(o.filledSize) + qty == o.terms.size;
        && o.state == (if full then Filled else PartiallyFilled)
        && log == old(log) + [FillRec(old(o.localID), !full, qty, price, fee, ts, xts)]
      ensures NoNewcomers(null)
    {
      if o == null { return; }
      if Conserved(o.View()) && qty <= o.openSize { FillLogged(View(), o.localID, qty, price, ts, xts, fee); }
      o.UpdateOnFill(qty, price, ts, xts, fee);
      log := log + [FillRec(o.localID, o.state != Filled, qty, price, fee, o.lastResponseTime, o.lastExchangeTime)];
      ChangedInPlace(o);
    }

    method OnCancelRejected(o: Order?, ts: int, xts: int)
      requires Valid() && (o != null ==> Tracks(o))
      modifies this, o
      ensures Valid()
      ensures o == null ==> View() == old(View()) && log == old(log)
      ensures o != null ==>
        var s := Live(old(View()), Command.CancelReject(old(o.localID), ts, xts));
        View() == s.table && log == old(log) + s.log
      ensures NoNewcomers(null)
    {
      if o == null { return; }
      o.state := CancelRejected;
      o.pendingCancelNewQty := U32_MAX;
      o.lastResponseTime := ts;
      o.lastExchangeTime := xts;
      log := log + [CancelRejectRec(o.localID, o.lastResponseTime, o.lastExchangeTime)];
      ChangedInPlace(o);
    }

    method OnCancelled(o: Order?, qty: u32, ts: int, xts: int)
      requires Valid() && (o != null ==> Tracks(o))
      modifies this, o
      ensures Valid()
      ensures o == null ==> View() == old(View()) && log == old(log)
      ensures o != null ==>
        var s := Live(old(View()), Command.Cancelled(old(o.localID), qty, ts, xts));
        View() == s.table && log == old(log) + s.log
      ensures NoNewcomers(null)
    {
      if o == null { return; }
      o.UpdateOnCancel(qty, ts, xts);
      log := log + [CancelRec(o.localID, qty, o.lastResponseTime, o.lastExchangeTime)];
      ChangedInPlace(o);
    }

    // ----- the replay handlers -----

    /** `extend_local_id_helper`. */
    method ExtendLocalID(id: u32) returns (extended: bool)
      requires Valid()
      modifies this`localID, this`orders
      ensures Valid() && View() == Extend(old(View()), id)
      ensures extended <==> id > old(localID)
      ensures forall i :: 0 <= i < |old(orders)| ==> orders[i] == old(orders)[i]
      ensures forall o :: o in orders && o != null ==> o in old(orders)
      ensures NoNewcomers(null)
    {
      ExtendSound(View(), id);
      extended := id > localID;
      if extended && Add32(id, 1) > |orders| {
        orders := orders + seq(id + 1 - |orders|, _ => null);
        localID := id;
      }
      assert forall i :: 0 <= i < |old(orders)| ==> Slot(i) == old(Slot(i));
      assert View().slots == Extend(old(View()), id).slots;
    }

    /** `adopt_order_helper` without logging. The table stays sound if and only if no order is put in
        slot 0. */
    method Adopt(o: Order?, id: u32)
      requires Valid() && id < |orders| && (o != null ==> o !in orders)
      modifies this`orders, o
      ensures Valid() <==> o == null || id != 0
      ensures orders == old(orders)[id := o]
      ensures OrderTable.Adopt(old(View()), id, if o == null then None else Some(old(o.View()))) == Some(View())
    {
      if o != null {
        o.localID := id;
        o.state := OrderState.Sent;
      }
      orders := orders[id := o];
      assert forall i :: 0 <= i < |orders| && i != id ==> Slot(i) == old(Slot(i));
      assert View().slots == OrderTable.Adopt(old(View()), id, if o == null then None else Some(old(o.View()))).value.slots;
    }

    /** `on_log_order_sent`; `made` is the order the session created from the logged terms, if any. */
    method OnLogOrderSent(w: World, id: u32, terms: Terms, made: Order?)
      requires Valid() && InBounds(w, View(), SentRec(id, terms))
      requires made != null ==> made !in orders
      requires w.replayOrder(terms) == if made == null then None else Some(made.terms)
      requires made != null ==> made.View() == Fresh(made.terms)
      modifies this, made
      ensures Valid() && OnLog(w, old(View()), SentRec(id, terms)) == Some(View()) && log == old(log)
      ensures NoNewcomers(made)
    {
      OnLogSound(w, View(), SentRec(id, terms));
      if !w.instrumentKnown(terms.instrument) {
        Adopt(null, id);
      } else {
        ExtendSound(View(), id);
        var extended := ExtendLocalID(id);
        if !extended { return; }
        Adopt(made, id);
      }
    }

    method OnLogLocalReject(id: u32)
      requires Valid()
      modifies this
      ensures Valid() && View() == Extend(old(View()), id) && log == old(log)
      ensures NoNewcomers(null)
    {
      var _ := ExtendLocalID(id);
    }

    /** The order a record addresses, after extending the table to its id. */
    method Addressed(id: u32) returns (o: Order?)
      requires Valid() && (id <= localID || id < U32_MAX)
      modifies this`localID, this`orders
      ensures Valid() && View() == Extend(old(View()), id) && id < |orders| && o == orders[id]
      ensures o != null ==> Tracks(o) && o in old(orders) && o.localID == id
      ensures o == null ==> View().slots[id] == None
      ensures NoNewcomers(null)
    {
      ExtendSound(View(), id);
      var _ := ExtendLocalID(id);
      o := orders[id];
      if o != null { OwnSlot(o); }
    }

    method OnLogPendingCancel(id: u32, newqty: u32, w: World)
      requires Valid() && InBounds(w, View(), CancelRequestRec(id, newqty))
      modifies this, orders
      ensures Valid() && OnLog(w, old(View()), CancelRequestRec(id, newqty)) == Some(View()) && log == old(log)
      ensures NoNewcomers(null)
    {
      var o := Addressed(id);
      if o != null {
        label found:
        o.state := PendingCancel;
        ChangedInPlace@found(o);
      }
    }

    method OnLogDestroy(id: u32, w: World)
      requires Valid() && InBounds(w, View(), DestroyRec(id))
      modifies this
      ensures Valid() && OnLog(w, old(View()), DestroyRec(id)) == Some(View()) && log == old(log)
      ensures NoNewcomers(null)
    {
      var o := Addressed(id);
      if o != null {
        label found:
        orders := orders[id := null];
        assert forall i :: 0 <= i < |orders| && i != id ==> Slot(i) == old@found(Slot(i));
        assert View().slots == Put(old@found(View()), id, None).slots;
      }
    }

    method OnLogAcknowledged(id: u32, open: u32, ts: int, xts: int, w: World)
      requires Valid() && InBounds(w, View(), AckRec(id, open, ts, xts))
      modifies this, orders
      ensures Valid() && OnLog(w, old(View()), AckRec(id, open, ts, xts)) == Some(View()) && log == old(log)
      ensures NoNewcomers(null)
    {
      var o := Addressed(id);
      if o != null {
        label found:
        o.UpdateOnAck(open, ts, xts);
        ChangedInPlace@found(o);
      }
    }

    method OnLogRejected(id: u32, ts: int, xts: int, w: World)
      requires Valid() && InBounds(w, View(), RejectRec(id, ts, xts))
      modifies this, orders
      ensures Valid() && OnLog(w, old(View()), RejectRec(id, ts, xts)) == Some(View()) && log == old(log)
      ensures NoNewcomers(null)
    {
      var o := Addressed(id);
      if o != null {
        label found:
        o.UpdateOnReject(ts, xts);
        ChangedInPlace@found(o);
      }
    }

    method OnLogFilled(id: u32, partial: bool, qty: u32, price: real, fee: int, ts: int, xts: int, w: World)
      requires Valid() && InBounds(w, View(), FillRec(id, partial, qty, price, fee, ts, xts))
      modifies this, orders
      ensures Valid() && OnLog(w, old(View()), FillRec(id, partial, qty, price, fee, ts, xts)) == Some(View()) && log == old(log)
      ensures NoNewcomers(null)
    {
      var o := Addressed(id);
      if o != null {
        label found:
        o.UpdateOnFill(qty, price, ts, xts, fee);
        ChangedInPlace@found(o);
      }
    }

    method OnLogCancelRejected(id: u32, ts: int, xts: int, w: World)
      requires Valid() && InBounds(w, View(), CancelRejectRec(id, ts, xts))
      modifies this, orders
      ensures Valid() && OnLog(w, old(View()), CancelRejectRec(id, ts, xts)) == Some(View()) && log == old(log)
      ensures NoNewcomers(null)
    {
      var o := Addressed(id);
      if o != null {
        label found:
        o.state := CancelRejected;
        o.lastResponseTime := ts;
        ChangedInPlace@found(o);
      }
    }

    method OnLogCancelled(id: u32, qty: u32, ts: int, xts: int, w: World)
      requires Valid() && InBounds(w, View(), CancelRec(id, qty, ts, xts))
      modifies this, orders
      ensures Valid() && OnLog(w, old(View()), CancelRec(id, qty, ts, xts)) == Some(View()) && log == old(log)
      ensures NoNewcomers(null)
    {
      var o := Addressed(id);
      if o != null {
        label found:
        o.UpdateOnCancel(qty, ts, xts);
        ChangedInPlace@found(o);
      }
    }
  }
}
