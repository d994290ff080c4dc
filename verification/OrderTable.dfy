/** The order table as a value: what each live operation of the order manager does to it and logs,
    and what each logged record does to it on replay (`src/oe/OrderManager.cpp`,
    `src/oe/FileBlotter.cpp`). */
module OrderTable {
  import opened Basics
  import opened Orders

  /** `m_localID` and `m_orders`, orders held by value. */
  datatype Table = Table(localID: u32, slots: seq<Option<OrderV>>)

  const EMPTY := Table(0, [None])

  /** Slot 0 stays empty, the ids end at `localID`, every order sits in the slot of its own id. */
  ghost predicate Sound(t: Table) {
    && |t.slots| == t.localID + 1
    && t.slots[0] == None
    && forall i :: 0 <= i < |t.slots| && t.slots[i].Some? ==> t.slots[i].value.id == i
  }

  /** The order records of the log; `Note` is any record that leaves orders alone. */
  datatype LogRecord =
    | SentRec(id: u32, terms: Terms)
    | LocalRejectRec(id: u32)
    | AckRec(id: u32, open: u32, ts: int, xts: int)
    | FillRec(id: u32, partial: bool, qty: u32, price: real, fee: int, ts: int, xts: int)
    | CancelRequestRec(id: u32, newqty: u32)
    | CancelRec(id: u32, qty: u32, ts: int, xts: int)
    | RejectRec(id: u32, ts: int, xts: int)
    | CancelRejectRec(id: u32, ts: int, xts: int)
    | DestroyRec(id: u32)
    | Note

  function Put(t: Table, id: u32, o: Option<OrderV>): (r: Table)
    requires id < |t.slots|
  {
    t.(slots := t.slots[id := o])
  }

  predicate Holds(t: Table, id: u32) {
    id < |t.slots| && t.slots[id].Some?
  }

  // ----- live operations -----

  /** One operation on the live manager, with the answers of the risk checks and the session. */
  datatype Command =
    | Send(terms: Terms, checks: bool, accepted: bool)
    | Cancel(id: u32, newqty: u32, accepted: bool)
    | Destroy(id: u32, onlyIfTerminal: bool, accepted: bool)
    | DestroyUnsent
    | Ack(id: u32, size: u32, ts: int, xts: int)
    | Reject(id: u32, ts: int, xts: int)
    | Fill(id: u32, qty: u32, price: real, ts: int, xts: int, fee: int)
    | CancelReject(id: u32, ts: int, xts: int)
    | Cancelled(id: u32, qty: u32, ts: int, xts: int)
    | Other  // sessions, strategies, positions: logged, but nothing to do with orders

  datatype Outcome = Outcome(table: Table, log: seq<LogRecord>, ok: bool)

  /** What `send` makes of an order: the next id, and sent if every check and the session agree. */
  function SentAs(o: OrderV, id: u32, checks: bool, accepted: bool): (r: OrderV) {
    var passed := BaseValid(o) && checks;
    o.(id := id, routed := o.routed || passed, state := if passed && accepted then OrderState.Sent else LocallyRejected)
  }

  /** `send`; the id wraps after the last one. */
  function Sending(t: Table, o: OrderV, checks: bool, accepted: bool): (r: Outcome) {
    var id := Add32(t.localID, 1);
    var ok := BaseValid(o) && checks && accepted;
    Outcome(Table(id, t.slots + [Some(SentAs(o, id, checks, accepted))]), [if ok then SentRec(id, o.terms) else LocalRejectRec(id)], ok)
  }

  function Cancelling(t: Table, id: u32, newqty: u32, accepted: bool): (r: Outcome)
    requires Holds(t, id)
  {
    var o := t.slots[id].value;
    if CancelRefused(o, newqty) || !accepted then Outcome(t, [], false)
    else Outcome(Put(t, id, Some(OnPendingCancel(o, newqty))), [CancelRequestRec(id, newqty)], true)
  }

  function Destroying(t: Table, id: u32, onlyIfTerminal: bool, accepted: bool): (r: Outcome)
    requires Holds(t, id)
  {
    var o := t.slots[id].value;
    if (onlyIfTerminal && !IsTerminal(o)) || (o.routed && !accepted) then Outcome(t, [], false)
    else Outcome(Put(t, id, None), [DestroyRec(id)], true)
  }

  /** A callback from the exchange: the handler's update and its record. */
  function Updating(t: Table, id: u32, o: OrderV, r: LogRecord): (result: Outcome)
    requires Holds(t, id)
  {
    Outcome(Put(t, id, Some(o)), [r], true)
  }

  /** The operation addresses an order in the table, if any. */
  ghost predicate Possible(t: Table, c: Command) {
    match c
    case Send(_, _, _) => true
    case DestroyUnsent => true
    case Other => true
    case _ => Holds(t, c.id)
  }

  /** Sends have an id left. */
  ghost predicate InRange(t: Table, c: Command) {
    c.Send? ==> t.localID < U32_MAX
  }

  /** What the log can tell apart: besides, exchange callbacks address an order whose send succeeded. */
  ghost predicate Allowed(t: Table, c: Command) {
    && Possible(t, c) && InRange(t, c)
    && (c.Ack? || c.Reject? || c.Fill? || c.CancelReject? || c.Cancelled? ==> t.slots[c.id].value.state != LocallyRejected)
  }

  function Live(t: Table, c: Command): (r: Outcome)
    requires Possible(t, c)
  {
    match c
    case Send(terms, checks, accepted) => Sending(t, Fresh(terms), checks, accepted)
    case Cancel(id, newqty, accepted) => Cancelling(t, id, newqty, accepted)
    case Destroy(id, onlyIfTerminal, accepted) => Destroying(t, id, onlyIfTerminal, accepted)
    case DestroyUnsent => Outcome(t, [DestroyRec(0)], true)
    case Ack(id, size, ts, xts) => Updating(t, id, OnAck(t.slots[id].value, size, ts, xts), AckRec(id, size, ts, xts))
    case Reject(id, ts, xts) => Updating(t, id, OnReject(t.slots[id].value, ts, xts), RejectRec(id, ts, xts))
    case Fill(id, qty, price, ts, xts, fee) =>
      var o := OnFill(t.slots[id].value, qty, price, ts, xts, fee);
      Updating(t, id, o, FillRec(id, o.state != Filled, qty, price, fee, ts, xts))
    case CancelReject(id, ts, xts) =>
      Updating(t, id, OnCancelRejected(t.slots[id].value, ts, xts), CancelRejectRec(id, ts, xts))
    case Cancelled(id, qty, ts, xts) =>
      Updating(t, id, OnCancel(t.slots[id].value, qty, ts, xts), CancelRec(id, qty, ts, xts))
    case Other => Outcome(t, [Note], true)
  }

  /** The record of a fill within what is open says "partial" exactly when it leaves the order unfilled. */
  lemma FillLogged(t: Table, id: u32, qty: u32, price: real, ts: int, xts: int, fee: int)
    requires Holds(t, id) && Conserved(t.slots[id].value) && qty <= t.slots[id].value.open
    ensures var o := t.slots[id].value;
      && Live(t, Command.Fill(id, qty, price, ts, xts, fee)).log == [FillRec(id, o.filled + qty != o.terms.size, qty, price, fee, ts, xts)]
      && OnFill(o, qty, price, ts, xts, fee).state == if o.filled + qty == o.terms.size then Filled else PartiallyFilled
  {
    EndStates(t.slots[id].value, Event.Fill(qty, price, ts, xts, fee));
  }

  /** The manager lets an order out only with a price, a size, a side, a lifetime and a type, when the checks
      and the session agree; otherwise it is locally rejected. Either way it has the next id, and nothing of
      it is open, filled or cancelled. */
  lemma SendGoesOutIff(t: Table, terms: Terms, checks: bool, accepted: bool)
    requires Sound(t) && t.localID < U32_MAX
    ensures var s, id := Sending(t, Fresh(terms), checks, accepted), t.localID + 1;
      && (s.ok <==> checks && accepted && terms.price * 4503599627370496.0 > 1.0 && terms.size > 0
                    && terms.side != UnknownSide && terms.tif != UnknownTif && terms.kind != UnknownType)
      && s.log == [if s.ok then SentRec(id, terms) else LocalRejectRec(id)]
      && s.table.localID == id && s.table.slots[..id] == t.slots
      && s.table.slots[id].Some? && var o := s.table.slots[id].value;
        && o.terms == terms && o.id == id && o.open == o.filled == o.cancelled == 0
        && o.state == if s.ok then OrderState.Sent else LocallyRejected
  {
  }

  /** A cancel goes out exactly for a routed order with open shares that has not come to an end, and while one
      is pending only to leave fewer; then only its order changes, to pending with the new quantity. */
  lemma CancelGoesOutIff(t: Table, id: u32, newqty: u32, accepted: bool)
    requires Holds(t, id)
    ensures var s, o := Cancelling(t, id, newqty, accepted), t.slots[id].value;
      && (s.ok <==> accepted && o.routed && o.open > 0
                    && o.state in {OrderState.Sent, Acknowledged, PartiallyFilled, PendingCancel, PartiallyCancelled, PendingCancelReplace, CancelRejected}
                    && (o.state == PendingCancel ==> newqty < o.pendingNewQty))
      && s.log == (if s.ok then [CancelRequestRec(id, newqty)] else [])
      && s.table == if s.ok then Put(t, id, Some(o.(state := PendingCancel, pendingNewQty := newqty))) else t
  {
  }

  /** An order leaves the table exactly when it is done, or need not be, and the session lets a routed one go. */
  lemma DestroyedIff(t: Table, id: u32, onlyIfTerminal: bool, accepted: bool)
    requires Holds(t, id)
    ensures var s, o := Destroying(t, id, onlyIfTerminal, accepted), t.slots[id].value;
      && (s.ok <==> (!onlyIfTerminal || IsTerminal(o)) && (!o.routed || accepted))
      && s.log == (if s.ok then [DestroyRec(id)] else [])
      && (s.ok <==> !Holds(s.table, id)) && (!s.ok ==> s.table == t)
      && forall k: u32 :: k != id ==> (Holds(s.table, k) <==> Holds(t, k)) && (Holds(t, k) ==> s.table.slots[k] == t.slots[k])
  {
  }

  ghost predicate AllowedAll(t: Table, cs: seq<Command>)
    decreases |cs|
  {
    cs != [] ==> Allowed(t, cs[0]) && AllowedAll(Live(t, cs[0]).table, cs[1..])
  }

  /** A whole run: the final table and everything logged. */
  ghost function LiveAll(t: Table, cs: seq<Command>): (r: Outcome)
    requires AllowedAll(t, cs)
    decreases |cs|
  {
    if cs == [] then Outcome(t, [], true)
    else
      var first := Live(t, cs[0]);
      var later := LiveAll(first.table, cs[1..]);
      Outcome(later.table, first.log + later.log, true)
  }

  // ----- replay -----

  /** What a replayed `ORDER_SENT` depends on: the instruments that are configured, and the order the
      named session makes from the logged terms, if there is such a session and it makes one. */
  datatype World = World(instrumentKnown: nat -> bool, replayOrder: Terms -> Option<Terms>)

  /** Everything the log mentions is still configured. */
  ghost predicate Faithful(w: World) {
    (forall i :: w.instrumentKnown(i)) && forall terms :: w.replayOrder(terms) == Some(terms)
  }

  /** `extend_local_id_helper`; the comparison with the table's size is in 32 bits. */
  function Extend(t: Table, id: u32): (r: Table) {
    if id <= t.localID || Add32(id, 1) <= |t.slots| then t
    else Table(id, t.slots + seq(id + 1 - |t.slots|, _ => None))
  }

  /** Apply `f` to the order in slot `id` after extending the table; None is an access outside
      `m_orders`. */
  function Update(t: Table, id: u32, f: OrderV -> Option<OrderV>): (r: Option<Table>) {
    var t' := Extend(t, id);
    if id >= |t'.slots| then None
    else if t'.slots[id].None? then Some(t')
    else Some(Put(t', id, f(t'.slots[id].value)))
  }

  /** `adopt_order_helper`: the slot's new occupant, its id and state set. */
  function Adopt(t: Table, id: u32, o: Option<OrderV>): (r: Option<Table>) {
    if id >= |t.slots| then None
    else Some(Put(t, id, if o.None? then None else Some(o.value.(id := id, state := OrderState.Sent))))
  }

  /** What one record does to its order on replay. */
  function Replayed(o: OrderV, r: LogRecord): (result: Option<OrderV>) {
    match r
    case CancelRequestRec(_, _) => Some(o.(state := PendingCancel))
    case AckRec(_, open, ts, xts) => Some(OnAck(o, open, ts, xts))
    case RejectRec(_, ts, xts) => Some(OnReject(o, ts, xts))
    case FillRec(_, _, qty, price, fee, ts, xts) => Some(OnFill(o, qty, price, ts, xts, fee))
    case CancelRejectRec(_, ts, _) => Some(o.(state := CancelRejected, lastResponse := ts))
    case CancelRec(_, qty, ts, xts) => Some(OnCancel(o, qty, ts, xts))
    case _ => None
  }

  /** The `on_log_*` handler of a record. */
  function OnLog(w: World, t: Table, r: LogRecord): (result: Option<Table>) {
    match r
    case SentRec(id, terms) =>
      if !w.instrumentKnown(terms.instrument) then Adopt(t, id, None)  // the id is not extended
      else if id <= t.localID then Some(t)
      else
        var made := w.replayOrder(terms);
        Adopt(Extend(t, id), id, if made.None? then None else Some(Fresh(made.value)))
    case LocalRejectRec(id) => Some(Extend(t, id))
    case Note => Some(t)
    case _ => Update(t, r.id, o => Replayed(o, r))
  }

  function OnLogAll(w: World, t: Table, rs: seq<LogRecord>): (r: Option<Table>)
    decreases |rs|
  {
    if rs == [] then Some(t)
    else
      var t' := OnLog(w, t, rs[0]);
      if t'.None? then None else OnLogAll(w, t'.value, rs[1..])
  }

  lemma {:induction false} OnLogAppend(w: World, t: Table, a: seq<LogRecord>, b: seq<LogRecord>)
    requires OnLogAll(w, t, a).Some?
    ensures OnLogAll(w, t, a + b) == OnLogAll(w, OnLogAll(w, t, a).value, b)
    decreases |a|
  {
    if a == [] {
      assert a + b == b;
    } else {
      assert (a + b)[1..] == a[1..] + b;
      OnLogAppend(w, OnLog(w, t, a[0]).value, a[1..], b);
    }
  }

  // ----- the table stays sound -----

  /** The record's handler stays inside `m_orders`: the extension to the largest 32-bit id wraps to
      nothing, and a record of an unconfigured instrument is written without any extension. */
  predicate InBounds(w: World, t: Table, r: LogRecord) {
    match r
    case Note => true
    case LocalRejectRec(_) => true
    case SentRec(id, terms) => id <= t.localID || (w.instrumentKnown(terms.instrument) && id < U32_MAX)
    case _ => r.id <= t.localID || r.id < U32_MAX
  }

  lemma ExtendSound(t: Table, id: u32)
    requires Sound(t)
    ensures Sound(Extend(t, id)) && t.localID <= Extend(t, id).localID
    ensures id < |Extend(t, id).slots| <==> id <= t.localID || id < U32_MAX
    ensures forall i :: 0 <= i < |t.slots| ==> Extend(t, id).slots[i] == t.slots[i]
    ensures forall i :: |t.slots| <= i < |Extend(t, id).slots| ==> Extend(t, id).slots[i] == None
  {
  }

  /** For any record at all: a sound table stays sound and its ids never go back, and the handler
      leaves `m_orders` exactly when `InBounds` fails. */
  lemma OnLogSound(w: World, t: Table, r: LogRecord)
    requires Sound(t)
    ensures OnLog(w, t, r).Some? <==> InBounds(w, t, r)
    ensures OnLog(w, t, r).Some? ==> Sound(OnLog(w, t, r).value) && t.localID <= OnLog(w, t, r).value.localID
  {
    if !r.Note? {
      ExtendSound(t, r.id);
    }
  }

  /** `adopt_orphan_order`. */
  function AdoptOrphan(t: Table, id: u32, o: Option<OrderV>): (r: Option<Table>) {
    Adopt(Extend(t, id), id, o)
  }

  /** Adoption keeps the table sound exactly when it stays in bounds and does not fill slot 0. */
  lemma AdoptOrphanSound(t: Table, id: u32, o: Option<OrderV>)
    requires Sound(t)
    ensures AdoptOrphan(t, id, o).Some? <==> id <= t.localID || id < U32_MAX
    ensures AdoptOrphan(t, id, o).Some? ==>
      (Sound(AdoptOrphan(t, id, o).value) <==> id != 0 || o.None?) && t.localID <= AdoptOrphan(t, id, o).value.localID
  {
  }

  /** Live operations keep the table sound and their ids never go back, but for a send after the last
      id. */
  lemma LiveSound(t: Table, c: Command)
    requires Sound(t) && Possible(t, c)
    ensures Sound(Live(t, c).table) <==> InRange(t, c)
    ensures InRange(t, c) ==> t.localID <= Live(t, c).table.localID
  {
  }

  /** Any interleaving of live operations, adoptions and log records. */
  datatype Op = Do(c: Command) | Log(r: LogRecord) | Orphan(id: u32, o: Option<OrderV>)

  ghost predicate Defined(w: World, t: Table, op: Op) {
    match op
    case Do(c) => Possible(t, c) && InRange(t, c)
    case Log(r) => InBounds(w, t, r)
    case Orphan(id, o) => (id <= t.localID || id < U32_MAX) && (id != 0 || o.None?)
  }

  ghost function Perform(w: World, t: Table, op: Op): (r: Table)
    requires Sound(t) && Defined(w, t, op)
  {
    match op
    case Do(c) => Live(t, c).table
    case Log(r) => OnLogSound(w, t, r); OnLog(w, t, r).value
    case Orphan(id, o) => AdoptOrphanSound(t, id, o); AdoptOrphan(t, id, o).value
  }

  lemma PerformSound(w: World, t: Table, op: Op)
    requires Sound(t) && Defined(w, t, op)
    ensures Sound(Perform(w, t, op)) && t.localID <= Perform(w, t, op).localID
  {
    match op
    case Do(c) => LiveSound(t, c);
    case Log(r) => OnLogSound(w, t, r);
    case Orphan(id, o) => AdoptOrphanSound(t, id, o);
  }

  ghost predicate Reaches(w: World, t: Table, ops: seq<Op>, t': Table)
    decreases |ops|
  {
    if ops == [] then t' == t
    else Sound(t) && Defined(w, t, ops[0]) && Reaches(w, Perform(w, t, ops[0]), ops[1..], t')
  }

  /** Every reachable table is sound and ids never decrease along the way. */
  lemma {:induction false} ReachableSound(w: World, t: Table, ops: seq<Op>, t': Table)
    requires Sound(t) && Reaches(w, t, ops, t')
    ensures Sound(t') && t.localID <= t'.localID
    decreases |ops|
  {
    if ops != [] {
      PerformSound(w, t, ops[0]);
      ReachableSound(w, Perform(w, t, ops[0]), ops[1..], t');
    }
  }

  // ----- replay refines the live run -----

  /** What a restart must recover of an order: all but the session pointer, the pending cancel
      quantity and the exchange's own time stamp. */
  function Durable(o: OrderV): (r: OrderV) {
    o.(routed := false, pendingNewQty := U32_MAX, lastExchange := 0)
  }

  /** A locally rejected order reads as an empty slot. */
  function Kept(o: Option<OrderV>): (r: Option<OrderV>) {
    if o.None? || o.value.state == LocallyRejected then None else Some(Durable(o.value))
  }

  ghost predicate Recovers(live: Table, replayed: Table) {
    && live.localID == replayed.localID && |live.slots| == |replayed.slots|
    && (forall i :: 0 <= i < |live.slots| ==> Kept(live.slots[i]) == Kept(replayed.slots[i]))
    && (forall i :: 0 <= i < |live.slots| && replayed.slots[i].Some? ==> replayed.slots[i].value.state != LocallyRejected)
  }

  lemma SendRecovers(w: World, live: Table, replayed: Table, terms: Terms, checks: bool, accepted: bool)
    requires Sound(live) && Sound(replayed) && Recovers(live, replayed) && Faithful(w) && live.localID + 1 < U32_MAX
    ensures var s := Sending(live, Fresh(terms), checks, accepted);
      var r := OnLog(w, replayed, s.log[0]);
      r.Some? && Recovers(s.table, r.value)
  {
  }

  /** One slot updated on both sides. */
  lemma PutRecovers(live: Table, replayed: Table, id: u32, o: Option<OrderV>, r: Option<OrderV>)
    requires Recovers(live, replayed) && id < |live.slots| && Kept(o) == Kept(r)
    requires r.Some? ==> r.value.state != LocallyRejected
    ensures Recovers(Put(live, id, o), Put(replayed, id, r))
  {
  }

  lemma OnLogKnown(w: World, t: Table, r: LogRecord)
    requires Sound(t) && !r.SentRec? && !r.LocalRejectRec? && !r.Note? && r.id <= t.localID
    ensures OnLog(w, t, r) == Some(if t.slots[r.id].None? then t else Put(t, r.id, Replayed(t.slots[r.id].value, r)))
  {
    hide OnAck, OnReject, OnFill, OnCancel;
  }

  /** The record brings back what the operation did to its order. */
  lemma OrderRecovers(live: OrderV, replayed: OrderV, t: Table, c: Command)
    requires Kept(Some(live)) == Kept(Some(replayed)) && replayed.state != LocallyRejected && live.state != LocallyRejected
    requires Allowed(t, c) && !c.Send? && !c.DestroyUnsent? && !c.Other? && t.slots[c.id] == Some(live)
    requires Live(t, c).log != []
    ensures Kept(Live(t, c).table.slots[c.id]) == Kept(Replayed(replayed, Live(t, c).log[0]))
    ensures Replayed(replayed, Live(t, c).log[0]).Some? ==> Replayed(replayed, Live(t, c).log[0]).value.state != LocallyRejected
  {
  }

  lemma OnLogUnaddressed(w: World, t: Table, r: LogRecord)
    requires Sound(t) && (r.Note? || r == DestroyRec(0))
    ensures OnLog(w, t, r) == Some(t)
  {
  }

  /** An operation on an order changes its slot only and logs a record with its id. */
  lemma LiveIsLocal(t: Table, c: Command)
    requires Sound(t) && Possible(t, c) && !c.Send? && !c.DestroyUnsent? && !c.Other? && Live(t, c).log != []
    ensures var s := Live(t, c);
      && |s.table.slots| == |t.slots| && s.table == Put(t, c.id, s.table.slots[c.id])
      && !s.log[0].SentRec? && !s.log[0].LocalRejectRec? && !s.log[0].Note? && s.log[0].id == c.id
  {
  }

  /** An order that was locally rejected can only be destroyed. */
  lemma RejectedStays(t: Table, c: Command)
    requires Allowed(t, c) && !c.Send? && !c.DestroyUnsent? && !c.Other?
    requires t.slots[c.id].value.state == LocallyRejected && Live(t, c).log != []
    ensures Live(t, c).table.slots[c.id] == None
  {
  }

  lemma CallbackRecovers(w: World, live: Table, replayed: Table, c: Command)
    requires Sound(live) && Sound(replayed) && Recovers(live, replayed) && Allowed(live, c) && !c.Send?
    requires Live(live, c).log != []
    ensures OnLog(w, replayed, Live(live, c).log[0]).Some?
    ensures Recovers(Live(live, c).table, OnLog(w, replayed, Live(live, c).log[0]).value)
  {
    if c.DestroyUnsent? || c.Other? {
      OnLogUnaddressed(w, replayed, Live(live, c).log[0]);
    } else {
      hide OnLog, Replayed;
      var s := Live(live, c);
      LiveIsLocal(live, c);
      OnLogKnown(w, replayed, s.log[0]);
      assert Kept(live.slots[c.id]) == Kept(replayed.slots[c.id]);
      if replayed.slots[c.id].Some? {
        OrderRecovers(live.slots[c.id].value, replayed.slots[c.id].value, live, c);
        PutRecovers(live, replayed, c.id, s.table.slots[c.id], Replayed(replayed.slots[c.id].value, s.log[0]));
      } else {
        RejectedStays(live, c);
        PutRecovers(live, replayed, c.id, s.table.slots[c.id], None);
        assert replayed.slots[c.id := None] == replayed.slots;
      }
    }
  }

  lemma StepRecovers(w: World, live: Table, replayed: Table, c: Command)
    requires Sound(live) && Sound(replayed) && Recovers(live, replayed) && Faithful(w) && Allowed(live, c)
    requires Live(live, c).table.localID < U32_MAX
    ensures OnLogAll(w, replayed, Live(live, c).log).Some?
    ensures Recovers(Live(live, c).table, OnLogAll(w, replayed, Live(live, c).log).value)
    ensures Sound(OnLogAll(w, replayed, Live(live, c).log).value)
  {
    var s := Live(live, c);
    if s.log != [] {
      assert s.log[1..] == [];
      OnLogSound(w, replayed, s.log[0]);
      match c
      case Send(terms, checks, accepted) => SendRecovers(w, live, replayed, terms, checks, accepted);
      case _ => CallbackRecovers(w, live, replayed, c);
    }
  }

  lemma {:induction false} IdsGrow(t: Table, cs: seq<Command>)
    requires Sound(t) && AllowedAll(t, cs)
    ensures Sound(LiveAll(t, cs).table) && t.localID <= LiveAll(t, cs).table.localID
    decreases |cs|
  {
    if cs != [] {
      LiveSound(t, cs[0]);
      IdsGrow(Live(t, cs[0]).table, cs[1..]);
    }
  }

  lemma {:induction false} ReplayRecoversFrom(w: World, live: Table, replayed: Table, cs: seq<Command>)
    requires Sound(live) && Sound(replayed) && Recovers(live, replayed) && Faithful(w) && AllowedAll(live, cs)
    requires LiveAll(live, cs).table.localID < U32_MAX
    ensures var run := LiveAll(live, cs);
      OnLogAll(w, replayed, run.log).Some? && Recovers(run.table, OnLogAll(w, replayed, run.log).value)
    decreases |cs|
  {
    if cs != [] {
      var s := Live(live, cs[0]);
      LiveSound(live, cs[0]);
      IdsGrow(s.table, cs[1..]);
      StepRecovers(w, live, replayed, cs[0]);
      var mid := OnLogAll(w, replayed, s.log).value;
      ReplayRecoversFrom(w, s.table, mid, cs[1..]);
      OnLogAppend(w, replayed, s.log, LiveAll(s.table, cs[1..]).log);
    }
  }

  /** Replay cannot reach the last 32-bit id. */
  lemma {:induction false} ReplayStopsShort(w: World, t: Table, rs: seq<LogRecord>)
    requires Sound(t) && t.localID < U32_MAX && OnLogAll(w, t, rs).Some?
    ensures OnLogAll(w, t, rs).value.localID < U32_MAX
    decreases |rs|
  {
    if rs != [] {
      OnLogSound(w, t, rs[0]);
      ReplayStopsShort(w, OnLog(w, t, rs[0]).value, rs[1..]);
    }
  }

  /** A restart recovers the table: replaying what any run logged rebuilds the ids and every order
      that was not locally rejected, if and only if the run did not use the last 32-bit id. */
  lemma ReplayRecovers(w: World, cs: seq<Command>)
    requires Faithful(w) && AllowedAll(EMPTY, cs)
    ensures var run := LiveAll(EMPTY, cs);
      var replayed := OnLogAll(w, EMPTY, run.log);
      replayed.Some? && Recovers(run.table, replayed.value) <==> run.table.localID < U32_MAX
  {
    var run := LiveAll(EMPTY, cs);
    if run.table.localID < U32_MAX {
      ReplayRecoversFrom(w, EMPTY, EMPTY, cs);
    } else if OnLogAll(w, EMPTY, run.log).Some? {
      ReplayStopsShort(w, EMPTY, run.log);
    }
  }

  /** Why sends must not overlap: a replayed `ORDER_SENT` brings its order back exactly when its id is
      beyond every id seen before it in the log. */
  lemma SentAdoptedIffNew(w: World, t: Table, id: u32, terms: Terms)
    requires Sound(t) && Faithful(w) && id < U32_MAX
    requires id <= t.localID ==> t.slots[id] == None
    ensures var t' := OnLog(w, t, SentRec(id, terms)); t'.Some? && (Holds(t'.value, id) <==> id > t.localID)
  {
  }
}
