/** From the live order manager to the restarted one, through the log file: handlers, concurrent
    appends, record framing, the reader's loop and the replay handlers together. */
module Restart {
  import opened Basics
  import opened MappedFile
  import opened BlotterReader
  import opened Orders
  import opened OrderTable
  import OM = OrderManager

  /** How record bodies are laid out in memory; the layouts themselves are opaque. */
  datatype Layout = Layout(pack: LogRecord -> LogMessage, unpack: LogMessage -> LogRecord)

  /** The records of this log survive being packed, and `decode` dispatches them to the listeners. */
  ghost predicate Faithfully(l: Layout, rs: seq<LogRecord>) {
    forall i :: 0 <= i < |rs| ==> l.unpack(l.pack(rs[i])) == rs[i] && Notified(l.pack(rs[i]).kind)
  }

  function PackAll(l: Layout, rs: seq<LogRecord>): (ms: seq<LogMessage>)
    ensures |ms| == |rs|
  {
    if rs == [] then [] else [l.pack(rs[0])] + PackAll(l, rs[1..])
  }

  function UnpackAll(l: Layout, ms: seq<LogMessage>): (r: seq<LogRecord>) {
    if ms == [] then [] else [l.unpack(ms[0])] + UnpackAll(l, ms[1..])
  }

  lemma {:induction false} PackedAreNotified(l: Layout, rs: seq<LogRecord>)
    requires Faithfully(l, rs)
    ensures Notifications(PackAll(l, rs)) == PackAll(l, rs) && UnpackAll(l, PackAll(l, rs)) == rs
  {
    if rs != [] {
      assert Faithfully(l, rs[1..]);
      PackedAreNotified(l, rs[1..]);
      assert PackAll(l, rs)[1..] == PackAll(l, rs[1..]);
    }
  }

  lemma SendingLogs(t: Table, o: OrderV, checks: bool, accepted: bool)
    ensures var s := Sending(t, o, checks, accepted);
      s.log == [if BaseValid(o) && checks && accepted then SentRec(Add32(t.localID, 1), o.terms) else LocalRejectRec(Add32(t.localID, 1))]
  {
  }

  /** The order object in a slot that holds one. */
  method InSlot(om: OM.OrderManager, id: u32) returns (o: OM.Order)
    requires om.Valid() && Holds(om.View(), id)
    ensures om.Tracks(o) && o in om.orders && o.localID == id
  {
    assert om.View().slots[id] == om.Slot(id);
    o := om.orders[id];
  }

  /** One operation on the manager and its order objects. */
  method Perform(om: OM.OrderManager, c: Command)
    requires om.Valid() && Possible(om.View(), c) && InRange(om.View(), c)
    modifies om, om.orders
    ensures om.Valid() && forall i :: 0 <= i < |om.orders| ==> om.orders[i] == null || om.orders[i] in old(om.orders) || fresh(om.orders[i])
    ensures var s := Live(old(om.View()), c); om.View() == s.table && om.log == old(om.log) + s.log
  {
    hide Sound, Sending, Cancelling, Destroying, OnAck, OnReject, OnFill, OnCancel, OnCancelRejected;
    ghost var t := om.View();
    var ok;
    match c {
      case Send(terms, checks, accepted) =>
        var o := new OM.Order(terms);
        assert om.View() == t && om.Valid();
        ok := om.Send(o, true, checks, accepted);
        SendingLogs(t, Fresh(terms), checks, accepted);
      case Cancel(id, newqty, accepted) => var o := InSlot(om, id); ok := om.Cancel(o, newqty, accepted);
      case Destroy(id, onlyIfTerminal, accepted) => var o := InSlot(om, id); ok := om.Destroy(o, onlyIfTerminal, accepted);
      case DestroyUnsent =>
        var o := new OM.Order(Terms(0, 0, 0.0, 0, UnknownSide, UnknownTif, UnknownType));
        assert om.View() == t && om.Valid();
        om.NotTracked(o);
        ok := om.Destroy(o, false, false);
      case Ack(id, size, ts, xts) => var o := InSlot(om, id); om.OnAcknowledged(o, size, ts, xts);
      case Reject(id, ts, xts) => var o := InSlot(om, id); om.OnRejected(o, ts, xts);
      case Fill(id, qty, price, ts, xts, fee) => var o := InSlot(om, id); om.OnFilled(o, qty, price, ts, xts, fee);
      case CancelReject(id, ts, xts) => var o := InSlot(om, id); om.OnCancelRejected(o, ts, xts);
      case Cancelled(id, qty, ts, xts) => var o := InSlot(om, id); om.OnCancelled(o, qty, ts, xts);
      case Other => om.LogOther();
    }
  }

  /** `i` commands of the run have been performed: the rest, from here, completes it. */
  ghost predicate Midway(cs: seq<Command>, i: nat, t: Table, log: seq<LogRecord>) {
    && i <= |cs| && AllowedAll(EMPTY, cs) && AllowedAll(t, cs[i..])
    && var later := LiveAll(t, cs[i..]);
      LiveAll(EMPTY, cs).table == later.table && LiveAll(EMPTY, cs).log == log + later.log
  }

  lemma MidwayStep(cs: seq<Command>, i: nat, t: Table, log: seq<LogRecord>)
    requires Midway(cs, i, t, log) && i < |cs|
    ensures Allowed(t, cs[i]) && Midway(cs, i + 1, Live(t, cs[i]).table, log + Live(t, cs[i]).log)
  {
    assert cs[i..] != [] && cs[i..][0] == cs[i] && cs[i..][1..] == cs[i + 1..];
    var s := Live(t, cs[i]);
    var later := LiveAll(s.table, cs[i + 1..]);
    assert log + (s.log + later.log) == log + s.log + later.log;
  }

  lemma MidwayEnds(cs: seq<Command>)
    requires AllowedAll(EMPTY, cs)
    ensures Midway(cs, 0, EMPTY, [])
    ensures forall t, log :: Midway(cs, |cs|, t, log) ==> t == LiveAll(EMPTY, cs).table && log == LiveAll(EMPTY, cs).log
  {
    hide Allowed, Live;
    assert cs[0..] == cs && [] + LiveAll(EMPTY, cs).log == LiveAll(EMPTY, cs).log;
    assert cs[|cs|..] == [];
  }

  /** A run of the live manager over order objects makes the table and the log of the run over values. */
  method LiveRun(cs: seq<Command>) returns (om: OM.OrderManager)
    requires AllowedAll(EMPTY, cs)
    ensures fresh(om) && om.Valid() && om.View() == LiveAll(EMPTY, cs).table && om.log == LiveAll(EMPTY, cs).log
  {
    hide Midway, Live, Sound, LiveAll, AllowedAll, Possible, InRange;
    om := new OM.OrderManager();
    MidwayEnds(cs);
    for i := 0 to |cs|
      invariant fresh(om) && om.Valid() && forall k :: 0 <= k < |om.orders| ==> om.orders[k] == null || fresh(om.orders[k])
      invariant Midway(cs, i, om.View(), om.log)
    {
      MidwayStep(cs, i, om.View(), om.log);
      Perform(om, cs[i]);
    }
  }

  /** The dispatch of one record to the manager's replay handlers. */
  method ReplayOne(w: World, om: OM.OrderManager, r: LogRecord)
    requires om.Valid() && InBounds(w, om.View(), r)
    modifies om, om.orders
    ensures om.Valid() && forall i :: 0 <= i < |om.orders| ==> om.orders[i] == null || om.orders[i] in old(om.orders) || fresh(om.orders[i])
    ensures OnLog(w, old(om.View()), r) == Some(om.View())
  {
    hide Sound, Replayed;
    ghost var t := om.View();
    match r {
      case SentRec(id, terms) =>
        var template := w.replayOrder(terms);
        var made: OM.Order? := null;
        if template.Some? { made := new OM.Order(template.value); }
        assert om.View() == t && om.Valid();
        om.OnLogOrderSent(w, id, terms, made);
      case LocalRejectRec(id) => om.OnLogLocalReject(id);
      case AckRec(id, open, ts, xts) => om.OnLogAcknowledged(id, open, ts, xts, w);
      case FillRec(id, partial, qty, price, fee, ts, xts) => om.OnLogFilled(id, partial, qty, price, fee, ts, xts, w);
      case CancelRequestRec(id, newqty) => om.OnLogPendingCancel(id, newqty, w);
      case CancelRec(id, qty, ts, xts) => om.OnLogCancelled(id, qty, ts, xts, w);
      case RejectRec(id, ts, xts) => om.OnLogRejected(id, ts, xts, w);
      case CancelRejectRec(id, ts, xts) => om.OnLogCancelRejected(id, ts, xts, w);
      case DestroyRec(id) => om.OnLogDestroy(id, w);
      case Note =>
    }
  }

  /** Replaying records into a new manager; false is an access outside its table. */
  method ReplayRun(w: World, rs: seq<LogRecord>) returns (om: OM.OrderManager, ok: bool)
    ensures fresh(om) && om.Valid()
    ensures OnLogAll(w, EMPTY, rs) == if ok then Some(om.View()) else None
  {
    om := new OM.OrderManager();
    for i := 0 to |rs|
      invariant fresh(om) && om.Valid() && forall k :: 0 <= k < |om.orders| ==> om.orders[k] == null || fresh(om.orders[k])
      invariant OnLogAll(w, EMPTY, rs) == OnLogAll(w, om.View(), rs[i..])
    {
      hide OnLog, Sound;
      assert rs[i..][0] == rs[i] && rs[i..][1..] == rs[i + 1..];
      OnLogSound(w, om.View(), rs[i]);
      if !InBounds(w, Table(om.localID, []), rs[i]) { return om, false; }
      ReplayOne(w, om, rs[i]);
    }
    assert rs[|rs|..] == [];
    ok := true;
  }

  /** The reader's loop over the finished file notifies the packed records, which unpack to the log. */
  method ReadBack(l: Layout, file: AsyncMappedFile, ghost log: seq<LogRecord>) returns (rs: seq<LogRecord>)
    requires Faithfully(l, log)
    requires file.Valid() && file.Quiescent() && file.offset < file.mem.Length && file.reserved == Encodings(PackAll(l, log))
    ensures rs == log
  {
    ghost var ms := PackAll(l, log);
    var reader := new FileBlotterReader(file, true);
    reader.Replay();
    file.QuiescentContents();
    assert file.reserved[..|file.reserved|] == file.reserved;
    assert reader.Contents() == Concat(Encodings(ms));
    WholeFileRecords(ms);
    PackedAreNotified(l, log);
    assert reader.notified == ms;
    rs := UnpackAll(l, reader.notified);
  }

  /** Whatever a run of the live manager logs, once the writes have finished and all of them fit, a
      manager that replays the file rebuilds the order table, if and only if the run did not use the last
      id. The writers may have interleaved in any way; only the order of their reservations matters. */
  method RestartRecovers(w: World, l: Layout, file: AsyncMappedFile, cs: seq<Command>)
    returns (live: OM.OrderManager, restarted: OM.OrderManager, ok: bool)
    requires Faithful(w) && AllowedAll(EMPTY, cs) && Faithfully(l, LiveAll(EMPTY, cs).log)
    requires file.Valid() && file.Quiescent() && file.offset < file.mem.Length
    requires file.reserved == Encodings(PackAll(l, LiveAll(EMPTY, cs).log))
    ensures live.Valid() && live.View() == LiveAll(EMPTY, cs).table && live.log == LiveAll(EMPTY, cs).log
    ensures restarted.Valid() && (ok && Recovers(live.View(), restarted.View()) <==> live.localID < U32_MAX)
  {
    hide Recovers, LiveAll, OnLogAll, Encodings;
    live := LiveRun(cs);
    var rs := ReadBack(l, file, live.log);
    restarted, ok := ReplayRun(w, rs);
    ReplayRecovers(w, cs);
  }

  /** The same from the writers' steps on: any interleaving of any number of writers that reserves the run's
      records and finishes in the mapping leaves a file the restarted manager recovers from. */
  method WriteAndRestart(w: World, l: Layout, size: nat, cs: seq<Command>, schedule: seq<Step>)
    returns (live: OM.OrderManager, restarted: OM.OrderManager, ok: bool)
    requires Faithful(w) && AllowedAll(EMPTY, cs) && Faithfully(l, LiveAll(EMPTY, cs).log)
    requires Reservations(schedule) == Encodings(PackAll(l, LiveAll(EMPTY, cs).log)) && Finishes(size, schedule)
    ensures live.Valid() && live.View() == LiveAll(EMPTY, cs).table && live.log == LiveAll(EMPTY, cs).log
    ensures restarted.Valid() && (ok && Recovers(live.View(), restarted.View()) <==> live.localID < U32_MAX)
  {
    hide Recovers, LiveAll, OnLogAll, Encodings;
    var file := new AsyncMappedFile(size);
    file.Run(schedule);
    assert [] + Reservations(schedule) == Reservations(schedule);
    live, restarted, ok := RestartRecovers(w, l, file, cs);
  }

  lemma {:induction false} PackPrefix(l: Layout, rs: seq<LogRecord>, n: nat)
    requires n <= |rs|
    ensures PackAll(l, rs)[..n] == PackAll(l, rs[..n])
  {
    if n > 0 {
      PackPrefix(l, rs[1..], n - 1);
      assert rs[..n][1..] == rs[1..][..n - 1];
    }
  }

  /** A log cut anywhere still replays a prefix of the records: those whose bytes all lie before the
      cut. */
  lemma CutLogReplaysPrefix(w: World, l: Layout, rs: seq<LogRecord>, cut: nat) returns (n: nat)
    requires Faithfully(l, rs) && cut <= Size(Encodings(PackAll(l, rs)))
    ensures n <= |rs|
    ensures Size(Encodings(PackAll(l, rs))[..n]) <= cut
    ensures n < |rs| ==> cut < Size(Encodings(PackAll(l, rs))[..n + 1])
    ensures UnpackAll(l, Notifications(Records(Concat(Encodings(PackAll(l, rs)))[..cut]))) == rs[..n]
  {
    n := TruncatedRecords(PackAll(l, rs), cut);
    PackPrefix(l, rs, n);
    PackedAreNotified(l, rs[..n]);
  }
}
