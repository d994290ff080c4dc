/** Merging several packet captures into one time-ordered stream with one-second timer ticks:
    `src/net/i01_net/PcapFileMux.hpp` and `FileMuxBase`. */
module PcapMux {
  import opened Basics
  import opened Time

  type Payload = seq<byte>

  /** A frame of a capture: one the UDP handler takes, another protocol, or a read error. */
  datatype Frame = Udp(ts: Timestamp, payload: Payload) | OtherProtocol | Unreadable

  datatype Packet = Packet(ts: Timestamp, payload: Payload)
  datatype Entry = Entry(reader: nat, pkt: Packet)

  /** What listeners see, in order. */
  datatype Event = Dispatch(entry: Entry) | Tick(ts: Timestamp)

  /** The time a frame is given: its own plus the reader's latency. */
  function Delayed(ts: Timestamp, latency: int): (r: Timestamp) {
    Plus(ts, Make(0, latency))
  }

  /** The packets one reader yields: its UDP frames up to the first read error. */
  function Yield(frames: seq<Frame>, latency: int): (r: seq<Packet>) {
    if frames == [] || frames[0].Unreadable? then []
    else
      var first := if frames[0].Udp? then [Packet(Delayed(frames[0].ts, latency), frames[0].payload)] else [];
      first + Yield(frames[1..], latency)
  }

  ghost predicate TimeOrdered(ps: seq<Packet>) {
    forall i, j :: 0 <= i < j < |ps| ==> AtMost(ps[i].ts, ps[j].ts)
  }

  /** Capture times are normal and do not precede the epoch. */
  ghost predicate CaptureTimes(frames: seq<Frame>) {
    forall i :: 0 <= i < |frames| && frames[i].Udp? ==> Normal(frames[i].ts) && 0 <= frames[i].ts.sec
  }

  ghost predicate FileInOrder(frames: seq<Frame>) {
    forall i, j :: 0 <= i < j < |frames| && frames[i].Udp? && frames[j].Udp? ==> AtMost(frames[i].ts, frames[j].ts)
  }

  /** A latency the constructor can take apart; a negative one delays by 2^64 nanoseconds more. */
  predicate Representable(latency: int) {
    -TWO63 + NANOS <= latency < TWO63
  }

  lemma DelayedMonotone(a: Timestamp, b: Timestamp, latency: int)
    requires Normal(a) && Normal(b) && Representable(latency)
    ensures Normal(Delayed(a, latency)) && a.sec <= Delayed(a, latency).sec
    ensures AtMost(a, b) ==> AtMost(Delayed(a, latency), Delayed(b, latency))
  {
    hide Make, Plus, Less, AtMost;
    MakeKeepsInstant(0, latency);
    var d := Make(0, latency);
    PlusMinusExact(a, d);
    PlusMinusExact(b, d);
    OrderIsInstant(a, b);
    OrderIsInstant(Delayed(a, latency), Delayed(b, latency));
  }

  lemma {:induction false} YieldAfter(ts: Timestamp, frames: seq<Frame>, latency: int)
    requires CaptureTimes(frames) && Normal(ts) && Representable(latency)
    requires forall i :: 0 <= i < |frames| && frames[i].Udp? ==> AtMost(ts, frames[i].ts)
    ensures forall i :: 0 <= i < |Yield(frames, latency)| ==> AtMost(Delayed(ts, latency), Yield(frames, latency)[i].ts)
  {
    if frames != [] && !frames[0].Unreadable? {
      YieldAfter(ts, frames[1..], latency);
      if frames[0].Udp? { DelayedMonotone(ts, frames[0].ts, latency); }
    }
  }

  /** Latency shifts a file's times without reordering them. */
  lemma {:induction false} YieldInOrder(frames: seq<Frame>, latency: int)
    requires CaptureTimes(frames) && Representable(latency)
    ensures forall i :: 0 <= i < |Yield(frames, latency)| ==>
      Normal(Yield(frames, latency)[i].ts) && 0 <= Yield(frames, latency)[i].ts.sec
    ensures FileInOrder(frames) ==> TimeOrdered(Yield(frames, latency))
  {
    if frames != [] && !frames[0].Unreadable? {
      YieldInOrder(frames[1..], latency);
      if frames[0].Udp? {
        DelayedMonotone(frames[0].ts, frames[0].ts, latency);
        if FileInOrder(frames) { YieldAfter(frames[0].ts, frames[1..], latency); }
      }
    }
  }

  /** The frames a reader can yield: those the UDP handler takes, up to the first read error. */
  function UdpFrames(frames: seq<Frame>): (r: seq<Frame>)
    ensures forall i :: 0 <= i < |r| ==> r[i].Udp?
  {
    if frames == [] || frames[0].Unreadable? then []
    else (if frames[0].Udp? then [frames[0]] else []) + UdpFrames(frames[1..])
  }

  /** The frame's packet: its own payload, and its time plus the latency; a negative latency, taken apart
      as an unsigned number, adds 2^64 nanoseconds more. */
  ghost predicate PacketOf(p: Packet, f: Frame, latency: int)
    requires f.Udp?
  {
    && p.payload == f.payload && Normal(p.ts)
    && Nanos(p.ts) == Nanos(f.ts) + latency + if latency < 0 then 0x1_0000_0000_0000_0000 else 0
  }

  /** Packet by packet, the first of the frames. */
  ghost predicate PacketsAsCaptured(ps: seq<Packet>, frames: seq<Frame>, latency: int) {
    && |ps| <= |UdpFrames(frames)|
    && forall i :: 0 <= i < |ps| ==> PacketOf(ps[i], UdpFrames(frames)[i], latency)
  }

  lemma DelayedExact(ts: Timestamp, latency: int)
    requires Normal(ts) && Representable(latency)
    ensures Normal(Delayed(ts, latency))
    ensures Nanos(Delayed(ts, latency)) == Nanos(ts) + latency + if latency < 0 then 0x1_0000_0000_0000_0000 else 0
  {
    hide Make, Plus;
    MakeKeepsInstant(0, latency);
    PlusMinusExact(ts, Make(0, latency));
  }

  /** What a reader yields: all its UDP frames before the first read error, in order. */
  lemma {:induction false} YieldAsCaptured(frames: seq<Frame>, latency: int)
    requires CaptureTimes(frames) && Representable(latency)
    ensures |Yield(frames, latency)| == |UdpFrames(frames)| && PacketsAsCaptured(Yield(frames, latency), frames, latency)
  {
    hide Delayed;
    if frames != [] && !frames[0].Unreadable? {
      YieldAsCaptured(frames[1..], latency);
      if frames[0].Udp? {
        DelayedExact(frames[0].ts, latency);
        var ps, fs := Yield(frames, latency), UdpFrames(frames);
        forall i | 0 <= i < |ps| ensures PacketOf(ps[i], fs[i], latency) {
          if i > 0 { assert ps[i] == Yield(frames[1..], latency)[i - 1] && fs[i] == UdpFrames(frames[1..])[i - 1]; }
        }
      } else {
        assert Yield(frames, latency) == Yield(frames[1..], latency) && UdpFrames(frames) == UdpFrames(frames[1..]);
      }
    }
  }

  // ----- what a trace must be -----

  /** The packets of reader `r` in a trace. */
  function PacketsOf(trace: seq<Event>, r: nat): (result: seq<Packet>) {
    if trace == [] then []
    else
      var last := trace[|trace| - 1];
      PacketsOf(trace[..|trace| - 1], r) + if last.Dispatch? && last.entry.reader == r then [last.entry.pkt] else []
  }

  function TickTimes(trace: seq<Event>): (r: seq<Timestamp>) {
    if trace == [] then []
    else
      var last := trace[|trace| - 1];
      TickTimes(trace[..|trace| - 1]) + if last.Tick? then [last.ts] else []
  }

  /** The first dispatched time the timer can start from: zero seconds means "not started". */
  function Anchor(trace: seq<Event>): (r: Option<Timestamp>) {
    if trace == [] then None
    else
      var before := Anchor(trace[..|trace| - 1]);
      var last := trace[|trace| - 1];
      if before.Some? then before
      else if last.Dispatch? && last.entry.pkt.ts.sec != 0 then Some(last.entry.pkt.ts) else None
  }

  function Later(t: Timestamp, seconds: int): (r: Timestamp) {
    t.(sec := t.sec + seconds)
  }

  function Ticks(from: Timestamp, n: nat): (r: seq<Event>) {
    if n == 0 then [] else Ticks(from, n - 1) + [Tick(Later(from, n))]
  }

  function EverySecond(from: Timestamp, n: nat): (r: seq<Timestamp>) {
    if n == 0 then [] else EverySecond(from, n - 1) + [Later(from, n)]
  }

  /** Timer ticks fall at exactly one, two, ... seconds after the anchor; `timer` is the latest. */
  ghost predicate TicksExact(trace: seq<Event>, timer: Timestamp) {
    match Anchor(trace)
    case None => timer.sec == 0 && TickTimes(trace) == []
    case Some(f) => f.sec > 0 && timer == Later(f, |TickTimes(trace)|) && TickTimes(trace) == EverySecond(f, |TickTimes(trace)|)
  }

  /** Packets come in time order, each tick after every earlier packet and before every packet at or
      after it. */
  ghost predicate PairInOrder(first: Event, second: Event) {
    match (first, second)
    case (Dispatch(a), Dispatch(b)) => AtMost(a.pkt.ts, b.pkt.ts)
    case (Dispatch(a), Tick(t)) => Less(a.pkt.ts, t)
    case (Tick(t), Dispatch(b)) => AtMost(t, b.pkt.ts)
    case (Tick(t), Tick(u)) => Less(t, u)
  }

  ghost predicate WellInterleaved(trace: seq<Event>) {
    forall i, j :: 0 <= i < j < |trace| ==> PairInOrder(trace[i], trace[j])
  }

  /** No tick is overdue: the next one is after the last packet. */
  ghost predicate TraceState(trace: seq<Event>, last: Timestamp, timer: Timestamp) {
    && WellInterleaved(trace)
    && (forall i :: 0 <= i < |trace| && trace[i].Dispatch? ==> AtMost(trace[i].entry.pkt.ts, last))
    && (forall i :: 0 <= i < |trace| && trace[i].Tick? ==> AtMost(trace[i].ts, timer))
    && (Anchor(trace).Some? ==> AtMost(timer, last) && Less(last, Later(timer, 1)))
    && (Anchor(trace).None? ==> forall i :: 0 <= i < |trace| ==> !trace[i].Tick?)
  }

  /** Everything a trace of a multiplexer over `readers` files keeps. */
  ghost predicate TraceValid(trace: seq<Event>, last: Timestamp, timer: Timestamp, readers: nat, inOrder: bool) {
    && Normal(timer) && TicksExact(trace, timer)
    && (forall i :: 0 <= i < |trace| && trace[i].Dispatch? ==> trace[i].entry.reader < readers)
    && (inOrder ==> TraceState(trace, last, timer))
  }

  function DispatchCount(trace: seq<Event>): (r: nat) {
    if trace == [] then 0
    else DispatchCount(trace[..|trace| - 1]) + if trace[|trace| - 1].Dispatch? then 1 else 0
  }

  lemma OneMore(trace: seq<Event>, ev: Event, r: nat)
    ensures PacketsOf(trace + [ev], r) == PacketsOf(trace, r) + if ev.Dispatch? && ev.entry.reader == r then [ev.entry.pkt] else []
    ensures TickTimes(trace + [ev]) == TickTimes(trace) + if ev.Tick? then [ev.ts] else []
    ensures DispatchCount(trace + [ev]) == DispatchCount(trace) + if ev.Dispatch? then 1 else 0
    ensures Anchor(trace + [ev]) == if Anchor(trace).Some? then Anchor(trace)
      else if ev.Dispatch? && ev.entry.pkt.ts.sec != 0 then Some(ev.entry.pkt.ts) else None
  {
  }

  lemma {:induction false} TicksProjections(trace: seq<Event>, from: Timestamp, n: nat, r: nat)
    ensures PacketsOf(trace + Ticks(from, n), r) == PacketsOf(trace, r)
    ensures TickTimes(trace + Ticks(from, n)) == TickTimes(trace) + EverySecond(from, n)
    ensures Anchor(trace + Ticks(from, n)) == Anchor(trace)
    ensures DispatchCount(trace + Ticks(from, n)) == DispatchCount(trace)
  {
    if n == 0 {
      assert trace + Ticks(from, 0) == trace;
    } else {
      TicksProjections(trace, from, n - 1, r);
      var t := trace + Ticks(from, n);
      assert t == trace + Ticks(from, n - 1) + [Tick(Later(from, n))];
      OneMore(trace + Ticks(from, n - 1), Tick(Later(from, n)), r);
      assert TickTimes(trace) + EverySecond(from, n - 1) + [Later(from, n)] == TickTimes(trace) + EverySecond(from, n);
    }
  }

  lemma {:induction false} TicksAt(from: Timestamp, n: nat)
    ensures |Ticks(from, n)| == n && forall k :: 0 <= k < n ==> Ticks(from, n)[k] == Tick(Later(from, k + 1))
  {
    if n > 0 { TicksAt(from, n - 1); }
  }

  lemma {:induction false} EverySecondAt(from: Timestamp, n: nat)
    ensures |EverySecond(from, n)| == n
    ensures forall k :: 0 <= k < n ==> Nanos(EverySecond(from, n)[k]) == Nanos(from) + (k + 1) * NANOS
  {
    if n > 0 { EverySecondAt(from, n - 1); }
  }

  lemma WholeSeconds(d: int, n: int)
    requires n * NANOS <= d < (n + 1) * NANOS
    ensures d / NANOS == n
  {
  }

  lemma {:induction false} EverySecondPlus(from: Timestamp, m: nat, n: nat)
    ensures EverySecond(from, m) + EverySecond(Later(from, m), n) == EverySecond(from, m + n)
    ensures |EverySecond(from, m)| == m
    decreases m + n
  {
    if n > 0 {
      EverySecondPlus(from, m, n - 1);
    } else if m > 0 {
      EverySecondPlus(from, m - 1, 0);
    }
  }

  /** The number of ticks due when a packet at `ts` is read. */
  function Due(timer: Timestamp, ts: Timestamp): (r: nat) {
    var d := Minus(ts, timer).sec;
    if timer.sec == 0 || d < 1 then 0 else d
  }

  function TimerAfter(timer: Timestamp, ts: Timestamp): (r: Timestamp) {
    if timer.sec == 0 then ts else Later(timer, Due(timer, ts))
  }

  /** One packet: its due ticks, then itself. */
  function Extended(trace: seq<Event>, timer: Timestamp, e: Entry): (r: seq<Event>) {
    trace + Ticks(timer, Due(timer, e.pkt.ts)) + [Dispatch(e)]
  }

  /** What was dispatched stays. */
  lemma ExtendedKeeps(trace: seq<Event>, timer: Timestamp, e: Entry)
    ensures trace <= Extended(trace, timer, e)
  {
  }

  /** Only the last event may be a packet at or after `stop`. */
  ghost predicate NotPast(trace: seq<Event>, stop: Timestamp) {
    forall i :: 0 <= i < |trace| - 1 && trace[i].Dispatch? ==> Less(trace[i].entry.pkt.ts, stop)
  }

  lemma StillNotPast(trace: seq<Event>, last: Timestamp, timer: Timestamp, readers: nat, e: Entry, stop: Timestamp)
    requires TraceValid(trace, last, timer, readers, true) && Less(last, stop)
    ensures NotPast(Extended(trace, timer, e), stop)
  {
    hide WellInterleaved, TicksExact;
    var n := Due(timer, e.pkt.ts);
    TicksAt(timer, n);
    var t := Extended(trace, timer, e);
    assert forall i :: |trace| <= i < |trace| + n ==> t[i] == Ticks(timer, n)[i - |trace|];
  }

  lemma ExtendedProjections(trace: seq<Event>, timer: Timestamp, e: Entry, r: nat)
    ensures PacketsOf(Extended(trace, timer, e), r) == PacketsOf(trace, r) + if r == e.reader then [e.pkt] else []
    ensures TickTimes(Extended(trace, timer, e)) == TickTimes(trace) + EverySecond(timer, Due(timer, e.pkt.ts))
    ensures DispatchCount(Extended(trace, timer, e)) == DispatchCount(trace) + 1
    ensures Anchor(Extended(trace, timer, e)) ==
      if Anchor(trace).Some? then Anchor(trace) else if e.pkt.ts.sec != 0 then Some(e.pkt.ts) else None
  {
    var n := Due(timer, e.pkt.ts);
    TicksProjections(trace, timer, n, r);
    OneMore(trace + Ticks(timer, n), Dispatch(e), r);
  }

  lemma TicksStayExact(trace: seq<Event>, timer: Timestamp, e: Entry)
    requires TicksExact(trace, timer) && 0 <= e.pkt.ts.sec
    ensures TicksExact(Extended(trace, timer, e), TimerAfter(timer, e.pkt.ts))
  {
    var n := Due(timer, e.pkt.ts);
    ExtendedProjections(trace, timer, e, 0);
    if Anchor(trace).Some? {
      var f, m := Anchor(trace).value, |TickTimes(trace)|;
      EverySecondPlus(f, m, n);
      EverySecondPlus(f, m + n, 0);
      EverySecondPlus(timer, n, 0);
    } else {
      assert n == 0 && EverySecond(timer, 0) == [];
      assert TickTimes(Extended(trace, timer, e)) == [];
    }
  }

  /** Ticks due by `ts` are all at or before it, and the next one is after it. */
  lemma DueBracketsPacket(timer: Timestamp, ts: Timestamp)
    requires Normal(timer) && Normal(ts) && timer.sec > 0 && AtMost(timer, ts)
    ensures AtMost(TimerAfter(timer, ts), ts) && Less(ts, Later(TimerAfter(timer, ts), 1))
  {
  }

  /** The trace after one more packet, event by event. */
  lemma ExtendedAt(trace: seq<Event>, timer: Timestamp, e: Entry)
    ensures var t, m, n := Extended(trace, timer, e), |trace|, Due(timer, e.pkt.ts);
      && |t| == m + n + 1 && t[m + n] == Dispatch(e)
      && (forall i :: 0 <= i < m ==> t[i] == trace[i])
      && (forall k :: m <= k < m + n ==> t[k] == Tick(Later(timer, k - m + 1)))
  {
    hide Due;
    TicksAt(timer, Due(timer, e.pkt.ts));
  }

  /** An earlier event stays in order with what comes now. */
  lemma OldInOrder(past: Event, last: Timestamp, timer: Timestamp, e: Entry, k: nat)
    requires Normal(timer) && AtMost(last, e.pkt.ts) && Less(last, Later(timer, 1)) && k >= 1
    requires if past.Dispatch? then AtMost(past.entry.pkt.ts, last) else AtMost(past.ts, timer) && AtMost(timer, last)
    ensures PairInOrder(past, Tick(Later(timer, k))) && PairInOrder(past, Dispatch(e))
  {
  }

  lemma TicksInOrder(timer: Timestamp, n: nat, e: Entry, k: nat, l: nat)
    requires AtMost(Later(timer, n), e.pkt.ts) && 1 <= k <= n
    ensures k < l ==> PairInOrder(Tick(Later(timer, k)), Tick(Later(timer, l)))
    ensures PairInOrder(Tick(Later(timer, k)), Dispatch(e))
  {
  }

  lemma InterleaveTicks(trace: seq<Event>, last: Timestamp, timer: Timestamp, e: Entry)
    requires TraceState(trace, last, timer) && Anchor(trace).Some? && Normal(timer)
    requires AtMost(last, e.pkt.ts) && AtMost(TimerAfter(timer, e.pkt.ts), e.pkt.ts) && timer.sec != 0
    ensures WellInterleaved(Extended(trace, timer, e))
  {
    hide PairInOrder, Extended, Due, Less, AtMost;
    var t, m, n := Extended(trace, timer, e), |trace|, Due(timer, e.pkt.ts);
    ExtendedAt(trace, timer, e);
    forall i, j | 0 <= i < j < |t| ensures PairInOrder(t[i], t[j]) {
      if i < m && j >= m {
        OldInOrder(trace[i], last, timer, e, if j < m + n then j - m + 1 else 1);
      } else if i >= m {
        TicksInOrder(timer, n, e, i - m + 1, j - m + 1);
      }
    }
  }

  lemma InterleaveFirst(trace: seq<Event>, last: Timestamp, timer: Timestamp, e: Entry)
    requires TraceState(trace, last, timer) && Anchor(trace).None? && AtMost(last, e.pkt.ts)
    ensures WellInterleaved(trace + [Dispatch(e)])
  {
    var t, m := trace + [Dispatch(e)], |trace|;
    forall i, j | 0 <= i < j < |t| ensures PairInOrder(t[i], t[j]) {
      if j == m { assert AtMost(trace[i].entry.pkt.ts, last); }
    }
  }

  /** Packets and ticks so far are not after the new packet and the new timer. */
  lemma BoundedAfter(trace: seq<Event>, last: Timestamp, timer: Timestamp, e: Entry)
    requires TraceState(trace, last, timer) && AtMost(last, e.pkt.ts)
    requires Anchor(trace).None? ==> Due(timer, e.pkt.ts) == 0
    requires Anchor(trace).Some? ==> timer.sec != 0
    ensures var t := Extended(trace, timer, e);
      && (forall i :: 0 <= i < |t| && t[i].Dispatch? ==> AtMost(t[i].entry.pkt.ts, e.pkt.ts))
      && (forall i :: 0 <= i < |t| && t[i].Tick? ==> AtMost(t[i].ts, TimerAfter(timer, e.pkt.ts)))
  {
    hide WellInterleaved, Extended, Due;
    ExtendedAt(trace, timer, e);
  }

  lemma FirstExtended(trace: seq<Event>, timer: Timestamp, e: Entry)
    requires timer.sec == 0
    ensures Extended(trace, timer, e) == trace + [Dispatch(e)]
  {
  }

  lemma StaysWellInterleaved(trace: seq<Event>, last: Timestamp, timer: Timestamp, e: Entry)
    requires TraceState(trace, last, timer) && TicksExact(trace, timer)
    requires Normal(timer) && Normal(e.pkt.ts) && 0 <= e.pkt.ts.sec && AtMost(last, e.pkt.ts)
    ensures TraceState(Extended(trace, timer, e), e.pkt.ts, TimerAfter(timer, e.pkt.ts))
  {
    hide WellInterleaved, Extended;
    ExtendedProjections(trace, timer, e, 0);
    BoundedAfter(trace, last, timer, e);
    if Anchor(trace).Some? {
      DueBracketsPacket(timer, e.pkt.ts);
      InterleaveTicks(trace, last, timer, e);
    } else {
      FirstExtended(trace, timer, e);
      InterleaveFirst(trace, last, timer, e);
    }
  }

  lemma TraceStep(trace: seq<Event>, last: Timestamp, timer: Timestamp, readers: nat, inOrder: bool, e: Entry)
    requires TraceValid(trace, last, timer, readers, inOrder)
    requires Normal(e.pkt.ts) && 0 <= e.pkt.ts.sec && e.reader < readers && (inOrder ==> AtMost(last, e.pkt.ts))
    ensures TraceValid(Extended(trace, timer, e), e.pkt.ts, TimerAfter(timer, e.pkt.ts), readers, inOrder)
  {
    TicksStayExact(trace, timer, e);
    if inOrder { StaysWellInterleaved(trace, last, timer, e); }
    TicksAt(timer, Due(timer, e.pkt.ts));
  }

  // ----- what happens to each reader's packets -----

  function Queued(held: map<nat, Packet>, r: nat): (result: seq<Packet>) {
    if r in held then [held[r]] else []
  }

  /** Nothing is lost, repeated or reordered within reader `r`; it has at most one packet queued,
      and none only when it has no more. */
  ghost predicate ReaderOk(frames: seq<Frame>, latency: int, trace: seq<Event>, r: nat, held: map<nat, Packet>, rest: seq<Frame>) {
    && PacketsOf(trace, r) + Queued(held, r) + Yield(rest, latency) == Yield(frames, latency)
    && (r !in held ==> Yield(rest, latency) == [])
  }

  ghost predicate ReadersOk(files: seq<seq<Frame>>, latencies: seq<int>, trace: seq<Event>, held: map<nat, Packet>, rest: seq<seq<Frame>>) {
    && |latencies| == |files| == |rest|
    && forall r :: 0 <= r < |files| ==> ReaderOk(files[r], latencies[r], trace, r, held, rest[r])
  }

  ghost predicate NoneBefore(ts: Timestamp, ps: seq<Packet>) {
    forall i :: 0 <= i < |ps| ==> AtMost(ts, ps[i].ts)
  }

  /** What is known of the packet a reader has in the queue. */
  lemma HeldPacket(frames: seq<Frame>, latency: int, trace: seq<Event>, r: nat, held: map<nat, Packet>, rest: seq<Frame>)
    requires ReaderOk(frames, latency, trace, r, held, rest) && r in held && CaptureTimes(frames) && Representable(latency)
    ensures Normal(held[r].ts) && 0 <= held[r].ts.sec
    ensures FileInOrder(frames) ==> NoneBefore(held[r].ts, Yield(rest, latency))
  {
    var before, after, all := PacketsOf(trace, r), Yield(rest, latency), Yield(frames, latency);
    YieldInOrder(frames, latency);
    assert all == before + [held[r]] + after && all[|before|] == held[r];
    assert forall i :: 0 <= i < |after| ==> after[i] == all[|before| + 1 + i];
  }

  /** Reader `r` hands over its next packet, if it has one. */
  ghost predicate Refilled(latency: int, r: nat, held: map<nat, Packet>, rest: seq<Frame>, held': map<nat, Packet>, rest': seq<Frame>) {
    var ps := Yield(rest, latency);
    if ps == [] then held' == held && Yield(rest', latency) == []
    else held' == held[r := ps[0]] && Yield(rest', latency) == ps[1..]
  }

  lemma RefillFirst(frames: seq<Frame>, latency: int, r: nat, held: map<nat, Packet>, held': map<nat, Packet>, rest': seq<Frame>)
    requires r !in held && Refilled(latency, r, held, frames, held', rest')
    ensures ReaderOk(frames, latency, [], r, held', rest')
  {
  }

  lemma HeldElsewhere(frames: seq<Frame>, latency: int, k: nat, held: map<nat, Packet>, held': map<nat, Packet>, rest: seq<Frame>)
    requires ReaderOk(frames, latency, [], k, held, rest)
    requires (k in held <==> k in held') && (k in held ==> held[k] == held'[k])
    ensures ReaderOk(frames, latency, [], k, held', rest)
  {
  }

  /** The reader whose packet is dispatched. */
  lemma RefillAfterDispatch(frames: seq<Frame>, latency: int, trace: seq<Event>, timer: Timestamp, e: Entry,
                            held: map<nat, Packet>, rest: seq<Frame>, held': map<nat, Packet>, rest': seq<Frame>)
    requires ReaderOk(frames, latency, trace, e.reader, held, rest)
    requires e.reader in held && held[e.reader] == e.pkt
    requires Refilled(latency, e.reader, held - {e.reader}, rest, held', rest')
    ensures ReaderOk(frames, latency, Extended(trace, timer, e), e.reader, held', rest')
  {
    ExtendedProjections(trace, timer, e, e.reader);
    var ps := Yield(rest, latency);
    if ps != [] { assert ps == [ps[0]] + ps[1..]; }
    assert PacketsOf(trace, e.reader) + [e.pkt] + ps == Yield(frames, latency);
  }

  /** The other readers. */
  lemma OthersAfterDispatch(frames: seq<Frame>, latency: int, trace: seq<Event>, timer: Timestamp, e: Entry, r: nat,
                            held: map<nat, Packet>, rest: seq<Frame>, held': map<nat, Packet>)
    requires ReaderOk(frames, latency, trace, r, held, rest) && r != e.reader
    requires (r in held <==> r in held') && (r in held ==> held[r] == held'[r])
    ensures ReaderOk(frames, latency, Extended(trace, timer, e), r, held', rest)
  {
    ExtendedProjections(trace, timer, e, r);
  }

  /** All readers. */
  lemma AllAfterDispatch(files: seq<seq<Frame>>, latencies: seq<int>, trace: seq<Event>, timer: Timestamp, e: Entry,
                         held: map<nat, Packet>, rest: seq<seq<Frame>>, held': map<nat, Packet>, rest': seq<seq<Frame>>)
    requires ReadersOk(files, latencies, trace, held, rest) && e.reader < |files| == |rest'|
    requires e.reader in held && held[e.reader] == e.pkt
    requires Refilled(latencies[e.reader], e.reader, held - {e.reader}, rest[e.reader], held', rest'[e.reader])
    requires forall r :: 0 <= r < |files| && r != e.reader ==> rest'[r] == rest[r]
    ensures ReadersOk(files, latencies, Extended(trace, timer, e), held', rest')
    ensures (forall r :: r in held ==> AtMost(e.pkt.ts, held[r].ts)) && NoneBefore(e.pkt.ts, Yield(rest[e.reader], latencies[e.reader])) ==>
      forall r :: r in held' ==> AtMost(e.pkt.ts, held'[r].ts)
    ensures |held'| <= |held|
  {
    hide Extended, Yield, AtMost, ReaderOk;
    forall r | 0 <= r < |files| ensures ReaderOk(files[r], latencies[r], Extended(trace, timer, e), r, held', rest'[r]) {
      if r == e.reader {
        RefillAfterDispatch(files[r], latencies[r], trace, timer, e, held, rest[r], held', rest'[r]);
      } else {
        OthersAfterDispatch(files[r], latencies[r], trace, timer, e, r, held, rest[r], held');
      }
    }
    assert held'.Keys <= held.Keys;
    SubsetSize(held'.Keys, held.Keys);
    assert |held'| == |held'.Keys| && |held| == |held.Keys|;
  }

  // ----- the multiplexer -----

  class PcapFileMux {
    const files: seq<seq<Frame>>
    const latencies: seq<int>
    var rest: seq<seq<Frame>>      // what each reader has not read yet
    var queue: multiset<Entry>     // m_queue
    var stopTs: Timestamp
    var lastTs: Timestamp
    var timerTs: Timestamp
    var trace: seq<Event>          // the calls made to the packet and timer listeners
    ghost var held: map<nat, Packet>  // the packet each reader has in the queue

    /** Every file is time-ordered. */
    ghost predicate InOrder() {
      forall r :: 0 <= r < |files| ==> FileInOrder(files[r])
    }

    ghost predicate Shape()
      reads this`rest, this`queue, this`held
    {
      && |latencies| == |files| == |rest|
      && (forall r :: 0 <= r < |files| ==> CaptureTimes(files[r]) && Representable(latencies[r]))
      && (forall e :: queue[e] == if e.reader in held && held[e.reader] == e.pkt then 1 else 0)
      && (forall r :: r in held ==> r < |files|)
    }

    ghost predicate Valid()
      reads this
    {
      && Shape()
      && ReadersOk(files, latencies, trace, held, rest)
      && TraceValid(trace, lastTs, timerTs, |files|, InOrder())
      && (InOrder() ==> forall r :: r in held ==> AtMost(lastTs, held[r].ts))
    }

    /** Read frames from one reader until one is queued or it has no more; after a read error the
        reader is not asked again. */
    method PacketsFromReader(r: nat) returns (count: nat)
      requires Shape() && r < |files| && r !in held
      modifies this`rest, this`queue, this`held
      ensures Shape()
      ensures Refilled(latencies[r], r, old(held), old(rest[r]), held, rest[r])
      ensures forall k :: 0 <= k < |files| && k != r ==> rest[k] == old(rest[k])
      ensures |Concat(rest)| + count == old(|Concat(rest)|)
      ensures |held| > old(|held|) ==> count > 0
    {
      var handled := false;
      count := 0;
      while !handled
        invariant Shape() && |Concat(rest)| + count == old(|Concat(rest)|) && (handled ==> count > 0)
        invariant forall k :: 0 <= k < |files| && k != r ==> rest[k] == old(rest[k])
        invariant !handled ==> held == old(held)
        invariant !handled ==> Yield(rest[r], latencies[r]) == Yield(old(rest[r]), latencies[r])
        invariant var ps := Yield(old(rest[r]), latencies[r]);
          handled ==>
            ps != [] && held == old(held)[r := ps[0]] &&
            Yield(rest[r], latencies[r]) == ps[1..]
        decreases !handled, |rest[r]|
      {
        if rest[r] == [] || rest[r][0].Unreadable? { return; }
        var frame := rest[r][0];
        ConcatReplace(rest, r, rest[r][1..]);
        rest := rest[r := rest[r][1..]];
        count := count + 1;
        if frame.Udp? {
          var pkt := Packet(Delayed(frame.ts, latencies[r]), frame.payload);
          queue := queue + multiset{Entry(r, pkt)};
          held := held[r := pkt];
          handled := true;
        }
      }
    }

    method InitialReaderLoad()
      requires Shape() && held == map[] && trace == [] && rest == files && lastTs == EPOCH
      modifies this`rest, this`queue, this`held
      ensures Shape() && ReadersOk(files, latencies, [], held, rest)
      ensures forall k :: k in held ==> AtMost(EPOCH, held[k].ts)
    {
      for r := 0 to |files|
        invariant Shape()
        invariant forall k :: 0 <= k < r ==> ReaderOk(files[k], latencies[k], [], k, held, rest[k])
        invariant forall k :: r <= k < |files| ==> k !in held && rest[k] == files[k]
        invariant forall k :: k in held ==> AtMost(EPOCH, held[k].ts)
      {
        YieldInOrder(files[r], latencies[r]);
        ghost var held0 := held;
        var _ := PacketsFromReader(r);
        RefillFirst(files[r], latencies[r], r, held0, held, rest[r]);
        forall k | 0 <= k < r ensures ReaderOk(files[k], latencies[k], [], k, held, rest[k]) {
          HeldElsewhere(files[k], latencies[k], k, held0, held, rest[k]);
        }
      }
    }

    /** `initial_reader_load`. */
    constructor (files: seq<seq<Frame>>, latencies: seq<int>)
      requires |latencies| == |files|
      requires forall r :: 0 <= r < |files| ==> CaptureTimes(files[r]) && Representable(latencies[r])
      ensures this.files == files && this.latencies == latencies
      ensures Valid() && trace == [] && stopTs == EPOCH && lastTs == EPOCH
    {
      this.files, this.latencies, this.rest := files, latencies, files;
      queue, held, trace := multiset{}, map[], [];
      stopTs, lastTs, timerTs := EPOCH, EPOCH, EPOCH;
      new;
      InitialReaderLoad();
    }

    /** `update_timers`, for the packet time already stored in `lastTs`. */
    method UpdateTimers()
      modifies this`timerTs, this`trace
      ensures timerTs == TimerAfter(old(timerTs), lastTs)
      ensures trace == old(trace) + Ticks(old(timerTs), Due(old(timerTs), lastTs))
    {
      if timerTs.sec == 0 {
        timerTs := lastTs;
      } else {
        var seconds := Minus(lastTs, timerTs).sec;
        ghost var k := 0;
        while seconds >= 1
          invariant 0 <= k && k + seconds == Minus(lastTs, old(timerTs)).sec && (k > 0 ==> seconds >= 0)
          invariant timerTs == Later(old(timerTs), k)
          invariant trace == old(trace) + Ticks(old(timerTs), k)
        {
          seconds := seconds - 1;
          k := k + 1;
          timerTs := timerTs.(sec := timerTs.sec + 1);
          trace := trace + [Tick(timerTs)];
        }
      }
    }

    /** The queue's first entry: one of those with the least time. */
    method Top() returns (e: Entry)
      requires Shape() && queue != multiset{}
      ensures e in queue && forall x :: x in queue ==> AtMost(e.pkt.ts, x.pkt.ts)
    {
      e :| e in queue;
      var todo := queue - multiset{e};
      while todo != multiset{}
        invariant e in queue && todo <= queue
        invariant forall x :: x in queue && x !in todo ==> AtMost(e.pkt.ts, x.pkt.ts)
        decreases |todo|
      {
        var x :| x in todo;
        if Less(x.pkt.ts, e.pkt.ts) { e := x; }
        todo := todo[x := 0];
      }
    }

    /** What is known of a queued packet. */
    lemma QueuedPacket(e: Entry)
      requires Valid() && e in queue
      ensures e.reader in held && held[e.reader] == e.pkt && e.reader < |files|
      ensures Normal(e.pkt.ts) && 0 <= e.pkt.ts.sec
      ensures InOrder() ==> NoneBefore(e.pkt.ts, Yield(rest[e.reader], latencies[e.reader]))
    {
      var r := e.reader;
      HeldPacket(files[r], latencies[r], trace, r, held, rest[r]);
    }

    lemma HeldIsQueued()
      requires Shape()
      ensures forall r :: r in held ==> Entry(r, held[r]) in queue
    {
    }

    /** The ticks due and then the packet. */
    method Deliver(e: Entry)
      requires TraceValid(trace, lastTs, timerTs, |files|, InOrder())
      requires Normal(e.pkt.ts) && 0 <= e.pkt.ts.sec && e.reader < |files| && (InOrder() ==> AtMost(lastTs, e.pkt.ts))
      modifies this`lastTs, this`timerTs, this`trace
      ensures TraceValid(trace, lastTs, timerTs, |files|, InOrder())
      ensures trace == Extended(old(trace), old(timerTs), e) && lastTs == e.pkt.ts
    {
      TraceStep(trace, lastTs, timerTs, |files|, InOrder(), e);
      lastTs := e.pkt.ts;
      UpdateTimers();
      trace := trace + [Dispatch(e)];
    }

    /** The dispatched packet leaves the queue and its reader's next one enters it. */
    method PopAndRefill(e: Entry, ghost trace0: seq<Event>, ghost timer0: Timestamp)
      requires Shape() && e in queue && e.reader < |files| && trace == Extended(trace0, timer0, e)
      requires ReadersOk(files, latencies, trace0, held, rest)
      requires InOrder() ==> forall r :: r in held ==> AtMost(e.pkt.ts, held[r].ts)
      requires InOrder() ==> NoneBefore(e.pkt.ts, Yield(rest[e.reader], latencies[e.reader]))
      modifies this`rest, this`queue, this`held
      ensures Shape() && ReadersOk(files, latencies, trace, held, rest)
      ensures InOrder() ==> forall r :: r in held ==> AtMost(e.pkt.ts, held[r].ts)
      ensures |Concat(rest)| + |held| < old(|Concat(rest)| + |held|)
    {
      hide TraceValid, Extended, Yield, FileInOrder, CaptureTimes, AtMost, ReadersOk, NoneBefore;
      ghost var held0, rest0 := held, rest;
      queue := queue - multiset{e};
      held := held - {e.reader};
      assert |held| == |held0| - 1 by { assert held.Keys == held0.Keys - {e.reader}; }
      var count := PacketsFromReader(e.reader);
      AllAfterDispatch(files, latencies, trace0, timer0, e, held0, rest0, held, rest);
    }

    /** Dispatch the earliest queued packet, its due ticks first, and refill from its reader. */
    method ReadNextPacket() returns (ok: bool, ghost e: Entry)
      requires Valid()
      modifies this
      ensures Valid() && stopTs == old(stopTs) && old(trace) <= trace
      ensures ok <==> old(queue) != multiset{}
      ensures !ok ==> queue == old(queue) && trace == old(trace) && lastTs == old(lastTs)
      ensures ok ==>
        && e in old(queue) && (forall x :: x in old(queue) ==> AtMost(e.pkt.ts, x.pkt.ts))
        && trace == Extended(old(trace), old(timerTs), e) && lastTs == e.pkt.ts
      ensures ok ==> |Concat(rest)| + |held| < old(|Concat(rest)| + |held|)
    {
      hide TraceValid, Extended, Yield, ReadersOk, FileInOrder, Shape, AtMost;
      if queue == multiset{} { return false, Entry(0, Packet(EPOCH, [])); }
      var top := Top();
      QueuedPacket(top);
      HeldIsQueued();
      assert forall r :: r in held ==> AtMost(top.pkt.ts, Entry(r, held[r]).pkt.ts);
      Deliver(top);
      ExtendedKeeps(old(trace), old(timerTs), top);
      PopAndRefill(top, old(trace), old(timerTs));
      return true, top;
    }

    /** Every packet of every file has been dispatched, once and in file order. */
    ghost predicate AllDispatched()
      reads this
    {
      |latencies| == |files| && forall r :: 0 <= r < |files| ==> PacketsOf(trace, r) == Yield(files[r], latencies[r])
    }

    /** In every state: the packets dispatched from a reader are the first of its UDP frames, in order, each
        with its own payload at its own time plus the reader's latency. */
    lemma DispatchedAsCaptured(r: nat)
      requires Valid() && r < |files|
      ensures PacketsAsCaptured(PacketsOf(trace, r), files[r], latencies[r])
    {
      hide TraceValid, PacketOf;
      YieldAsCaptured(files[r], latencies[r]);
      var all, some := Yield(files[r], latencies[r]), PacketsOf(trace, r);
      assert all == some + (Queued(held, r) + Yield(rest[r], latencies[r]));
      assert forall i :: 0 <= i < |some| ==> some[i] == all[i];
    }

    /** In every state: the ticks so far fell one, two, ... whole seconds after the instant the timer started
        from, and, with ordered files, as many as whole seconds have passed. */
    lemma TicksAtWholeSeconds()
      requires Valid() && Anchor(trace).Some?
      ensures var from, ticks := Nanos(Anchor(trace).value), TickTimes(trace);
        && (forall k :: 0 <= k < |ticks| ==> Nanos(ticks[k]) == from + (k + 1) * NANOS)
        && (InOrder() && Normal(lastTs) ==> |ticks| == (Nanos(lastTs) - from) / NANOS)
    {
      hide WellInterleaved, ReadersOk, Shape;
      var f, n := Anchor(trace).value, |TickTimes(trace)|;
      EverySecondAt(f, n);
      if InOrder() && Normal(lastTs) {
        OrderIsInstant(timerTs, lastTs);
        OrderIsInstant(lastTs, Later(timerTs, 1));
        WholeSeconds(Nanos(lastTs) - Nanos(f), n);
      }
    }

    lemma EmptyQueueMeansDone()
      requires Valid() && queue == multiset{}
      ensures AllDispatched()
      ensures forall r :: 0 <= r < |files| ==> |PacketsOf(trace, r)| == |UdpFrames(files[r])|
    {
      forall r | 0 <= r < |files| ensures PacketsOf(trace, r) == Yield(files[r], latencies[r]) {
        assert r in held ==> queue[Entry(r, held[r])] == 1;
      }
      forall r | 0 <= r < |files| ensures |PacketsOf(trace, r)| == |UdpFrames(files[r])| { YieldAsCaptured(files[r], latencies[r]); }
    }

    /** `read_packets`: dispatch until `num` packets (no limit when negative) or, with a stop time,
        until a packet at or after it. The count includes a final attempt that found nothing. */
    method ReadPackets(num: int) returns (count: nat)
      requires Valid()
      modifies this
      ensures Valid() && stopTs == old(stopTs) && old(trace) <= trace
      ensures DispatchCount(trace) == old(DispatchCount(trace)) + count
        || (AllDispatched() && DispatchCount(trace) + 1 == old(DispatchCount(trace)) + count)
      ensures AllDispatched() || !((stopTs.sec == 0 && (num < 0 || count < num)) || Less(lastTs, stopTs))
      ensures InOrder() && stopTs.sec != 0 ==> trace == old(trace) || NotPast(trace, stopTs)
    {
      count := 0;
      while (stopTs.sec == 0 && (num < 0 || count < num)) || Less(lastTs, stopTs)
        invariant Valid() && stopTs == old(stopTs) && old(trace) <= trace
        invariant DispatchCount(trace) == old(DispatchCount(trace)) + count
        invariant InOrder() && stopTs.sec != 0 ==> trace == old(trace) || NotPast(trace, stopTs)
        decreases |Concat(rest)| + |held|
      {
        count := count + 1;
        ghost var trace0, timer0, last0 := trace, timerTs, lastTs;
        ghost var e;
        var ok;
        ok, e := ReadNextPacket();
        if !ok {
          EmptyQueueMeansDone();
          break;
        }
        ExtendedProjections(trace0, timer0, e, 0);
        if InOrder() && stopTs.sec != 0 { StillNotPast(trace0, last0, timer0, |files|, e, stopTs); }
      }
    }

    /** `read_packets_until`: when the files are in order, the only packet at or after `ts` dispatched is
        the last one, and there is one unless everything has been dispatched. */
    method ReadPacketsUntil(ts: Timestamp) returns (count: nat)
      requires Valid()
      modifies this
      ensures Valid() && stopTs == ts && old(trace) <= trace
      ensures AllDispatched() || (ts.sec != 0 && AtMost(ts, lastTs))
      ensures InOrder() && ts.sec != 0 ==> trace == old(trace) || NotPast(trace, ts)
    {
      stopTs := ts;
      count := ReadPackets(-1);
    }
  }
}
