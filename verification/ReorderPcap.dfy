/** Bounded-memory re-sorting of a packet capture: the chunked pass and the pass-doubling driver
    of `src/apps/reorderpcap`. */
module ReorderPcap {
  import opened Basics
  import opened Time

  type Bytes = seq<bv8>

  datatype Packet = Packet(ts: Timestamp, body: Bytes)
  datatype Record = Record(ts: Timestamp, seqnum: nat, body: Bytes)

  const EXIT_SUCCESS := 0
  const EXIT_FAILURE := 1

  /** `operator<` on records. */
  predicate Before(a: Record, b: Record) {
    Less(a.ts, b.ts) || (a.ts == b.ts && a.seqnum < b.seqnum)
  }

  /** A capture: packet times count from the epoch. */
  ghost predicate Capture(pkts: seq<Packet>) {
    forall i :: 0 <= i < |pkts| ==> AtMost(EPOCH, pkts[i].ts)
  }

  function RecordAt(pkts: seq<Packet>, i: nat): (r: Record)
    requires i < |pkts|
  {
    Record(pkts[i].ts, i, pkts[i].body)
  }

  /** The input as records, in file order. */
  function Tagged(pkts: seq<Packet>): (s: seq<Record>)
    ensures |s| == |pkts| && forall i :: 0 <= i < |s| ==> s[i] == RecordAt(pkts, i)
  {
    seq(|pkts|, i requires 0 <= i < |pkts| => RecordAt(pkts, i))
  }

  // ----- what a sorted output is -----

  ghost predicate Ascending(s: seq<Record>) {
    forall i, j :: 0 <= i < j < |s| ==> Before(s[i], s[j])
  }

  /** `s` is the input re-ordered by time, packets with equal times staying in file order. */
  ghost predicate StableSortOf(s: seq<Record>, pkts: seq<Packet>) {
    Ascending(s) && multiset(s) == multiset(Tagged(pkts))
  }

  lemma SameHead(s: seq<Record>, t: seq<Record>)
    requires Ascending(s) && Ascending(t) && multiset(s) == multiset(t) && s != []
    ensures t != [] && s[0] == t[0]
  {
    assert s[0] in multiset(t);
    var i :| 0 <= i < |t| && t[i] == s[0];
    assert t[0] in multiset(s);
    var j :| 0 <= j < |s| && s[j] == t[0];
  }

  /** There is only one such order. */
  lemma {:induction false} StableSortUnique(s: seq<Record>, t: seq<Record>)
    requires Ascending(s) && Ascending(t) && multiset(s) == multiset(t)
    ensures s == t
    decreases |s|
  {
    if s == [] {
      assert |multiset(t)| == |t|;
    } else {
      SameHead(s, t);
      assert s == [s[0]] + s[1..] && t == [t[0]] + t[1..];
      assert multiset(s[1..]) == multiset(s) - multiset{s[0]};
      assert multiset(t[1..]) == multiset(t) - multiset{t[0]};
      StableSortUnique(s[1..], t[1..]);
    }
  }

  // ----- when a chunk size is large enough -----

  /** The earlier packets that must be written after packet `i`. */
  ghost function Overtaken(pkts: seq<Packet>, i: int): (r: set<nat>)
    requires i < |pkts|
  {
    set j: nat | j < i && Less(pkts[i].ts, pkts[j].ts)
  }

  /** Packet `i` arrives too late for chunk size `bs`. */
  ghost predicate TooLate(pkts: seq<Packet>, bs: int, i: int)
    requires i < |pkts|
  {
    |Overtaken(pkts, i)| >= bs
  }

  ghost predicate ChunkSuffices(pkts: seq<Packet>, bs: int) {
    bs <= 0 || forall i :: 0 <= i < |pkts| ==> !TooLate(pkts, bs, i)
  }

  lemma LargerChunkSuffices(pkts: seq<Packet>, bs: int, larger: int)
    requires 0 < bs <= larger && ChunkSuffices(pkts, bs)
    ensures ChunkSuffices(pkts, larger)
  {
    forall i | 0 <= i < |pkts| ensures !TooLate(pkts, larger, i) {
      assert !TooLate(pkts, bs, i);
    }
  }

  lemma {:induction false} BoundedSize(a: set<nat>, n: nat)
    requires forall j :: j in a ==> j < n
    ensures |a| <= n
  {
    if a != {} {
      var j :| j in a;
      BoundedSize(a - {n - 1}, n - 1);
    }
  }

  /** A chunk that is too small is smaller than the number of packets. */
  lemma TooLateBoundsChunk(pkts: seq<Packet>, bs: int, i: int)
    requires 0 <= i < |pkts| && TooLate(pkts, bs, i)
    ensures bs < |pkts|
  {
    BoundedSize(Overtaken(pkts, i), i);
  }

  // ----- the heap -----

  /** The record the priority queue yields first. */
  ghost predicate IsTop(recs: set<Record>, r: Record) {
    r in recs && forall x :: x in recs && x != r ==> Before(r, x)
  }

  ghost predicate DistinctSeqnums(recs: set<Record>) {
    forall a, b :: a in recs && b in recs && a.seqnum == b.seqnum ==> a == b
  }

  /** `std::priority_queue::top` with `std::greater`. */
  method Top(recs: set<Record>) returns (r: Record)
    requires recs != {} && DistinctSeqnums(recs)
    ensures IsTop(recs, r)
  {
    r :| r in recs;
    var todo := recs - {r};
    while todo != {}
      invariant r in recs && todo <= recs && r !in todo
      invariant forall x :: x in recs && x !in todo && x != r ==> Before(r, x)
      decreases |todo|
    {
      var x :| x in todo;
      if Before(x, r) { r := x; }
      todo := todo - {x};
    }
  }

  /** What the pass has done after reading `n` packets without giving up. The heap holds the
      packets numbered in `held`, fewer than `bs` of them when chunked; the rest are written. */
  ghost predicate PassState(pkts: seq<Packet>, bs: int, n: nat,
                            recs: set<Record>, held: set<nat>, out: seq<Record>, last: Timestamp) {
    && n <= |pkts|
    && (forall r :: r in recs <==> 0 <= r.seqnum < n && r == RecordAt(pkts, r.seqnum) && r.seqnum in held)
    && (forall k :: k in held ==> 0 <= k < n)
    && |held| + |out| == n
    && (bs > 0 ==> |held| < bs)
    && (out != [] ==> bs > 0 && |held| == bs - 1)
    && (forall i :: 0 <= i < |out| ==> 0 <= out[i].seqnum < n && out[i] == RecordAt(pkts, out[i].seqnum) && out[i].seqnum !in held)
    && (forall k :: 0 <= k < n && k !in held ==> RecordAt(pkts, k) in out)
    && Ascending(out)
    && (forall i, r :: 0 <= i < |out| && r in recs ==> Before(out[i], r))
    && last == (if out == [] then EPOCH else out[|out| - 1].ts)
  }

  /** Everything that overtakes the packet just read is still held, unless the pass must give up. */
  lemma NotTooLate(pkts: seq<Packet>, bs: int, n: nat, recs: set<Record>, held: set<nat>, out: seq<Record>, last: Timestamp)
    requires PassState(pkts, bs, n, recs, held, out, last) && n < |pkts| && bs > 0
    requires out == [] || AtMost(last, pkts[n].ts)
    ensures !TooLate(pkts, bs, n)
  {
    forall i | 0 <= i < |out| ensures !Less(pkts[n].ts, out[i].ts) {
      assert i == |out| - 1 || Before(out[i], out[|out| - 1]);
    }
    assert Overtaken(pkts, n) <= held;
    SubsetSize(Overtaken(pkts, n), held);
  }

  /** When the heap's minimum precedes the last record written it is the packet just read, and the
      held packets and the last one written overtake it. */
  lemma MustGiveUp(pkts: seq<Packet>, bs: int, n: nat, recs: set<Record>, held: set<nat>, out: seq<Record>, last: Timestamp, r: Record)
    requires Capture(pkts) && PassState(pkts, bs, n, recs, held, out, last) && n < |pkts| && bs > 0
    requires IsTop(recs + {RecordAt(pkts, n)}, r) && Less(r.ts, last) && |held| == bs - 1
    ensures TooLate(pkts, bs, n)
  {
    assert out != [];
    var w := out[|out| - 1];
    assert r == RecordAt(pkts, n);
    forall j | j in held + {w.seqnum} ensures j in Overtaken(pkts, n) {
      if j in held {
        assert RecordAt(pkts, j) in recs;
        assert Before(w, RecordAt(pkts, j));
      }
    }
    assert |held + {w.seqnum}| == bs;
    SubsetSize(held + {w.seqnum}, Overtaken(pkts, n));
  }

  lemma {:induction false} DistinctAtMostOnce<T>(s: seq<T>, r: T)
    requires forall i, j :: 0 <= i < j < |s| ==> s[i] != s[j]
    ensures multiset(s)[r] <= 1
  {
    if s != [] {
      var k := |s| - 1;
      assert s == s[..k] + [s[k]];
      DistinctAtMostOnce(s[..k], r);
      if s[k] == r { assert r !in s[..k]; assert r !in multiset(s[..k]); }
    }
  }

  lemma AtMostOnce(s: seq<Record>, r: Record)
    requires Ascending(s)
    ensures multiset(s)[r] <= 1
  {
    forall i, j | 0 <= i < j < |s| ensures s[i] != s[j] { assert Before(s[i], s[j]); }
    DistinctAtMostOnce(s, r);
  }

  /** The records written and held together are the packets read. */
  lemma {:induction false} AllWritten(s: seq<Record>, pkts: seq<Packet>)
    requires |s| == |pkts| && Ascending(s)
    requires forall i :: 0 <= i < |s| ==> 0 <= s[i].seqnum < |pkts| && s[i] == RecordAt(pkts, s[i].seqnum)
    requires forall k :: 0 <= k < |pkts| ==> RecordAt(pkts, k) in s
    ensures multiset(s) == multiset(Tagged(pkts))
  {
    var t := Tagged(pkts);
    forall r ensures multiset(s)[r] == multiset(t)[r] {
      AtMostOnce(s, r);
      forall i, j | 0 <= i < j < |t| ensures t[i] != t[j] { }
      DistinctAtMostOnce(t, r);
      if r in s { assert t[r.seqnum] == r; assert r in t; }
      if r in t { var i :| 0 <= i < |t| && t[i] == r; assert RecordAt(pkts, i) == r; }
      assert r in s <==> r in multiset(s);
      assert r in t <==> r in multiset(t);
    }
  }

  /** The step that only reads packet `n` into the heap. */
  lemma Read(pkts: seq<Packet>, bs: int, n: nat, recs: set<Record>, held: set<nat>, out: seq<Record>, last: Timestamp)
    requires PassState(pkts, bs, n, recs, held, out, last) && n < |pkts|
    requires bs <= 0 || |held| + 1 < bs
    ensures PassState(pkts, bs, n + 1, recs + {RecordAt(pkts, n)}, held + {n}, out, last)
    ensures bs > 0 ==> !TooLate(pkts, bs, n)
  {
    assert out == [];
    if bs > 0 { NotTooLate(pkts, bs, n, recs, held, out, last); }
  }

  /** The heap's minimum follows everything written when its time does not go back. */
  lemma MinimumFollows(pkts: seq<Packet>, bs: int, n: nat, recs: set<Record>, held: set<nat>, out: seq<Record>, last: Timestamp, r: Record)
    requires PassState(pkts, bs, n, recs, held, out, last) && n < |pkts|
    requires IsTop(recs + {RecordAt(pkts, n)}, r) && !Less(r.ts, last)
    ensures Ascending(out + [r])
    ensures forall i, x :: 0 <= i < |out + [r]| && x in recs + {RecordAt(pkts, n)} - {r} ==> Before((out + [r])[i], x)
  {
  }

  /** The step of the chunked loop that reads packet `n` and writes the heap's minimum `r`. */
  lemma Written(pkts: seq<Packet>, bs: int, n: nat, recs: set<Record>, held: set<nat>, out: seq<Record>, last: Timestamp, r: Record)
    requires Capture(pkts) && PassState(pkts, bs, n, recs, held, out, last) && n < |pkts| && bs > 0
    requires |held| == bs - 1
    requires IsTop(recs + {RecordAt(pkts, n)}, r) && !Less(r.ts, last)
    ensures PassState(pkts, bs, n + 1, recs + {RecordAt(pkts, n)} - {r}, held + {n} - {r.seqnum}, out + [r], r.ts)
    ensures !TooLate(pkts, bs, n)
  {
    NotTooLate(pkts, bs, n, recs, held, out, last);
    MinimumFollows(pkts, bs, n, recs, held, out, last, r);
    var held' := held + {n} - {r.seqnum};
    assert |held'| == bs - 1;
    forall k: nat | k < n + 1 && k !in held' ensures RecordAt(pkts, k) in out + [r] {
      assert k !in held ==> k == n || RecordAt(pkts, k) in out;
    }
  }

  /** The body of the reading loop for packet `n`: put it in the heap and, once the heap is full,
      write the minimum. It gives up when the minimum precedes the last record written. */
  method Ingest(pkts: seq<Packet>, bs: int, n: nat, recs: set<Record>, ghost held: set<nat>, out: seq<Record>, last: Timestamp)
    returns (ok: bool, recs': set<Record>, ghost held': set<nat>, out': seq<Record>, last': Timestamp)
    requires Capture(pkts) && n < |pkts| && |recs| == |held|
    requires PassState(pkts, bs, n, recs, held, out, last)
    ensures ok ==> PassState(pkts, bs, n + 1, recs', held', out', last') && |recs'| == |held'|
    ensures bs > 0 ==> (ok <==> !TooLate(pkts, bs, n))
    ensures bs <= 0 ==> ok
  {
    var rec := RecordAt(pkts, n);
    ok, recs', held', out', last' := true, recs + {rec}, held + {n}, out, last;
    if bs > 0 && |recs'| >= bs {
      var r := Top(recs');
      if Less(r.ts, last) {
        MustGiveUp(pkts, bs, n, recs, held, out, last, r);
        ok := false;
      } else {
        Written(pkts, bs, n, recs, held, out, last, r);
        out', last' := out + [r], r.ts;
        recs', held' := recs' - {r}, held' - {r.seqnum};
      }
    } else {
      Read(pkts, bs, n, recs, held, out, last);
    }
  }

  /** Records still in the heap and records written, once the whole file is read. */
  ghost predicate DrainState(pkts: seq<Packet>, recs: set<Record>, held: set<nat>, out: seq<Record>) {
    && |held| + |out| == |pkts|
    && (forall r :: r in recs <==> 0 <= r.seqnum < |pkts| && r == RecordAt(pkts, r.seqnum) && r.seqnum in held)
    && (forall k :: k in held ==> 0 <= k < |pkts|)
    && (forall i :: 0 <= i < |out| ==> 0 <= out[i].seqnum < |pkts| && out[i] == RecordAt(pkts, out[i].seqnum))
    && (forall k :: 0 <= k < |pkts| && k !in held ==> RecordAt(pkts, k) in out)
    && Ascending(out)
    && (forall i, r :: 0 <= i < |out| && r in recs ==> Before(out[i], r))
  }

  lemma DrainStep(pkts: seq<Packet>, recs: set<Record>, held: set<nat>, out: seq<Record>, r: Record)
    requires DrainState(pkts, recs, held, out) && IsTop(recs, r)
    ensures DrainState(pkts, recs - {r}, held - {r.seqnum}, out + [r])
  {
  }

  /** The final drain: the whole heap in order. It does not compare with the last record written. */
  method Drain(pkts: seq<Packet>, heap: set<Record>, ghost heldIn: set<nat>, prefix: seq<Record>)
    returns (out: seq<Record>)
    requires DrainState(pkts, heap, heldIn, prefix)
    ensures StableSortOf(out, pkts)
  {
    var recs, held := heap, heldIn;
    out := prefix;
    while recs != {}
      invariant DrainState(pkts, recs, held, out)
      decreases |recs|
    {
      var r := Top(recs);
      DrainStep(pkts, recs, held, out, r);
      out := out + [r];
      recs, held := recs - {r}, held - {r.seqnum};
    }
    assert forall k :: k in held ==> RecordAt(pkts, k) in recs;
    AllWritten(out, pkts);
  }

  /** One pass with a heap of `bs` records (unbounded when `bs <= 0`), no I/O error. It returns 0
      and the written file, or the count of packets read when the chunk proved too small and the
      partial file was removed. */
  method Pass1(pkts: seq<Packet>, bs: int) returns (ret: int, written: seq<Record>)
    requires Capture(pkts)
    ensures ret == 0 <==> ChunkSuffices(pkts, bs)
    ensures ret == 0 ==> StableSortOf(written, pkts)
    ensures ret != 0 ==> 0 < ret <= |pkts| && written == [] && TooLate(pkts, bs, ret - 1)
    ensures ret != 0 ==> forall i :: 0 <= i < ret - 1 ==> !TooLate(pkts, bs, i)
  {
    var recs: set<Record>, out: seq<Record> := {}, [];
    ghost var held: set<nat> := {};
    var seqnum, last := 0, EPOCH;
    while seqnum < |pkts|
      invariant PassState(pkts, bs, seqnum, recs, held, out, last)
      invariant |recs| == |held|
      invariant bs > 0 ==> forall i :: 0 <= i < seqnum ==> !TooLate(pkts, bs, i)
    {
      var ok;
      ok, recs, held, out, last := Ingest(pkts, bs, seqnum, recs, held, out, last);
      seqnum := seqnum + 1;
      if !ok { return seqnum, []; }
    }
    written := Drain(pkts, recs, held, out);
    return 0, written;
  }

  // ----- the driver -----

  function Doubled(bs: int, times: nat): (r: int) {
    if times == 0 then bs else 2 * Doubled(bs, times - 1)
  }

  /** The chunk size doubles with every pass. */
  lemma {:induction false} DoubledIsPower(bs: int, times: nat)
    ensures Doubled(bs, times) == bs * TwoTo(times)
  {
    if times > 0 {
      DoubledIsPower(bs, times - 1);
      assert 2 * (bs * TwoTo(times - 1)) == bs * (2 * TwoTo(times - 1));
    }
  }

  lemma {:induction false} DoubledGrows(bs: int, a: nat, b: nat)
    requires 0 < bs && a <= b
    ensures 0 < Doubled(bs, a) <= Doubled(bs, b)
    decreases b
  {
    if a < b { DoubledGrows(bs, a, b - 1); } else if a > 0 { DoubledGrows(bs, a - 1, b - 1); }
  }

  /** Chunked sorting was asked for. */
  predicate Chunked(numPasses: int, batch: int) {
    numPasses > 0 && batch > 0
  }

  /** The driver after its file checks. Given a usable configuration it fails only when the
      unchunked fallback is forbidden and even the last, largest chunk is too small. */
  method Reorder(pkts: seq<Packet>, numPasses: int, batch: int, noFallback: bool)
    returns (code: int, written: seq<Record>, passes: nat)
    requires Capture(pkts)
    ensures code == EXIT_SUCCESS <==>
      batch >= 0 &&
      (noFallback ==> Chunked(numPasses, batch) && ChunkSuffices(pkts, Doubled(batch, numPasses - 1)))
    ensures code == EXIT_SUCCESS ==> StableSortOf(written, pkts)
    ensures code == EXIT_SUCCESS || (code == EXIT_FAILURE && written == [])
    ensures passes <= (if Chunked(numPasses, batch) then numPasses + 1 else 1)
    ensures code == EXIT_SUCCESS ==> passes > 0 && forall k :: 0 <= k < passes - 1 ==> !ChunkSuffices(pkts, Doubled(batch, k))
    ensures code == EXIT_SUCCESS && Chunked(numPasses, batch) && passes <= numPasses ==> ChunkSuffices(pkts, Doubled(batch, passes - 1))
  {
    written, passes := [], 0;
    if batch < 0 { return EXIT_FAILURE, [], 0; }
    var remaining, bs := numPasses, batch;
    if remaining <= 0 || bs <= 0 { remaining, bs := 0, 0; }
    if bs == 0 && noFallback { return EXIT_FAILURE, [], 0; }
    var ret := 1;
    while ret > 0
      invariant written == [] && ret != 0
      invariant 0 <= remaining
      invariant if Chunked(numPasses, batch) then passes == numPasses - remaining else passes == remaining == 0
      invariant remaining > 0 ==> Chunked(numPasses, batch) && bs == Doubled(batch, passes)
      invariant remaining == 0 ==> bs == 0
      invariant forall k :: 0 <= k < passes ==> !ChunkSuffices(pkts, Doubled(batch, k))
      invariant passes > 0 ==> bs <= 2 * |pkts|  // so the 64-bit doubling cannot overflow
      decreases remaining, ret
    {
      if (remaining <= 0 || bs == 0) && noFallback { return EXIT_FAILURE, [], passes; }
      ghost var chunk := if remaining > 0 then bs else 0;
      if remaining > 0 { DoubledGrows(batch, 0, passes); DoubledGrows(batch, passes, numPasses - 1); }
      ret, written := Pass1(pkts, if remaining > 0 then bs else 0);
      passes := passes + 1;
      if ret == 0 {
        if noFallback {
          LargerChunkSuffices(pkts, chunk, Doubled(batch, numPasses - 1));
        }
        return EXIT_SUCCESS, written, passes;
      } else if ret < 0 {
        return EXIT_FAILURE, [], passes;
      } else if remaining > 0 {
        TooLateBoundsChunk(pkts, bs, ret - 1);
        remaining := remaining - 1;
        if remaining == 0 { bs := 0; } else { bs := bs * 2; }
      }
    }
    return EXIT_FAILURE, [], passes;
  }
}
