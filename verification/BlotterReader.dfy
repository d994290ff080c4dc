/** The order log's record framing and the loop that replays it: `BlotterReader::decode`, `replay`,
    and the cursor of `FileBlotterReader`. Record bodies are opaque here. */
module BlotterReader {
  import opened Basics
  import opened MappedFile

  const HEADER_SIZE := 20  // sizeof(olf::MessageHeader): length 2, type 1, subtype 1, timestamp 16
  const NO_HEADER_SIZE := 1
  const NO_MSG_SIZE := 2

  const TIMESTAMP_TYPE := 1
  const MAX_MESSAGE_TYPE := 24

  datatype RawMessage = RawMessage(kind: byte, subtype: byte, stamp: seq<byte>, body: seq<byte>)

  /** The stamp is a `timespec` and the length of the body fits its 16-bit field. */
  type LogMessage = m: RawMessage | |m.stamp| == 16 && |m.body| < 0x1_0000
    witness RawMessage(0, 0, seq(16, _ => 0), [])

  /** `olf::Message` as `FileBlotter` hands it to the log file. */
  function Encode(m: LogMessage): (r: seq<byte>)
  {
    [|m.body| % 0x100, |m.body| / 0x100, m.kind, m.subtype] + m.stamp + m.body
  }

  function BodyLength(s: seq<byte>): (r: nat)
    requires HEADER_SIZE <= |s|
  {
    LE16(s[0], s[1])
  }

  /** The record at the front of `s`. */
  function Front(s: seq<byte>): (m: LogMessage)
    requires HEADER_SIZE <= |s| && HEADER_SIZE + BodyLength(s) <= |s|
    ensures |m.body| == BodyLength(s)
  {
    RawMessage(s[2], s[3], s[4..HEADER_SIZE], s[HEADER_SIZE..HEADER_SIZE + BodyLength(s)])
  }

  /** Does `decode` tell the listeners about records of this type? */
  predicate Notified(kind: byte) {
    TIMESTAMP_TYPE < kind < MAX_MESSAGE_TYPE
  }

  /** Listeners hear of the types 2 to 23: not of time stamps, nor of types the log does not define. */
  lemma NotifiedTypes(kind: byte)
    ensures Notified(kind) <==> 2 <= kind <= 23
  {
  }

  function Notifications(ms: seq<LogMessage>): (r: seq<LogMessage>) {
    if ms == [] then []
    else (if Notified(ms[0].kind) then [ms[0]] else []) + Notifications(ms[1..])
  }

  // ----- reading a whole file at once -----

  /** The whole records at the front of `s`. */
  function Records(s: seq<byte>): (r: seq<LogMessage>)
    decreases |s|
  {
    if |s| < HEADER_SIZE || |s| < HEADER_SIZE + BodyLength(s) then []
    else [Front(s)] + Records(s[HEADER_SIZE + BodyLength(s)..])
  }

  ghost function Encodings(ms: seq<LogMessage>): (e: seq<seq<byte>>)
    ensures |e| == |ms| && forall i :: 0 <= i < |e| ==> e[i] == Encode(ms[i])
  {
    seq(|ms|, i requires 0 <= i < |ms| => Encode(ms[i]))
  }

  lemma EncodeLength(m: LogMessage)
    ensures |Encode(m)| == HEADER_SIZE + |m.body| && BodyLength(Encode(m)) == |m.body|
  {
  }

  /** The bytes of a record: its body's length, low byte first, its type and subtype, 16 bytes of time stamp,
      and the body. */
  lemma RecordBytes(m: LogMessage)
    ensures var e := Encode(m);
      && |e| == 20 + |m.body| && (e[0] as int) + 256 * (e[1] as int) == |m.body| && e[2] == m.kind && e[3] == m.subtype
      && e[4..20] == m.stamp && e[20..] == m.body
  {
  }

  lemma FrontOfEncode(m: LogMessage)
    requires |Encode(m)| == HEADER_SIZE + |m.body| && BodyLength(Encode(m)) == |m.body|
    ensures Front(Encode(m)) == m
  {
    assert Encode(m)[4..HEADER_SIZE] == m.stamp;
    assert Encode(m)[HEADER_SIZE..] == m.body;
  }

  /** Only the record itself matters, not what follows it. */
  lemma FrontIgnoresTail(s: seq<byte>, tail: seq<byte>)
    requires HEADER_SIZE <= |s| && HEADER_SIZE + BodyLength(s) == |s|
    ensures BodyLength(s + tail) == BodyLength(s) && Front(s + tail) == Front(s)
  {
    assert (s + tail)[4..HEADER_SIZE] == s[4..HEADER_SIZE];
    assert (s + tail)[HEADER_SIZE..|s|] == s[HEADER_SIZE..|s|];
  }

  lemma EncodeFront(m: LogMessage, tail: seq<byte>)
    ensures var s := Encode(m) + tail;
      && HEADER_SIZE <= |s| && BodyLength(s) == |m.body| && HEADER_SIZE + |m.body| == |Encode(m)| <= |s|
      && Front(s) == m && s[|Encode(m)|..] == tail
  {
    hide Encode, Front, BodyLength;
    EncodeLength(m);
    FrontOfEncode(m);
    FrontIgnoresTail(Encode(m), tail);
  }

  lemma CutInsideFirst(m: LogMessage, tail: seq<byte>, cut: nat)
    requires cut < |Encode(m)|
    ensures Records((Encode(m) + tail)[..cut]) == []
  {
    hide Encode, Front;
    EncodeLength(m);
    var s, c := Encode(m), (Encode(m) + tail)[..cut];
    if cut >= HEADER_SIZE { assert c[0] == s[0] && c[1] == s[1]; }
  }

  lemma SizeCons(first: seq<byte>, later: seq<seq<byte>>, k: nat)
    requires k <= |later|
    ensures Size(([first] + later)[..k + 1]) == |first| + Size(later[..k])
  {
    assert ([first] + later)[..k + 1] == [first] + later[..k];
    assert ([first] + later[..k])[1..] == later[..k];
  }

  /** The file written from `ms`, cut anywhere: the reader sees exactly the records that lie wholly
      before the cut. */
  lemma {:induction false} TruncatedRecords(ms: seq<LogMessage>, cut: nat) returns (n: nat)
    requires cut <= Size(Encodings(ms))
    ensures n <= |ms| && Records(Concat(Encodings(ms))[..cut]) == ms[..n]
    ensures Size(Encodings(ms)[..n]) <= cut
    ensures n < |ms| ==> cut < Size(Encodings(ms)[..n + 1])
  {
    hide Encode, Front, BodyLength;
    var all := Concat(Encodings(ms));
    if ms == [] {
      n := 0;
    } else {
      var first, later := Encode(ms[0]), Encodings(ms[1..]);
      assert Encodings(ms)[1..] == later;
      assert all == first + Concat(later);
      EncodeFront(ms[0], Concat(later));
      if cut < |first| {
        n := 0;
        CutInsideFirst(ms[0], Concat(later), cut);
        assert Encodings(ms)[..1] == [first];
        assert Concat([first]) == first + Concat([]);
      } else {
        var k := TruncatedRecords(ms[1..], cut - |first|);
        n := k + 1;
        assert all[..cut] == first + Concat(later)[..cut - |first|];
        EncodeFront(ms[0], Concat(later)[..cut - |first|]);
        assert ms[..n] == [ms[0]] + ms[1..][..k];
        SizeCons(first, later, k);
        assert Encodings(ms) == [first] + later;
        if n < |ms| { SizeCons(first, later, k + 1); }
      }
    }
  }

  lemma EncodingsCons(ms: seq<LogMessage>)
    requires ms != []
    ensures Encodings(ms) == [Encode(ms[0])] + Encodings(ms[1..])
    ensures Concat(Encodings(ms)) == Encode(ms[0]) + Concat(Encodings(ms[1..]))
  {
    hide Encode;
    assert Encodings(ms)[1..] == Encodings(ms[1..]);
  }

  lemma RecordsCons(m: LogMessage, later: seq<byte>)
    ensures Records(Encode(m) + later) == [m] + Records(later)
  {
    hide Encode, Front, BodyLength;
    EncodeFront(m, later);
  }

  /** What is appended to a whole file is read after it. */
  lemma {:induction false} AppendedRecords(ms: seq<LogMessage>, tail: seq<byte>)
    ensures Records(Concat(Encodings(ms)) + tail) == ms + Records(tail)
  {
    hide Records, Encode;
    if ms == [] {
      assert Encodings(ms) == [] && [] + tail == tail && [] + Records(tail) == Records(tail);
    } else {
      var later := Concat(Encodings(ms[1..])) + tail;
      EncodingsCons(ms);
      assert Concat(Encodings(ms)) + tail == Encode(ms[0]) + later;
      RecordsCons(ms[0], later);
      AppendedRecords(ms[1..], tail);
      assert [ms[0]] + (ms[1..] + Records(tail)) == ms + Records(tail);
    }
  }

  /** An uncut file gives back every record: decoding inverts encoding. */
  lemma WholeFileRecords(ms: seq<LogMessage>)
    ensures Records(Concat(Encodings(ms))) == ms
  {
    AppendedRecords(ms, []);
    assert Concat(Encodings(ms)) + [] == Concat(Encodings(ms)) && ms + [] == ms;
  }

  lemma NotificationsCons(m: LogMessage, ms: seq<LogMessage>)
    ensures Notifications([m] + ms) == Notifications([m]) + Notifications(ms)
  {
  }

  lemma SliceOfSlice(s: seq<byte>, a: nat, b: nat, i: nat, j: nat)
    requires i <= j && a + j <= b <= |s|
    ensures s[a..b][i..j] == s[a + i..a + j]
  {
    var t, u := s[a..b], s[a + i..a + j];
    assert forall k :: 0 <= k < j - i ==> t[i..j][k] == t[i + k] == s[a + (i + k)] == u[k];
  }

  /** The front record and the others, or none at a malformed front. */
  lemma RecordsFront(s: seq<byte>)
    ensures if |s| < HEADER_SIZE || |s| < HEADER_SIZE + BodyLength(s) then Records(s) == []
      else var n := HEADER_SIZE + BodyLength(s);
        Records(s) == [Front(s)] + Records(s[n..]) && Notifications(Records(s)) == Notifications([Front(s)]) + Notifications(Records(s[n..]))
  {
    if |s| >= HEADER_SIZE && |s| >= HEADER_SIZE + BodyLength(s) {
      NotificationsCons(Front(s), Records(s[HEADER_SIZE + BodyLength(s)..]));
    }
  }

  // ----- the reader -----

  class FileBlotterReader {
    const log: AsyncMappedFile
    const readable: bool           // as_readonly_buffer succeeds
    var buf: Option<nat>           // m_buf, as an offset from m_buf_start; None is nullptr
    var bufferLen: nat             // m_buffer_len
    var notified: seq<LogMessage>  // the records the listeners were told about, in order

    /** The file as the reader sees it. */
    ghost function Contents(): (r: seq<byte>)
      requires log.offset <= log.mem.Length
      reads log, log.mem
    {
      log.mem[..log.offset]
    }

    /** The cursor is inside what the reader last saw of the file; the file may have grown or shrunk
        since. */
    ghost predicate Valid()
      reads this`buf, this`bufferLen
    {
      buf.Some? ==> buf.value <= bufferLen
    }

    /** The records still to be read: none once the file has shrunk. */
    ghost function Pending(): (r: seq<LogMessage>)
      requires Valid() && log.offset <= log.mem.Length
      reads this`buf, this`bufferLen, log, log.mem
    {
      if !readable || buf.None? || log.offset < bufferLen then [] else Records(Contents()[buf.value..])
    }

    method Rewind()
      modifies this`buf, this`bufferLen
      ensures Valid() && bufferLen == if readable then log.offset else old(bufferLen)
      ensures buf == if readable then Some(0) else None
    {
      buf := None;
      if readable {
        bufferLen := log.offset;
        buf := Some(0);
      }
    }

    constructor (log: AsyncMappedFile, readable: bool)
      requires log.offset <= log.mem.Length
      ensures this.log == log && this.readable == readable && notified == []
      ensures Valid() && Pending() == if readable then Records(Contents()) else []
    {
      this.log, this.readable := log, readable;
      buf, bufferLen, notified := None, 0, [];
      new;
      Rewind();
      assert readable ==> Contents()[0..] == Contents();
    }

    /** Looks at the file again. */
    method AtEnd() returns (end: bool)
      requires Valid() && log.offset <= log.mem.Length
      modifies this`bufferLen
      ensures Valid() && Pending() == old(Pending())
      ensures end <==> !readable || buf.None? || log.offset < old(bufferLen) || buf.value >= log.offset
      ensures bufferLen == if readable && old(bufferLen) <= log.offset then log.offset else old(bufferLen)
    {
      if !readable { return true; }
      var len := log.offset;
      if len < bufferLen { return true; }
      bufferLen := len;
      return buf.None? || buf.value >= bufferLen;
    }

    /** `decode` at offset `at`: a negative error, or the bytes consumed after telling the listeners. */
    method Decode(at: nat, end: nat) returns (ret: int)
      requires at <= end <= log.mem.Length
      modifies this`notified
      ensures var s := log.mem[at..end];
        if |s| < HEADER_SIZE then ret == -NO_HEADER_SIZE && notified == old(notified)
        else if |s| < HEADER_SIZE + BodyLength(s) then ret == -NO_MSG_SIZE && notified == old(notified)
        else ret == HEADER_SIZE + BodyLength(s) && notified == old(notified) + Notifications([Front(s)])
    {
      if HEADER_SIZE > end - at { return -NO_HEADER_SIZE; }
      ghost var s := log.mem[at..end];
      var length := LE16(log.mem[at], log.mem[at + 1]);
      if at + HEADER_SIZE + length > end { return -NO_MSG_SIZE; }
      var m: LogMessage := RawMessage(log.mem[at + 2], log.mem[at + 3], log.mem[at + 4..at + HEADER_SIZE],
                          log.mem[at + HEADER_SIZE..at + HEADER_SIZE + length]);
      SliceOfSlice(log.mem[..], at, end, 4, HEADER_SIZE);
      SliceOfSlice(log.mem[..], at, end, HEADER_SIZE, HEADER_SIZE + length);
      if Notified(m.kind) { notified := notified + [m]; }
      return HEADER_SIZE + length;
    }

    /** What `decode` makes of `s`: the cursor after it, or none, and the records told. */
    ghost predicate Took(s: seq<byte>, at: nat, buf': Option<nat>, told: seq<LogMessage>) {
      if |s| < HEADER_SIZE || |s| < HEADER_SIZE + BodyLength(s) then buf' == None && told == []
      else buf' == Some(at + HEADER_SIZE + BodyLength(s)) && told == Notifications([Front(s)])
    }

    /** Decode from the cursor up to `end` and move the cursor. */
    method Consume(end: nat, ghost at: nat) returns (ghost told: seq<LogMessage>)
      requires buf == Some(at) && at <= end <= log.mem.Length
      modifies this`buf, this`notified
      ensures Took(log.mem[at..end], at, buf, told) && notified == old(notified) + told
    {
      hide Front, BodyLength;
      told := [];
      var ret := Decode(buf.value, end);
      if ret <= 0 {
        buf := None;
      } else {
        told := Notifications([Front(log.mem[at..end])]);
        buf := Some(buf.value + ret);
      }
    }

    lemma TookInside(s: seq<byte>, at: nat, buf': Option<nat>, told: seq<LogMessage>, end: nat)
      requires Took(s, at, buf', told) && at + |s| == end
      ensures buf'.Some? ==> at < buf'.value <= end
      ensures Notifications(Records(s)) == told + if buf'.None? then [] else Notifications(Records(s[buf'.value - at..]))
    {
      RecordsFront(s);
    }

    /** Decodes what it saw of the file before looking again. */
    method DoNext() returns (ghost told: seq<LogMessage>)
      requires Valid() && log.offset <= log.mem.Length
      modifies this`buf, this`bufferLen, this`notified
      ensures Valid() && notified == old(notified) + told
      ensures bufferLen == if readable && old(bufferLen) <= log.offset then log.offset else old(bufferLen)
      ensures old(!readable || buf.None? || log.offset < bufferLen || buf.value >= log.offset) ==> buf == old(buf) && told == []
      ensures old(readable && buf.Some? && bufferLen <= log.offset && buf.value < log.offset) ==>
        Took(log.mem[old(buf).value..old(bufferLen)], old(buf).value, buf, told)
    {
      hide Took;
      told := [];
      var end := bufferLen;
      var done := AtEnd();
      if !done && buf.Some? && bufferLen > 0 {
        ghost var at := buf.value;
        told := Consume(end, at);
        TookInside(log.mem[at..end], at, buf, told, end);
      }
    }

    lemma NoneToTell()
      ensures Notifications([]) == []
    {
    }

    /** What was told and what is still to be told stay the same in sum, and the cursor moves on unless there
        is nothing to read. */
    method Next()
      requires Valid() && log.offset <= log.mem.Length
      modifies this`buf, this`bufferLen, this`notified
      ensures Valid() && notified + Notifications(Pending()) == old(notified + Notifications(Pending()))
      ensures old(readable && buf.Some? && bufferLen <= log.offset && buf.value < log.offset) ==>
        bufferLen <= log.offset && (buf.None? || buf.value > old(buf.value))
    {
      hide Took, Records, Notifications;
      var end := AtEnd();
      if !end {
        ghost var at, s := buf.value, Contents()[buf.value..];
        assert s == log.mem[at..bufferLen];
        ghost var told := DoNext();
        TookInside(s, at, buf, told, log.offset);
        assert buf.Some? ==> s[buf.value - at..] == Contents()[buf.value..];
        NoneToTell();
      }
    }

    /** `replay` terminates and tells the listeners exactly the records still to be read, whatever became of
        the file since the last call. */
    method Replay()
      requires Valid() && log.offset <= log.mem.Length
      modifies this`buf, this`bufferLen, this`notified
      ensures Valid() && notified == old(notified) + old(Notifications(Pending()))
    {
      var end := AtEnd();
      while !end
        invariant Valid() && notified + Notifications(Pending()) == old(notified + Notifications(Pending()))
        invariant !end ==> readable && buf.Some? && bufferLen <= log.offset && buf.value < log.offset
        invariant end ==> Pending() == []
        decreases !end, if buf.Some? then log.offset - buf.value else 0
      {
        Next();
        end := AtEnd();
      }
    }
  }
}
