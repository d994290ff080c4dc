/** Reassembly of Binary Order Entry messages from arbitrary chunks: `BOE20Session::handle_raw_bytes`.
    A message is a two-byte start sentinel, a two-byte little-endian length that counts everything
    after the sentinel, and the body. */
module BoeFraming {
  import opened Basics

  const START_OF_MESSAGE_SENTINEL := 0xBABA
  const PREFIX := 4  // sizeof(StartOfMessage) + sizeof(MessageLength)

  type Message = seq<byte>

  predicate SentinelOk(s: seq<byte>)
    requires PREFIX <= |s|
  {
    LE16(s[0], s[1]) == START_OF_MESSAGE_SENTINEL
  }

  /** The size of the whole message whose first bytes are `s`. */
  function MessageSize(s: seq<byte>): (r: nat)
    requires PREFIX <= |s|
  {
    LE16(s[2], s[3]) + 2
  }

  // ----- parsing a whole stream at once -----

  /** The messages of a stream, the unfinished bytes after them, and whether it broke off at a
      wrong sentinel. */
  datatype Parsed = Parsed(msgs: seq<Message>, rest: seq<byte>, broken: bool)

  function Parse(s: seq<byte>): (r: Parsed)
    decreases |s|
  {
    if |s| < PREFIX then Parsed([], s, false)
    else if !SentinelOk(s) then Parsed([], [], true)
    else
      var n := MessageSize(s);
      if |s| < n then Parsed([], s, false)
      else
        var p := Parse(s[n..]);
        Parsed([s[..n]] + p.msgs, p.rest, p.broken)
  }

  /** Every message in the stream is longer than its length field, as the code asserts. */
  ghost predicate WellFormed(s: seq<byte>)
    decreases |s|
  {
    PREFIX <= |s| && SentinelOk(s) ==>
      var n := MessageSize(s);
      PREFIX < n && (n <= |s| ==> WellFormed(s[n..]))
  }

  /** `s` is a proper prefix of a message. */
  ghost predicate Unfinished(s: seq<byte>) {
    PREFIX <= |s| ==> SentinelOk(s) && |s| < MessageSize(s)
  }

  ghost predicate Whole(m: Message) {
    PREFIX < |m| && SentinelOk(m) && MessageSize(m) == |m|
  }

  /** Parsing inverts sending: a stream that does not break off is the concatenation of its messages
      and an unfinished one, and that is the only way to read it. */
  lemma {:induction false} ParseInvertsConcat(msgs: seq<Message>, rest: seq<byte>)
    requires forall i :: 0 <= i < |msgs| ==> Whole(msgs[i])
    requires Unfinished(rest)
    ensures Parse(Concat(msgs) + rest) == Parsed(msgs, rest, false)
  {
    if msgs == [] {
      assert Concat(msgs) + rest == rest;
    } else {
      var m := msgs[0];
      var s := Concat(msgs) + rest;
      assert s == m + (Concat(msgs[1..]) + rest);
      assert s[..|m|] == m && s[|m|..] == Concat(msgs[1..]) + rest;
      assert MessageSize(s) == |m|;
      ParseInvertsConcat(msgs[1..], rest);
      assert msgs == [m] + msgs[1..];
    }
  }

  lemma Rejoin(s: seq<byte>, n: nat, p: Parsed)
    requires n <= |s| && Concat(p.msgs) + p.rest == s[n..]
    ensures Concat([s[..n]] + p.msgs) + p.rest == s
  {
  }

  lemma {:induction false} ConcatInvertsParse(s: seq<byte>)
    requires WellFormed(s) && !Parse(s).broken
    ensures Concat(Parse(s).msgs) + Parse(s).rest == s
    ensures forall m :: m in Parse(s).msgs ==> Whole(m)
    ensures Unfinished(Parse(s).rest)
    decreases |s|
  {
    if PREFIX <= |s| && SentinelOk(s) && MessageSize(s) <= |s| {
      var n := MessageSize(s);
      ConcatInvertsParse(s[n..]);
      Rejoin(s, n, Parse(s[n..]));
    } else {
      assert Parse(s) == Parsed([], s, false);
      assert Concat<byte>([]) + s == s;
    }
  }

  /** Parsing in two instalments: the second starts from what the first left unfinished. */
  ghost predicate Instalments(a: seq<byte>, b: seq<byte>) {
    var p := Parse(a);
    if p.broken then Parse(a + b) == p
    else
      var q := Parse(p.rest + b);
      WellFormed(p.rest + b) && Parse(a + b) == Parsed(p.msgs + q.msgs, q.rest, q.broken)
  }

  lemma AppendSplit(a: seq<byte>, b: seq<byte>, n: nat)
    requires n <= |a|
    ensures (a + b)[..n] == a[..n] && (a + b)[n..] == a[n..] + b
  {
  }

  lemma InstalmentsStart(a: seq<byte>, b: seq<byte>)
    requires WellFormed(a + b)
    requires PREFIX <= |a| && SentinelOk(a) ==> |a| < MessageSize(a)
    ensures Instalments(a, b)
  {
  }

  lemma ConsAssociates(m: Message, x: seq<Message>, y: seq<Message>)
    ensures [m] + (x + y) == [m] + x + y
  {
  }

  lemma ParseCons(s: seq<byte>, n: nat)
    requires PREFIX <= |s| && SentinelOk(s) && n == MessageSize(s) <= |s|
    ensures Parse(s) == Parsed([s[..n]] + Parse(s[n..]).msgs, Parse(s[n..]).rest, Parse(s[n..]).broken)
  {
  }

  lemma InstalmentsCons(a: seq<byte>, b: seq<byte>, n: nat)
    requires PREFIX <= |a| && SentinelOk(a) && n == MessageSize(a) <= |a|
    requires (a + b)[..n] == a[..n] && (a + b)[n..] == a[n..] + b
    requires Instalments(a[n..], b)
    ensures Instalments(a, b)
  {
    ParseCons(a, n);
    ParseCons(a + b, n);
    hide Parse, WellFormed, SentinelOk, MessageSize;
    var p := Parse(a[n..]);
    if !p.broken {
      ConsAssociates(a[..n], p.msgs, Parse(p.rest + b).msgs);
    }
  }

  lemma {:induction false} ParseAppend(a: seq<byte>, b: seq<byte>)
    requires WellFormed(a + b)
    ensures Instalments(a, b)
    decreases |a|
  {
    if PREFIX <= |a| && SentinelOk(a) && MessageSize(a) <= |a| {
      var n := MessageSize(a);
      AppendSplit(a, b, n);
      ParseAppend(a[n..], b);
      InstalmentsCons(a, b, n);
    } else {
      InstalmentsStart(a, b);
    }
  }

  // ----- what a sender puts on the wire -----

  /** A message from its bytes: the sentinel, the length of body and length field, low byte first, and the
      body. */
  function Framed(body: seq<byte>): (r: seq<byte>)
    requires |body| + 2 < 0x1_0000
  {
    [0xBA, 0xBA, (|body| + 2) % 0x100, (|body| + 2) / 0x100] + body
  }

  ghost predicate Sendable(bodies: seq<seq<byte>>) {
    forall i :: 0 <= i < |bodies| ==> bodies[i] != [] && |bodies[i]| + 2 < 0x1_0000
  }

  function Frames(bodies: seq<seq<byte>>): (r: seq<seq<byte>>)
    requires Sendable(bodies)
  {
    if bodies == [] then [] else [Framed(bodies[0])] + Frames(bodies[1..])
  }

  lemma FramedIsWhole(body: seq<byte>)
    requires body != [] && |body| + 2 < 0x1_0000
    ensures Whole(Framed(body)) && |Framed(body)| == |body| + 4
  {
  }

  lemma WholeThenRest(m: Message, rest: seq<byte>)
    requires Whole(m) && WellFormed(rest)
    ensures WellFormed(m + rest)
  {
    assert (m + rest)[|m|..] == rest;
  }

  /** Nothing, or bytes that do not start like a message. */
  ghost predicate Garbage(s: seq<byte>) {
    s == [] || (|s| >= 4 && (s[0] != 0xBA || s[1] != 0xBA))
  }

  lemma GarbageBreaksOff(s: seq<byte>)
    requires Garbage(s)
    ensures WellFormed(s) && Parse(s) == Parsed([], [], s != [])
  {
  }

  /** The stream of any bodies is well formed and parses into exactly their messages; it breaks off at
      garbage after them. */
  lemma {:induction false} FramesParse(bodies: seq<seq<byte>>, tail: seq<byte>)
    requires Sendable(bodies) && Garbage(tail)
    ensures var s := Concat(Frames(bodies)) + tail;
      WellFormed(s) && Parse(s) == Parsed(Frames(bodies), [], tail != [])
  {
    hide Framed, WellFormed, Garbage;
    if bodies == [] {
      assert Concat(Frames(bodies)) + tail == tail;
      GarbageBreaksOff(tail);
    } else {
      var m, rest := Framed(bodies[0]), Concat(Frames(bodies[1..])) + tail;
      FramedIsWhole(bodies[0]);
      FramesParse(bodies[1..], tail);
      WholeThenRest(m, rest);
      assert Frames(bodies)[1..] == Frames(bodies[1..]);
      assert Concat(Frames(bodies)) + tail == m + rest;
      assert (m + rest)[..|m|] == m && (m + rest)[|m|..] == rest;
      assert MessageSize(m + rest) == |m|;
    }
  }

  // ----- the session -----

  /** The bound on the second copy loop: the length of the chunk, as the source has it, or the
      bytes of the chunk not consumed yet. */
  datatype CopyBound = ChunkLength | ChunkRemainder

  /** The second copy loop reads inside the chunk even when bounded by the chunk's length: no byte
      was needed to complete the length field, or the message ends inside the chunk. */
  predicate CopyStaysInChunk(dangly: seq<byte>, chunk: seq<byte>) {
    var s := dangly + chunk;
    |dangly| == 0 || PREFIX <= |dangly| || |s| < PREFIX || !SentinelOk(s) || MessageSize(s) <= |s|
  }

  /** The outcome that does not depend on how the stream is cut: what parsing the bytes held back
      and the new ones as one stream gives. */
  ghost predicate AsParsed(handled: seq<Message>, dangly: seq<byte>, connected: bool, before: seq<Message>, stream: seq<byte>) {
    var p := Parse(stream);
    handled == before + p.msgs && dangly == p.rest && connected == !p.broken
  }

  lemma StillUnfinished(handled: seq<Message>, s: seq<byte>)
    requires Unfinished(s)
    ensures AsParsed(handled, s, true, handled, s)
    ensures Parse(s) == Parsed([], s, false)
  {
  }

  lemma BrokenOff(handled: seq<Message>, s: seq<byte>)
    requires PREFIX <= |s| && !SentinelOk(s)
    ensures AsParsed(handled, [], false, handled, s)
  {
  }

  lemma AfterFirstMessage(handled: seq<Message>, dangly: seq<byte>, connected: bool, before: seq<Message>, s: seq<byte>, m: Message, rest: seq<byte>)
    requires PREFIX <= |m| && SentinelOk(m) && MessageSize(m) == |m| && s == m + rest
    requires AsParsed(handled, dangly, connected, before + [m], rest)
    ensures AsParsed(handled, dangly, connected, before, s)
  {
    assert s[..|m|] == m && s[|m|..] == rest;
    assert before + [m] + Parse(rest).msgs == before + Parse(s).msgs;
  }

  lemma WellFormedRest(s: seq<byte>, m: Message, rest: seq<byte>)
    requires PREFIX <= |m| && SentinelOk(m) && MessageSize(m) == |m| && s == m + rest && WellFormed(s)
    ensures WellFormed(rest)
  {
  }

  /** The stream seen so far and the next chunk. */
  lemma NextChunk(handled: seq<Message>, dangly: seq<byte>, handled': seq<Message>, dangly': seq<byte>, connected': bool,
                  seen: seq<byte>, chunk: seq<byte>)
    requires WellFormed(seen + chunk)
    requires AsParsed(handled, dangly, true, [], seen)
    requires AsParsed(handled', dangly', connected', handled, dangly + chunk)
    ensures AsParsed(handled', dangly', connected', [], seen + chunk)
  {
    ParseAppend(seen, chunk);
    var p, q := Parse(seen), Parse(dangly + chunk);
    assert handled == p.msgs && handled' == p.msgs + q.msgs == [] + (p.msgs + q.msgs);
  }

  /** A copy that leaves the chunk is not what the stream says: the message is unfinished, yet the
      session either handles it or holds back more bytes than it was given. */
  lemma ReadPast(handled: seq<Message>, s: seq<byte>, handled': seq<Message>, dangly': seq<byte>, connected': bool)
    requires Unfinished(s) && (|handled'| > |handled| || |dangly'| > |s|)
    ensures !AsParsed(handled', dangly', connected', handled, s)
  {
  }

  lemma {:induction false} WellFormedPrefix(a: seq<byte>, c: seq<byte>)
    requires WellFormed(a + c)
    ensures WellFormed(a)
    decreases |a|
  {
    if PREFIX <= |a| && SentinelOk(a) && PREFIX < MessageSize(a) <= |a| {
      var n := MessageSize(a);
      assert (a + c)[n..] == a[n..] + c;
      WellFormedPrefix(a[n..], c);
    }
  }

  class BoeSession {
    var dangly: seq<byte>       // m_dangly_bytes
    var handled: seq<Message>   // the messages given to handle_raw_msg, in order
    var connected: bool

    constructor ()
      ensures dangly == [] && handled == [] && connected
    {
      dangly, handled, connected := [], [], true;
    }

    /** The copy loops: `count` bytes of `buf` from `idx` on. */
    method Hold(buf: seq<byte>, idx: nat, count: nat)
      requires idx + count <= |buf|
      modifies this`dangly
      ensures dangly == old(dangly) + buf[idx..idx + count]
    {
      var i := 0;
      while i < count
        invariant i <= count
        invariant dangly == old(dangly) + buf[idx..idx + i]
      {
        dangly := dangly + [buf[idx + i]];
        i := i + 1;
      }
    }

    /** The recursive call, when a whole message `msg` was handled and data may follow it. */
    method HandleRest(buf: seq<byte>, len: nat, idx: nat, bound: CopyBound, ghost msg: Message, ghost before: seq<Message>)
      requires 0 < idx <= len <= |buf| && connected && dangly == [] && handled == before + [msg]
      requires PREFIX <= |msg| && SentinelOk(msg) && MessageSize(msg) == |msg| && WellFormed(msg + buf[idx..len])
      modifies this
      ensures AsParsed(handled, dangly, connected, before, msg + buf[idx..len])
      decreases len, 0
    {
      ghost var rest := buf[idx..len];
      if idx < len {
        WellFormedRest(msg + rest, msg, rest);
        assert buf[idx..][..len - idx] == rest == [] + rest;
        HandleRawBytes(buf[idx..], len - idx, bound);
      }
      AfterFirstMessage(handled, dangly, connected, before, msg + rest, msg, rest);
    }

    /** The rest of that branch, with the length field complete and `idx` bytes of the chunk used. */
    method FinishMessage(buf: seq<byte>, len: nat, idx0: nat, bound: CopyBound, ghost s: seq<byte>)
      requires len <= |buf| && (bound == ChunkLength ==> idx0 + len <= |buf|) && idx0 <= len
      requires connected && PREFIX <= |dangly| && SentinelOk(dangly) && |dangly| < MessageSize(dangly)
      requires s == dangly + buf[idx0..len] && WellFormed(s)
      modifies this
      ensures AsParsed(handled, dangly, connected, old(handled), s)
        <==> bound == ChunkRemainder || idx0 == 0 || MessageSize(s) <= |s|
      decreases len, 1
    {
      // the source asserts that the message is longer than the bytes gathered so far
      var mlen := MessageSize(dangly);
      assert PREFIX <= |s| && SentinelOk(s) && MessageSize(s) == mlen;
      var remains := mlen - |dangly|;
      var limit := if bound == ChunkLength then len else len - idx0;
      Hold(buf, idx0, Min(remains, limit));
      var idx := idx0 + Min(remains, limit);
      if remains <= limit {
        var msg := dangly;
        handled := handled + [msg];
        dangly := [];
        if idx <= len {
          assert s == msg + buf[idx..len];
          HandleRest(buf, len, idx, bound, msg, old(handled));
        } else {
          ReadPast(old(handled), s, handled, dangly, connected);
        }
      } else if idx == len {
        assert dangly == s;
        StillUnfinished(handled, s);
      } else {
        ReadPast(old(handled), s, handled, dangly, connected);
      }
    }

    /** The branch with bytes left over from the previous call. */
    method HandleAfterDangling(buf: seq<byte>, len: nat, bound: CopyBound)
      requires len <= |buf| && (bound == ChunkLength ==> len + PREFIX <= |buf|)
      requires connected && Unfinished(dangly) && WellFormed(dangly + buf[..len]) && |dangly| != 0
      modifies this
      ensures AsParsed(handled, dangly, connected, old(handled), old(dangly) + buf[..len])
        <==> bound == ChunkRemainder || CopyStaysInChunk(old(dangly), buf[..len])
      decreases len, 2
    {
      ghost var d, s := dangly, dangly + buf[..len];
      var idx := 0;
      if |dangly| < PREFIX {
        var remains := PREFIX - |dangly|;
        idx := Min(remains, len);
        Hold(buf, 0, idx);
        if len < remains {
          StillUnfinished(handled, s);
          return;
        }
      }
      assert dangly == d + buf[..idx] == s[..|d| + idx];
      if !SentinelOk(dangly) {
        dangly := [];
        connected := false;
        BrokenOff(handled, s);
        return;
      }
      assert MessageSize(s) == MessageSize(dangly);
      FinishMessage(buf, len, idx, bound, s);
    }

    /** The branch with no prior data. */
    method HandleFresh(buf: seq<byte>, len: nat, bound: CopyBound)
      requires len <= |buf|
      requires connected && dangly == [] && WellFormed(buf[..len])
      modifies this
      ensures AsParsed(handled, dangly, connected, old(handled), buf[..len])
      decreases len, 1
    {
      ghost var s := buf[..len];
      if len < PREFIX {
        Hold(buf, 0, len);
        StillUnfinished(handled, s);
        return;
      }
      if !SentinelOk(buf) {
        connected := false;
        BrokenOff(handled, s);
        return;
      }
      var mlen := MessageSize(buf);
      if mlen <= len {
        handled := handled + [buf[..mlen]];
        assert s == buf[..mlen] + buf[mlen..len];
        HandleRest(buf, len, mlen, bound, buf[..mlen], old(handled));
      } else {
        Hold(buf, 0, len);
        StillUnfinished(handled, s);
      }
    }

    /** One chunk of `len` bytes at the front of `buf`; what follows it in `buf` is memory the
        chunk does not own. The chunk is treated as a whole-stream parse would treat it if and only
        if the second copy loop stays inside the chunk. */
    method HandleRawBytes(buf: seq<byte>, len: nat, bound: CopyBound)
      requires len <= |buf| && (bound == ChunkLength && dangly != [] ==> len + PREFIX <= |buf|)
      requires connected && Unfinished(dangly) && WellFormed(dangly + buf[..len])
      modifies this
      ensures AsParsed(handled, dangly, connected, old(handled), old(dangly) + buf[..len])
        <==> bound == ChunkRemainder || CopyStaysInChunk(old(dangly), buf[..len])
      decreases len, 3
    {
      if |dangly| != 0 {
        HandleAfterDangling(buf, len, bound);
      } else {
        assert dangly + buf[..len] == buf[..len];
        HandleFresh(buf, len, bound);
      }
    }

    method ReceiveOne(chunk: seq<byte>, ghost seen: seq<byte>)
      requires connected && Unfinished(dangly) && WellFormed(seen + chunk)
      requires AsParsed(handled, dangly, connected, [], seen)
      modifies this
      ensures AsParsed(handled, dangly, connected, [], seen + chunk)
      ensures connected ==> Unfinished(dangly)
    {
      ghost var handled0, dangly0 := handled, dangly;
      ParseAppend(seen, chunk);
      assert chunk[..|chunk|] == chunk;
      HandleRawBytes(chunk, |chunk|, ChunkRemainder);
      NextChunk(handled0, dangly0, handled, dangly, connected, seen, chunk);
      if connected { ConcatInvertsParse(seen + chunk); }
    }

    /** Chunk invariance: whatever the cuts, the messages handled are those of the whole stream and
        the bytes held back are exactly its unfinished message. */
    method Receive(chunks: seq<seq<byte>>)
      requires connected && dangly == [] && handled == [] && WellFormed(Concat(chunks))
      modifies this
      ensures AsParsed(handled, dangly, connected, [], Concat(chunks))
      ensures connected ==> Unfinished(dangly)
    {
      var i := 0;
      ghost var seen: seq<byte> := [];
      while i < |chunks| && connected
        invariant i <= |chunks| && seen + Concat(chunks[i..]) == Concat(chunks)
        invariant AsParsed(handled, dangly, connected, [], seen)
        invariant connected ==> Unfinished(dangly)
      {
        ghost var later := Concat(chunks[i + 1..]);
        assert chunks[i..][1..] == chunks[i + 1..];
        assert seen + (chunks[i] + later) == seen + chunks[i] + later;
        WellFormedPrefix(seen + chunks[i], later);
        ReceiveOne(chunks[i], seen);
        seen := seen + chunks[i];
        i := i + 1;
      }
      if connected {
        assert seen + [] == seen;
      } else {
        ParseAppend(seen, Concat(chunks[i..]));
      }
    }

    /** What was sent arrives: the stream of any bodies, cut anywhere, is handed over as exactly their
        messages, with nothing held back; garbage after them ends the connection. */
    method ReceiveSent(chunks: seq<seq<byte>>, ghost bodies: seq<seq<byte>>, ghost tail: seq<byte>)
      requires connected && dangly == [] && handled == []
      requires Sendable(bodies) && Garbage(tail) && Concat(chunks) == Concat(Frames(bodies)) + tail
      modifies this
      ensures handled == Frames(bodies) && dangly == [] && (connected <==> tail == [])
    {
      hide Parse, WellFormed, Frames;
      FramesParse(bodies, tail);
      Receive(chunks);
      assert [] + Frames(bodies) == Frames(bodies);
    }
  }

  /** An input on which the copy bounded by the chunk length reads past the chunk: one byte of the
      sentinel, then three bytes that complete the prefix of an eight-byte message and one more. */
  lemma ChunkLengthBoundReadsPast()
    ensures var dangly, chunk := [0xBA], [0xBA, 6, 0, 1];
      Unfinished(dangly) && WellFormed(dangly + chunk) && !CopyStaysInChunk(dangly, chunk)
  {
  }
}
