/** The ring buffer mapped twice in a row, so that every read and write window is contiguous:
    `src/core/MappedRing.cpp`. */
module MappedRing {
  import opened Basics

  class MappedRing {
    const mem: array<byte>        // the shared pages; address a of the double mapping is mem[a % capacity]
    var writeOffset: nat
    var readOffset: nat
    ghost var written: seq<byte>  // every byte written since construction or the last clear
    ghost var taken: seq<byte>    // every byte read since then

    /** The byte at an address of the double mapping. */
    function At(a: nat): (r: byte)
      requires a < 2 * mem.Length
      reads mem
    {
      if a < mem.Length then mem[a] else mem[a - mem.Length]
    }

    /** The contents of an address window, contiguous because it ends inside the double mapping. */
    function Window(from: nat, count: nat): (s: seq<byte>)
      requires from + count <= 2 * mem.Length
      reads mem
      ensures |s| == count && forall i :: 0 <= i < count ==> s[i] == At(from + i)
    {
      seq<byte>(count, i requires 0 <= i < count reads mem => At(from + i))
    }

    function Capacity(): (r: nat) { mem.Length }

    function Size(): (r: nat)
      requires readOffset <= writeOffset
      reads this
    {
      writeOffset - readOffset
    }

    function Free(): (r: int)
      requires readOffset <= writeOffset
      reads this
    {
      Capacity() - Size()
    }

    /** The offsets stay in range and the live window is what was written and not yet taken. */
    ghost predicate Valid()
      reads this, mem
    {
      && readOffset < mem.Length
      && readOffset <= writeOffset <= readOffset + mem.Length
      && written == taken + Window(readOffset, Size())
    }

    /** The queued bytes, oldest first. */
    ghost function Live(): (s: seq<byte>)
      requires Valid()
      reads this, mem
      ensures s == written[|taken|..] && |s| == Size()
    {
      Window(readOffset, Size())
    }

    constructor (order: nat)
      ensures Valid() && fresh(mem) && mem.Length == TwoTo(order) && Size() == 0 && written == [] && taken == []
    {
      TwoToPositive(order);
      mem := new byte[TwoTo(order)](_ => 0);
      writeOffset, readOffset := 0, 0;
      written, taken := [], [];
    }

    /** `write_advance`: what the caller stored in the window becomes part of the queue. */
    method WriteAdvance(count: nat)
      requires Valid() && count <= Free()
      modifies this`writeOffset, this`written
      ensures Valid() && Size() == old(Size()) + count
      ensures written == old(written) + Window(old(writeOffset), count)
    {
      ghost var live, added := Window(readOffset, Size()), Window(writeOffset, count);
      writeOffset := writeOffset + count;
      written := written + added;
      assert Window(readOffset, Size()) == live + added;
    }

    /** `read_advance`: the oldest bytes leave the queue; the offsets drop back by one capacity when the
        read offset reaches the second mapping. */
    method ReadAdvance(count: nat)
      requires Valid() && count <= Size()
      modifies this`writeOffset, this`readOffset, this`taken
      ensures Valid() && Size() == old(Size()) - count
      ensures taken == old(taken) + old(Window(readOffset, count))
    {
      ghost var gone, live := Window(readOffset, count), Window(readOffset, Size());
      ghost var rest := Window(readOffset + count, Size() - count);
      assert live == gone + rest;
      readOffset := readOffset + count;
      if readOffset >= Capacity() {
        readOffset := readOffset - Capacity();
        writeOffset := writeOffset - Capacity();
      }
      taken := taken + gone;
      assert Window(readOffset, Size()) == rest;
      assert written == taken + rest;
    }

    method Clear()
      requires Valid()
      modifies this
      ensures Valid() && Size() == 0 && written == [] && taken == []
    {
      readOffset := 0;
      writeOffset := 0;
      written, taken := [], [];
    }

    /** A producer: store at `write_address`, then advance. The window lies inside the double mapping
        and does not touch the queued bytes. */
    method Write(bytes: seq<byte>)
      requires Valid() && |bytes| <= Free()
      modifies this`writeOffset, this`written, mem
      ensures Valid() && written == old(written) + bytes && Live() == old(Live()) + bytes
    {
      assert writeOffset + |bytes| <= 2 * Capacity();
      ghost var live := Window(readOffset, Size());
      var i := 0;
      while i < |bytes|
        invariant i <= |bytes| && Valid()
        invariant writeOffset == old(writeOffset) && written == old(written)
        invariant Window(readOffset, Size()) == live
        invariant forall k :: 0 <= k < i ==> At(writeOffset + k) == bytes[k]
      {
        var a := writeOffset + i;
        ghost var before := Window(readOffset, Size());
        mem[if a < Capacity() then a else a - Capacity()] := bytes[i];
        assert forall k :: 0 <= k < Size() ==> At(readOffset + k) == before[k];
        assert Window(readOffset, Size()) == before;
        i := i + 1;
      }
      assert Window(writeOffset, |bytes|) == bytes;
      WriteAdvance(|bytes|);
    }

    /** A consumer: load from `read_address`, then advance. Bytes come out in the order written. */
    method Read(count: nat) returns (bytes: seq<byte>)
      requires Valid() && count <= Size()
      modifies this`writeOffset, this`readOffset, this`taken
      ensures Valid() && |bytes| == count && old(Live()) == bytes + Live()
      ensures taken == old(taken) + bytes && taken <= written
      ensures bytes == written[old(|taken|)..old(|taken|) + count]
    {
      assert readOffset + count <= 2 * Capacity();
      bytes := Window(readOffset, count);
      ghost var live := Window(readOffset, Size());
      assert bytes == live[..count];
      ReadAdvance(count);
    }
  }

  datatype Op = Put(bytes: seq<byte>) | Take(count: nat)

  /** The queue the ring stands for, after one operation and after all. */
  function Step(q: seq<byte>, op: Op): (r: seq<byte>) {
    match op
    case Put(bytes) => q + bytes
    case Take(count) => if count <= |q| then q[count..] else []
  }

  function Queue(q: seq<byte>, ops: seq<Op>): (r: seq<byte>)
    decreases |ops|
  {
    if ops == [] then q else Queue(Step(q, ops[0]), ops[1..])
  }

  /** What one operation reads, and what all do. */
  function Output(q: seq<byte>, op: Op): (r: seq<byte>) {
    match op
    case Put(_) => []
    case Take(count) => if count <= |q| then q[..count] else q
  }

  function Outputs(q: seq<byte>, ops: seq<Op>): (r: seq<byte>)
    decreases |ops|
  {
    if ops == [] then [] else Output(q, ops[0]) + Outputs(Step(q, ops[0]), ops[1..])
  }

  /** Every write is within the free space and every read within the size. */
  ghost predicate WithinRoom(size: nat, capacity: nat, ops: seq<Op>)
    decreases |ops|
  {
    ops != [] ==>
      match ops[0]
      case Put(bytes) => size + |bytes| <= capacity && WithinRoom(size + |bytes|, capacity, ops[1..])
      case Take(count) => count <= size && WithinRoom(size - count, capacity, ops[1..])
  }

  predicate Fits(size: nat, capacity: nat, op: Op) {
    match op
    case Put(bytes) => size + |bytes| <= capacity
    case Take(count) => count <= size
  }

  lemma OneMore(q: seq<byte>, capacity: nat, ops: seq<Op>, i: nat)
    requires i < |ops| && WithinRoom(|q|, capacity, ops[i..])
    ensures Queue(q, ops[i..]) == Queue(Step(q, ops[i]), ops[i + 1..])
    ensures Outputs(q, ops[i..]) == Output(q, ops[i]) + Outputs(Step(q, ops[i]), ops[i + 1..])
    ensures Fits(|q|, capacity, ops[i]) && WithinRoom(|Step(q, ops[i])|, capacity, ops[i + 1..])
  {
    assert ops[i..][0] == ops[i] && ops[i..][1..] == ops[i + 1..];
  }

  lemma Emptied(q: seq<byte>, out: seq<byte>)
    ensures Queue(q, []) == q && out + Outputs(q, []) == out
  {
  }

  method RunOne(ring: MappedRing, op: Op) returns (out: seq<byte>)
    requires ring.Valid() && Fits(ring.Size(), ring.Capacity(), op)
    modifies ring, ring.mem
    ensures ring.Valid()
    ensures out == old(Output(ring.Live(), op)) && ring.Live() == old(Step(ring.Live(), op))
  {
    match op {
      case Put(bytes) =>
        ring.Write(bytes);
        out := [];
      case Take(count) =>
        out := ring.Read(count);
    }
  }

  /** The ring refines a first-in first-out queue over whole runs. */
  method Run(ring: MappedRing, ops: seq<Op>) returns (out: seq<byte>)
    requires ring.Valid() && WithinRoom(ring.Size(), ring.Capacity(), ops)
    modifies ring, ring.mem
    ensures ring.Valid()
    ensures out == old(Outputs(ring.Live(), ops))
    ensures ring.Live() == old(Queue(ring.Live(), ops))
  {
    hide Queue, Outputs, WithinRoom, Fits, Step, Output;
    out := [];
    ghost var q0 := ring.Live();
    ghost var q := q0;
    assert ops[0..] == ops;
    for i := 0 to |ops|
      invariant ring.Valid() && q == ring.Live()
      invariant WithinRoom(|q|, ring.Capacity(), ops[i..])
      invariant out + Outputs(q, ops[i..]) == Outputs(q0, ops)
      invariant Queue(q, ops[i..]) == Queue(q0, ops)
    {
      OneMore(q, ring.Capacity(), ops, i);
      var bytes := RunOne(ring, ops[i]);
      q := Step(q, ops[i]);
      assert out + (bytes + Outputs(q, ops[i + 1..])) == out + bytes + Outputs(q, ops[i + 1..]);
      out := out + bytes;
    }
    assert ops[|ops|..] == [];
    Emptied(q, out);
  }
}
