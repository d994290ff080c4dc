/** The append-only log file behind the blotter: `src/core/AsyncMappedFile.cpp`. A write reserves its
    place with one atomic fetch-and-add and then copies; writers overlap freely between the two. */
module MappedFile {
  import opened Basics

  const EINVAL_LENGTH := -1
  const ENOMEM := 12

  /** A write between its reservation and the end of its copy. */
  datatype Append = Append(off: nat, data: seq<byte>, copied: nat)

  /** One atomic step of some writer. */
  datatype Step = Reserve(data: seq<byte>) | CopyByte(writer: nat)

  /** What the schedule's writers reserve, in order; an empty write reserves nothing. */
  function Reservations(schedule: seq<Step>): (r: seq<seq<byte>>) {
    if schedule == [] then []
    else
      var last := schedule[|schedule| - 1];
      Reservations(schedule[..|schedule| - 1]) + if last.Reserve? && last.data != [] then [last.data] else []
  }

  /** The writers' reservations and the shared offset after one step. */
  function Taken(appends: seq<Append>, offset: nat, size: nat, step: Step): (r: (seq<Append>, nat)) {
    match step
    case Reserve(data) =>
      (if data != [] && offset + |data| < size then appends + [Append(offset, data, 0)] else appends, offset + |data|)
    case CopyByte(w) =>
      (if w < |appends| && appends[w].copied < |appends[w].data| then appends[w := appends[w].(copied := appends[w].copied + 1)]
       else appends, offset)
  }

  function TakenAll(appends: seq<Append>, offset: nat, size: nat, schedule: seq<Step>): (r: (seq<Append>, nat)) {
    if schedule == [] then (appends, offset)
    else
      var (a, o) := TakenAll(appends, offset, size, schedule[..|schedule| - 1]);
      Taken(a, o, size, schedule[|schedule| - 1])
  }

  /** In an empty mapping every write fits and is copied in full by the end of the schedule. */
  predicate Finishes(size: nat, schedule: seq<Step>) {
    var (appends, offset) := TakenAll([], 0, size, schedule);
    offset < size && forall i :: 0 <= i < |appends| ==> appends[i].copied == |appends[i].data|
  }

  function Size(parts: seq<seq<byte>>): (r: nat) { |Concat(parts)| }

  function FittingFrom(reserved: seq<seq<byte>>, size: nat, from: nat): (n: nat)
    requires from <= |reserved|
    requires forall i :: 0 <= i <= from ==> i == 0 || Size(reserved[..i]) < size
    ensures from <= n <= |reserved|
    ensures forall i :: 0 <= i <= n ==> i == 0 || Size(reserved[..i]) < size
    ensures n < |reserved| ==> Size(reserved[..n + 1]) >= size
    decreases |reserved| - from
  {
    if from == |reserved| || Size(reserved[..from + 1]) >= size then from
    else FittingFrom(reserved, size, from + 1)
  }

  /** The longest prefix of the reservations that stays below the mapping's size. */
  function Fitting(reserved: seq<seq<byte>>, size: nat): (n: nat)
    ensures n <= |reserved|
    ensures forall i :: 0 <= i <= n ==> i == 0 || Size(reserved[..i]) < size
    ensures n < |reserved| ==> Size(reserved[..n + 1]) >= size
  {
    FittingFrom(reserved, size, 0)
  }

  lemma SizeGrows(parts: seq<seq<byte>>, i: nat, j: nat)
    requires i <= j <= |parts|
    ensures Size(parts[..i]) <= Size(parts[..j])
  {
    assert parts[..j] == parts[..i] + parts[i..j];
    ConcatPlus(parts[..i], parts[i..j]);
  }

  lemma SizeStep(parts: seq<seq<byte>>, i: nat)
    requires i < |parts|
    ensures Size(parts[..i + 1]) == Size(parts[..i]) + |parts[i]|
  {
    assert parts[..i + 1] == parts[..i] + [parts[i]];
    ConcatAppend(parts[..i], parts[i]);
  }

  class AsyncMappedFile {
    const mem: array<byte>           // m_filemap
    var offset: nat                  // *m_sizemap, shared by all writers
    var appends: seq<Append>         // the writers' reservations that were granted
    ghost var reserved: seq<seq<byte>>  // every reservation in fetch-and-add order

    ghost predicate Placed(i: nat)
      requires i < |appends| <= |reserved|
      reads this, mem
    {
      var a := appends[i];
      && a.data == reserved[i] && a.off == Size(reserved[..i]) && a.off + |a.data| < mem.Length
      && a.copied <= |a.data|
      && forall k :: 0 <= k < a.copied ==> mem[a.off + k] == a.data[k]
    }

    /** Granted reservations are a prefix of all of them, laid end to end; the rest did not fit. */
    ghost predicate Valid()
      reads this, mem
    {
      && offset == Size(reserved)
      && |appends| <= |reserved|
      && (forall i :: 0 <= i < |reserved| ==> reserved[i] != [])
      && (forall i :: 0 <= i < |appends| ==> Placed(i))
      && (|appends| < |reserved| ==> Size(reserved[..|appends| + 1]) >= mem.Length)
    }

    ghost predicate Quiescent()
      reads this
    {
      forall i :: 0 <= i < |appends| ==> appends[i].copied == |appends[i].data|
    }

    constructor (size: nat)
      ensures Valid() && fresh(mem) && mem.Length == size
      ensures offset == 0 && reserved == [] && appends == []
    {
      mem := new byte[size](_ => 0);
      offset, appends, reserved := 0, [], [];
    }

    /** `__sync_fetch_and_add`, then the size check. The offset stays advanced when it fails. */
    method ReserveSpace(data: seq<byte>) returns (granted: bool)
      requires Valid() && data != []
      modifies this
      ensures Valid() && reserved == old(reserved) + [data] && offset == old(offset) + |data|
      ensures granted <==> old(offset) + |data| < mem.Length
      ensures appends == if granted then old(appends) + [Append(old(offset), data, 0)] else old(appends)
    {
      var off := offset;
      offset := offset + |data|;
      granted := off + |data| < mem.Length;
      ghost var before := reserved;
      reserved := reserved + [data];
      ConcatAppend(before, data);
      assert forall i :: 0 <= i <= |before| ==> reserved[..i] == before[..i];
      assert reserved[..|reserved|] == reserved && before[..|before|] == before;
      if granted {
        if |appends| < |before| { SizeGrows(before, |appends| + 1, |before|); }
        appends := appends + [Append(off, data, 0)];
      }
      forall i | 0 <= i < |old(appends)| ensures Placed(i) {
        assert old(Placed(i));
      }
    }

    /** One byte of some writer's `memcpy`. */
    method CopyOne(w: nat)
      requires Valid() && w < |appends| && appends[w].copied < |appends[w].data|
      modifies this`appends, mem
      ensures Valid()
      ensures appends == old(appends)[w := old(appends)[w].(copied := old(appends)[w].copied + 1)]
    {
      var a := appends[w];
      assert Placed(w);
      forall i | 0 <= i < |appends| && i != w
        ensures appends[i].off + |appends[i].data| <= a.off || a.off + |a.data| <= appends[i].off
      {
        assert Placed(i);
        if i < w { SizeStep(reserved, i); SizeGrows(reserved, i + 1, w); }
        else { SizeStep(reserved, w); SizeGrows(reserved, w + 1, i); }
      }
      mem[a.off + a.copied] := a.data[a.copied];
      appends := appends[w := a.(copied := a.copied + 1)];
      forall i | 0 <= i < |appends| ensures Placed(i) {
        assert old(Placed(i));
      }
    }

    lemma GrantedFit()
      requires Valid()
      ensures |appends| == Fitting(reserved, mem.Length)
    {
      var n := Fitting(reserved, mem.Length);
      assert |appends| < |reserved| ==> Size(reserved[..|appends| + 1]) >= mem.Length;
      if n < |appends| {
        assert Placed(n);
        SizeStep(reserved, n);
      }
    }

    lemma {:induction false} ContentsUpTo(j: nat)
      requires Valid() && Quiescent() && j <= |appends|
      ensures Size(reserved[..j]) <= mem.Length
      ensures mem[..Size(reserved[..j])] == Concat(reserved[..j])
    {
      if j > 0 {
        ContentsUpTo(j - 1);
        assert Placed(j - 1);
        var a := appends[j - 1];
        SizeStep(reserved, j - 1);
        assert reserved[..j] == reserved[..j - 1] + [a.data];
        ConcatAppend(reserved[..j - 1], a.data);
        assert mem[..a.off + |a.data|] == mem[..a.off] + a.data;
      } else {
        assert reserved[..0] == [];
      }
    }

    /** Once every copy is finished the file is the concatenation, in reservation order, of the
        records that fit; it holds every record exactly when the shared offset is inside the mapping. */
    lemma QuiescentContents()
      requires Valid() && Quiescent()
      ensures Size(reserved[..|appends|]) <= mem.Length
      ensures mem[..Size(reserved[..|appends|])] == Concat(reserved[..|appends|])
      ensures reserved != [] ==> (|appends| == |reserved| <==> offset < mem.Length)
    {
      ContentsUpTo(|appends|);
      assert reserved[..|reserved|] == reserved;
      if |appends| == |reserved| > 0 {
        assert Placed(|appends| - 1);
        SizeStep(reserved, |appends| - 1);
      } else if |appends| < |reserved| {
        SizeGrows(reserved, |appends| + 1, |reserved|);
      }
    }

    /** Nothing was refused: the file is all reservations. */
    lemma WholeContents()
      requires Valid() && Quiescent() && offset < mem.Length
      ensures mem[..offset] == Concat(reserved)
    {
      QuiescentContents();
      assert reserved[..|reserved|] == reserved;
      if reserved == [] { assert mem[..0] == []; }
    }

    /** One step, if its writer can take it. */
    method Take(step: Step)
      requires Valid()
      modifies this, mem
      ensures Valid()
      ensures (appends, offset) == Taken(old(appends), old(offset), mem.Length, step)
      ensures reserved == old(reserved) + if step.Reserve? && step.data != [] then [step.data] else []
    {
      match step
      case Reserve(data) =>
        if data != [] { var _ := ReserveSpace(data); }
      case CopyByte(w) =>
        if w < |appends| && appends[w].copied < |appends[w].data| { CopyOne(w); }
    }

    /** Any interleaving of any number of writers; a step no writer can take is skipped. The granted
        writes are exactly the reservations that fit, and in reservation order. Once every copy is finished
        and the shared offset is inside the mapping, the file is everything that was reserved, end to end. */
    method Run(schedule: seq<Step>)
      requires Valid()
      modifies this, mem
      ensures Valid()
      ensures (appends, offset) == TakenAll(old(appends), old(offset), mem.Length, schedule)
      ensures reserved == old(reserved) + Reservations(schedule)
      ensures |appends| == Fitting(reserved, mem.Length)
      ensures Quiescent() && offset < mem.Length ==> mem[..offset] == Concat(old(reserved) + Reservations(schedule))
    {
      for i := 0 to |schedule|
        invariant Valid() && reserved == old(reserved) + Reservations(schedule[..i])
        invariant (appends, offset) == TakenAll(old(appends), old(offset), mem.Length, schedule[..i])
      {
        assert schedule[..i + 1][..i] == schedule[..i];
        Take(schedule[i]);
      }
      assert schedule[..|schedule|] == schedule;
      GrantedFit();
      if Quiescent() && offset < mem.Length { WholeContents(); }
    }

    /** `write`: both phases by one writer with nobody in between. */
    method Write(buf: seq<byte>) returns (ret: int)
      requires Valid() && Quiescent()
      modifies this, mem
      ensures Valid() && Quiescent()
      ensures reserved == if buf == [] then old(reserved) else old(reserved) + [buf]
      ensures ret == if buf == [] then EINVAL_LENGTH
                     else if old(offset) + |buf| < mem.Length then |buf| else -ENOMEM
    {
      if buf == [] { return EINVAL_LENGTH; }
      var granted := ReserveSpace(buf);
      if !granted { return -ENOMEM; }
      var w := |appends| - 1;
      while appends[w].copied < |buf|
        invariant Valid() && |appends| == w + 1 && reserved == old(reserved) + [buf]
        invariant appends[w].data == buf && appends[w].copied <= |buf|
        invariant forall i :: 0 <= i < w ==> appends[i].copied == |appends[i].data|
        decreases |buf| - appends[w].copied
      {
        CopyOne(w);
      }
      return |buf|;
    }
  }
}
