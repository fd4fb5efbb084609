/** Creation of a buffer over a set of existing buffers.  What guest and GPU have written to any of them is in the new
    one, except for the bytes of a source that the GPU has written and that takes part in the work still being
    recorded: these stay behind. */
module BufferMerging {
  import opened Paging
  import opened Traps
  import opened Buffers
  import opened Common

  /** An existing buffer: where it lies, its state, its GPU side, and whether it passes for one that takes part in the
      cycle still being recorded.  The last stands for whatever `owner_before` answers for the cycle of the source and
      the current one: that is an order on owners, false for equal ones, so that the branch meant for the current cycle
      is not taken for that cycle itself.  Everything here holds for every answer. */
  datatype Source = Source(guest: Interval, dirty: DirtyState, backing: seq<Byte>, inCurrentCycle: bool)

  /** Guest memory, which the mirrors of all buffers alias. */
  type Memory = int -> Byte

  /** The source is a coherent buffer over this memory. */
  ghost predicate Coherent(s: Source, memory: Memory) {
    && s.guest.NonEmpty() && |s.backing| == s.guest.end - s.guest.start
    && (s.dirty == Clean ==> forall a :: s.guest.Contains(a) ==> s.backing[a - s.guest.start] == memory(a))
  }

  ghost predicate Disjoint(sources: seq<Source>) {
    forall i, j :: 0 <= i < j < |sources| ==> !sources[i].guest.Overlaps(sources[j].guest)
  }

  /** What the byte at an address is agreed to be: GPU writes that are not synchronised yet win over memory. */
  ghost function Agreed(sources: seq<Source>, memory: Memory, a: int): Byte {
    if sources == [] then memory(a)
    else
      var s := sources[|sources| - 1];
      if s.dirty == GpuDirty && s.guest.Contains(a) && a - s.guest.start < |s.backing| then s.backing[a - s.guest.start]
      else Agreed(sources[..|sources| - 1], memory, a)
  }

  /** A GPU dirty source that takes part in the work being recorded covers the address. */
  ghost predicate StillRecording(sources: seq<Source>, a: int) {
    exists i :: 0 <= i < |sources| && Recording(sources[i]) && sources[i].guest.Contains(a)
  }

  predicate Recording(s: Source) { s.dirty == GpuDirty && s.inCurrentCycle }

  /** None of the sources covers the address. */
  ghost predicate Outside(sources: seq<Source>, a: int) {
    forall i :: 0 <= i < |sources| ==> !sources[i].guest.Contains(a)
  }

  lemma {:induction false} AgreedOutside(sources: seq<Source>, memory: Memory, a: int)
    requires Outside(sources, a)
    ensures Agreed(sources, memory, a) == memory(a)
  {
    if sources != [] {
      AgreedOutside(sources[..|sources| - 1], memory, a);
    }
  }

  /** With disjoint sources it is the one that covers the address that decides, if any. */
  lemma {:induction false} AgreedInside(sources: seq<Source>, memory: Memory, a: int, i: nat)
    requires Disjoint(sources) && i < |sources| && sources[i].guest.Contains(a)
    requires |sources[i].backing| == sources[i].guest.end - sources[i].guest.start
    ensures Agreed(sources, memory, a) ==
      if sources[i].dirty == GpuDirty then sources[i].backing[a - sources[i].guest.start] else memory(a)
  {
    var n := |sources| - 1;
    if i == n {
      forall j | 0 <= j < n ensures !sources[j].guest.Contains(a) {
        assert !sources[j].guest.Overlaps(sources[n].guest);
      }
      AgreedOutside(sources[..n], memory, a);
    } else {
      assert !sources[i].guest.Overlaps(sources[n].guest);
      AgreedInside(sources[..n], memory, a, i);
    }
  }

  /** Copies between two buffers by where they lie in guest memory: afterwards the destination has the source's bytes
      at exactly the addresses that both cover. */
  method CopyBuffer(dstGuest: Interval, srcGuest: Interval, dst: seq<Byte>, src: seq<Byte>) returns (r: seq<Byte>)
    requires dstGuest.NonEmpty() && srcGuest.NonEmpty() && dstGuest.Overlaps(srcGuest)
    requires |dst| == dstGuest.end - dstGuest.start && |src| == srcGuest.end - srcGuest.start
    ensures |r| == |dst|
    ensures forall a :: dstGuest.Contains(a) ==>
      r[a - dstGuest.start] == if srcGuest.Contains(a) then src[a - srcGuest.start] else dst[a - dstGuest.start]
  {
    if dstGuest.start <= srcGuest.start {
      var dstOffset := srcGuest.start - dstGuest.start;
      var copySize := Min(|dst| - dstOffset, |src|);
      r := Spliced(dst, dstOffset, src[..copySize]);
    } else {
      var srcOffset := dstGuest.start - srcGuest.start;
      var copySize := Min(|dst|, |src| - srcOffset);
      r := Spliced(dst, 0, src[srcOffset..srcOffset + copySize]);
    }
  }

  /** A GPU to CPU synchronisation of one source. */
  function Synchronized(memory: Memory, s: Source): Memory {
    a => if s.guest.Contains(a) && a - s.guest.start < |s.backing| then s.backing[a - s.guest.start] else memory(a)
  }

  /** After the first n sources: memory and the new buffer hold the agreed byte at the address. */
  ghost predicate Settled(hull: Interval, memory: Memory, sources: seq<Source>, memory': Memory, backing: seq<Byte>,
                          a: int)
    requires |backing| == hull.end - hull.start
  {
    && (Outside(sources, a) ==> memory'(a) == memory(a))
    && (!StillRecording(sources, a) ==> memory'(a) == Agreed(sources, memory, a))
    && (StillRecording(sources, a) ==> memory'(a) == memory(a))
    && (hull.Contains(a) ==> backing[a - hull.start] == memory'(a))
  }

  /** One more source settles its own addresses and leaves the others alone. */
  lemma SettleStep(hull: Interval, memory: Memory, sources: seq<Source>, n: nat, memory1: Memory, backing1: seq<Byte>,
                   memory2: Memory, backing2: seq<Byte>, a: int)
    requires n < |sources| && Disjoint(sources) && Coherent(sources[n], memory)
    requires |backing1| == |backing2| == hull.end - hull.start
    requires Settled(hull, memory, sources[..n], memory1, backing1, a)
    requires var s := sources[n]; var copied := s.dirty == Clean || (s.dirty == GpuDirty && !s.inCurrentCycle);
      && memory2(a) == (if s.dirty == GpuDirty && !s.inCurrentCycle && s.guest.Contains(a)
        then s.backing[a - s.guest.start] else memory1(a))
      && (hull.Contains(a) ==>
            backing2[a - hull.start] ==
            if copied && s.guest.Contains(a) then s.backing[a - s.guest.start] else backing1[a - hull.start])
    ensures Settled(hull, memory, sources[..n + 1], memory2, backing2, a)
  {
    var before, after, s := sources[..n], sources[..n + 1], sources[n];
    assert after[..n] == before && after[n] == s;
    assert forall i :: 0 <= i < n ==> after[i] == before[i];
    assert StillRecording(after, a) <==> StillRecording(before, a) || (Recording(s) && s.guest.Contains(a)) by {
      if StillRecording(before, a) {
        var i :| 0 <= i < |before| && Recording(before[i]) && before[i].guest.Contains(a);
        assert after[i] == before[i];
      }
    }
    assert Outside(after, a) <==> Outside(before, a) && !s.guest.Contains(a);
    if s.guest.Contains(a) {
      forall i | 0 <= i < n ensures !before[i].guest.Contains(a) {
        assert !sources[i].guest.Overlaps(sources[n].guest);
      }
      assert Outside(before, a);
      AgreedOutside(before, memory, a);
    }
  }

  /** The bytes of a range of guest memory, as its mirror shows them. */
  function Bytes(range: Interval, memory: Memory): (r: seq<Byte>)
    requires range.NonEmpty()
    ensures |r| == range.end - range.start
    ensures forall a :: range.Contains(a) ==> r[a - range.start] == memory(a)
  {
    seq(range.end - range.start, i => memory(range.start + i))
  }

  /** Construction of the merged buffer.  It is a valid buffer whose sequence number is past the one that its views
      will be set back to.  Wherever no GPU work is being recorded, it and guest memory hold the agreed byte; elsewhere
      both keep the byte that guest memory had.  So the agreed byte survives exactly where no GPU work is being
      recorded or it made no difference. */
  method Construct(hull: Interval, memory: Memory, sources: seq<Source>, garbage: seq<Byte>)
    returns (memory': Memory, b: Buffer)
    requires hull.NonEmpty() && Disjoint(sources) && |garbage| == hull.end - hull.start
    requires forall i :: 0 <= i < |sources| ==> Coherent(sources[i], memory) && hull.Overlaps(sources[i].guest)
    ensures fresh(b) && b.Valid() && b.mirror == Bytes(hull, memory') && |b.backing| == hull.end - hull.start
    ensures b.published == map[] && b.views == map[] && !b.everHadInlineUpdate
    ensures b.dirty == if exists i :: 0 <= i < |sources| && Recording(sources[i]) then GpuDirty else Clean
    ensures b.sequenceNumber == (if b.dirty == GpuDirty then 3 else 2)
    ensures b.trap == if b.dirty == GpuDirty then ReadWrite else WriteOnly
    ensures forall a :: memory'(a) == if StillRecording(sources, a) then memory(a) else Agreed(sources, memory, a)
    ensures forall a :: hull.Contains(a) ==> b.backing[a - hull.start] == memory'(a)
    ensures forall a :: hull.Contains(a) ==>
      (b.backing[a - hull.start] == Agreed(sources, memory, a) <==>
        !StillRecording(sources, a) || Agreed(sources, memory, a) == memory(a))
  {
    hide Agreed, StillRecording, Outside, Coherent, Disjoint, Bytes, Building;
    memory' := memory;
    b := new Buffer(Bytes(hull, memory), garbage);
    b.SynchronizeHost(false);
    Begun(b, hull, memory, sources[..0]);
    for n := 0 to |sources|
      invariant fresh(b) && Building(b, hull, memory, sources[..n], memory')
    {
      memory' := Transfer(b, hull, memory, sources, n, memory');
    }
    assert sources[..|sources|] == sources;
    Built(b, hull, memory, sources, memory');
  }

  /** The state of the new buffer while it is being constructed. */
  ghost predicate Building(b: Buffer, hull: Interval, memory: Memory, sources: seq<Source>, memory': Memory)
    reads b
  {
    && hull.NonEmpty() && b.Valid() && b.mirror == b.backing == Bytes(hull, memory')
    && b.published == map[] && b.views == map[] && !b.everHadInlineUpdate
    && b.dirty == (if exists i :: 0 <= i < |sources| && Recording(sources[i]) then GpuDirty else Clean)
    && b.sequenceNumber == (if b.dirty == GpuDirty then 3 else 2) &&
      b.trap == (if b.dirty == GpuDirty then ReadWrite else WriteOnly)
    && forall a :: Settled(hull, memory, sources, memory', b.backing, a)
  }

  lemma Begun(b: Buffer, hull: Interval, memory: Memory, sources: seq<Source>)
    requires sources == [] && hull.NonEmpty() && b.Valid() && b.mirror == b.backing == Bytes(hull, memory)
    requires b.dirty == Clean
    requires b.published == map[] && b.views == map[] && !b.everHadInlineUpdate && b.sequenceNumber == 2
    requires b.trap == WriteOnly
    ensures Building(b, hull, memory, sources, memory)
  {
    hide Bytes, Agreed, StillRecording, Outside;
    forall a ensures Settled(hull, memory, sources, memory, b.backing, a) {
      SettledAtFirst(hull, memory, sources, memory, b.backing, a);
    }
  }

  lemma Built(b: Buffer, hull: Interval, memory: Memory, sources: seq<Source>, memory': Memory)
    requires Building(b, hull, memory, sources, memory')
    ensures b.Valid() && b.mirror == Bytes(hull, memory') && |b.backing| == hull.end - hull.start
    ensures b.published == map[] && b.views == map[] && !b.everHadInlineUpdate
    ensures b.dirty == if exists i :: 0 <= i < |sources| && Recording(sources[i]) then GpuDirty else Clean
    ensures b.sequenceNumber == (if b.dirty == GpuDirty then 3 else 2)
    ensures b.trap == if b.dirty == GpuDirty then ReadWrite else WriteOnly
    ensures forall a :: memory'(a) == if StillRecording(sources, a) then memory(a) else Agreed(sources, memory, a)
    ensures forall a :: hull.Contains(a) ==> b.backing[a - hull.start] == memory'(a)
  {
    hide Bytes, Agreed, StillRecording, Outside, Buffer.Valid;
    forall a
      ensures memory'(a) == if StillRecording(sources, a) then memory(a) else Agreed(sources, memory, a)
      ensures hull.Contains(a) ==> b.backing[a - hull.start] == memory'(a)
    {
      assert Settled(hull, memory, sources, memory', b.backing, a);
    }
  }

  /** The transfer of data and state from one source. */
  method Transfer(b: Buffer, hull: Interval, ghost memory: Memory, sources: seq<Source>, n: nat, memory1: Memory)
    returns (memory': Memory)
    requires n < |sources| && Disjoint(sources) && Coherent(sources[n], memory) && hull.Overlaps(sources[n].guest)
    requires Building(b, hull, memory, sources[..n], memory1)
    modifies b
    ensures Building(b, hull, memory, sources[..n + 1], memory')
  {
    hide Agreed, StillRecording, Outside, Coherent, Disjoint, Bytes, Settled;
    var s := sources[n];
    memory' := memory1;
    ghost var backing1 := b.backing;
    SizeOf(s, memory);
    if s.dirty == GpuDirty {
      if !s.inCurrentCycle {
        memory' := Synchronized(memory', s);
        b.mirror := Bytes(hull, memory');
        b.backing := CopyBuffer(hull, s.guest, b.backing, Bytes(s.guest, memory'));
      } else {
        b.MarkGpuDirty();
      }
    } else if s.dirty == Clean {
      b.backing := CopyBuffer(hull, s.guest, b.backing, s.backing);
    }
    ghost var after := sources[..n + 1];
    forall a ensures Settled(hull, memory, after, memory', b.backing, a) {
      SettleStep(hull, memory, sources, n, memory1, backing1, memory', b.backing, a);
    }
    BackingIsMemory(hull, memory, after, memory', b.backing);
  }

  lemma BackingIsMemory(hull: Interval, memory: Memory, sources: seq<Source>, memory': Memory, backing: seq<Byte>)
    requires hull.NonEmpty() && |backing| == hull.end - hull.start
    requires forall a :: Settled(hull, memory, sources, memory', backing, a)
    ensures backing == Bytes(hull, memory')
  {
    hide Agreed, StillRecording, Outside;
    forall i | 0 <= i < |backing| ensures backing[i] == Bytes(hull, memory')[i] {
      assert Settled(hull, memory, sources, memory', backing, hull.start + i);
    }
  }

  /** The destructors of the sources: those still GPU dirty are written back to guest memory, which thereby holds the
      agreed byte everywhere, whatever the new buffer holds. */
  method Destroy(memory: Memory, sources: seq<Source>, ghost before: Memory) returns (memory': Memory)
    requires Disjoint(sources) && forall i :: 0 <= i < |sources| ==> Coherent(sources[i], before)
    requires forall a :: memory(a) == if StillRecording(sources, a) then before(a) else Agreed(sources, before, a)
    ensures forall a :: memory'(a) == Agreed(sources, before, a)
  {
    hide Agreed, StillRecording, Coherent, Disjoint;
    memory' := memory;
    assert sources[0..] == sources;
    for n := 0 to |sources|
      invariant forall a :: memory'(a) == if StillRecording(sources[n..], a) then before(a)
        else Agreed(sources, before, a)
    {
      ghost var was := memory';
      SizeOf(sources[n], before);
      if Recording(sources[n]) {
        memory' := Synchronized(memory', sources[n]);
      }
      forall a
        ensures memory'(a) == if StillRecording(sources[n + 1..], a) then before(a) else Agreed(sources, before, a)
      {
        WriteBackStep(sources, before, n, a);
      }
    }
    forall a ensures !StillRecording(sources[|sources|..], a) {
      NothingRecording(sources[|sources|..], a);
    }
  }

  lemma NothingRecording(sources: seq<Source>, a: int)
    requires sources == []
    ensures !StillRecording(sources, a)
  {
  }

  /** Writing back a source settles its addresses, which no later source covers. */
  lemma WriteBackStep(sources: seq<Source>, memory: Memory, n: nat, a: int)
    requires n < |sources| && Disjoint(sources) && Coherent(sources[n], memory)
    ensures Recording(sources[n]) && sources[n].guest.Contains(a) ==>
      Agreed(sources, memory, a) == sources[n].backing[a - sources[n].guest.start] &&
        !StillRecording(sources[n + 1..], a)
    ensures !(Recording(sources[n]) && sources[n].guest.Contains(a)) ==>
      (StillRecording(sources[n..], a) <==> StillRecording(sources[n + 1..], a))
  {
    var rest, later := sources[n..], sources[n + 1..];
    assert rest[0] == sources[n];
    assert forall i :: 0 <= i < |later| ==> later[i] == rest[i + 1] == sources[n + 1 + i];
    if Recording(sources[n]) && sources[n].guest.Contains(a) {
      AgreedInside(sources, memory, a, n);
      forall i | 0 <= i < |later| ensures !later[i].guest.Contains(a) {
        assert !sources[n].guest.Overlaps(sources[n + 1 + i].guest);
      }
    } else if StillRecording(rest, a) {
      var i :| 0 <= i < |rest| && Recording(rest[i]) && rest[i].guest.Contains(a);
      assert later[i - 1] == rest[i];
    }
  }

  lemma SizeOf(s: Source, memory: Memory)
    requires Coherent(s, memory)
    ensures s.guest.NonEmpty() && |s.backing| == s.guest.end - s.guest.start
  {
  }

  lemma SettledAtFirst(hull: Interval, memory: Memory, sources: seq<Source>, memory': Memory, backing: seq<Byte>,
                       a: int)
    requires sources == [] && |backing| == hull.end - hull.start
    requires memory'(a) == memory(a) && (hull.Contains(a) ==> backing[a - hull.start] == memory(a))
    ensures Settled(hull, memory, sources, memory', backing, a)
  {
  }
}
