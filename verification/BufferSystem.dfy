/** All buffers together: they share guest memory, the trap map that protects its pages, and one megabuffer.  Guest
    accesses go through page protection and the fault handler, lookups create and merge buffers, and the executor
    acquires copies and submits its work.  Every run refines the flat machine. */
module BufferSystems {
  import opened Paging
  import opened IntervalMaps
  import opened Traps
  import opened Buffers
  import opened BufferMerging
  import opened BufferPools
  import opened FlatMachines
  import opened Common
  import BufferManagers

  /** The vector of tracked buffers holds exactly these, in address order. */
  ghost predicate Ordered(order: seq<Handle>, guest: Ranges) {
    BufferManagers.Laid(order, guest) && forall h :: h in order <==> h in guest
  }

  /** The vector after a merge. */
  method Reordered(order: seq<Handle>, guest: Ranges, hull: Interval, overlaps: seq<Handle>, h: Handle)
    returns (order': seq<Handle>)
    requires Ordered(order, guest) && Holding(guest, hull, overlaps) && hull.Aligned() && h !in guest
    ensures Ordered(order', Replaced(guest, overlaps, h, hull))
  {
    hide BufferManagers.Laid;
    var more := guest[h := hull];
    BufferManagers.LaidElsewhere(order, guest, more);
    order' := BufferManagers.Exchange(order, more, overlaps, h);
    BufferManagers.LaidElsewhere(order', more, Replaced(guest, overlaps, h, hull));
  }

  class BufferSystem {
    const traps: TrapManager
    const mega: MegaBuffer
    var memory: Memory
    var buffers: Objects
    var guest: Ranges
    var order: seq<Handle>
    var owner: Owners
    var attached: set<nat>
    var nextView: nat
    ghost var flat: Memory
    ghost var places: map<nat, Interval>

    ghost function Now(): Shared
      reads this, mega
    {
      Shared(flat, mega.backing, mega.free, owner, places, attached)
    }

    /** What can be told of all buffers from outside. */
    ghost function Snapshot(): State
      reads this, traps, mega, set h | h in buffers :: buffers[h]
    {
      State(guest, map h | h in buffers :: buffers[h].dirty, map h | h in buffers :: buffers[h].everHadInlineUpdate,
            owner, places, mega.free, |mega.backing|, traps.host, memory, flat)
    }

    ghost predicate Valid()
      reads this, traps, traps.trapMap, mega, set h | h in buffers :: buffers[h]
    {
      ValidBut({})
    }

    /** The invariant, while some buffers have changed and neither memory nor the trap map has followed yet. */
    ghost predicate ValidBut(out: set<Handle>)
      reads this, traps, traps.trapMap, mega, set h | h in buffers :: buffers[h]
    {
      && mega.Valid() && traps.Valid() && traps.Tidy()
      && Apart(buffers, guest) && AllTrapped(guest, traps.trapMap.groups)
      && AllFit(buffers, guest, Now()) && AllLinked(buffers, guest, memory, traps.trapMap.groups, out)
      && OwnersLive(Now(), buffers) && VacantAgree(guest, memory, flat)
      && Ordered(order, guest) && forall v :: v in owner ==> v < nextView
    }

    constructor (contents: Memory, size: nat, garbage: seq<Byte>)
      requires |garbage| == size && PageSize <= size && IsAligned(size)
      ensures Valid() && flat == contents && buffers == map[] && fresh(traps) && fresh(traps.trapMap) && fresh(mega)
      ensures Snapshot() == State(map[], map[], map[], map[], map[], PageSize, size, traps.host, contents, contents)
      ensures forall p :: traps.host(p) == Protection.None
    {
      traps := new TrapManager();
      mega := new MegaBuffer(size, garbage);
      memory, buffers, guest, order, owner, attached, nextView := contents, map[], map[], [], map[], {}, 0;
      flat, places := contents, map[];
    }

    /** The trap of a buffer is set anew where its demand has changed, and its pages get just that level. */
    method Retrap(h: Handle, demand: Protection, ghost range: Interval)
      requires traps.Valid() && traps.Tidy() && h in traps.trapMap.groups
      requires traps.trapMap.groups[h].intervals == [range]
      requires range.Aligned() && traps.trapMap.OnlyTouchedBy(h, range)
      modifies traps`host, traps.trapMap
      ensures traps.Valid() && traps.Tidy()
      ensures traps.trapMap.groups == old(traps.trapMap.groups)[h := old(traps.trapMap.groups)[h].(value := demand)]
      ensures forall p ::
        traps.host(p) == Level(old(traps.host(p)), range, p, old(traps.trapMap.groups)[h].value, demand)
    {
      hide TrapManager.Valid, TrapManager.Tidy, TrapManager.Reprotected;
      if traps.trapMap.groups[h].value != demand {
        ghost var was := traps.host;
        if demand == Protection.None {
          traps.RemoveTrap(h);
        } else {
          traps.RetrapRegions(h, demand == WriteOnly);
        }
        assert forall g :: traps.trapMap.Touches(g, range) ==> old(traps.trapMap.Touches(g, range));
        forall p ensures traps.host(p) == if range.Overlaps(Page(p)) then demand else was(p) {
          traps.SoleLevel(h, range, demand, was(p), traps.host(p), p);
        }
      }
    }

    /** The trap map and memory follow a buffer that has changed. */
    method Settle(h: Handle, ghost out: set<Handle>)
      requires h in buffers && h in out && ValidBut(out) && buffers[h].Exact()
      modifies this`memory, traps`host, traps.trapMap
      ensures ValidBut(out - {h}) && h in guest && WrittenThrough(old(memory), memory, guest[h], buffers[h].mirror)
      ensures h in old(traps.trapMap.groups)
      ensures forall p ::
        traps.host(p) == Level(old(traps.host(p)), guest[h], p, old(traps.trapMap.groups)[h].value, buffers[h].trap)
    {
      hide AllFit, AllLinked, AllTrapped, VacantAgree, OwnersLive, TrapManager.Valid, TrapManager.Tidy, Level;
      hide MegaBuffer.Valid, Apart, Ordered;
      hide WrittenThrough, Shows, Buffer.Valid, Cached, OwnViews, Fits, OthersFit;
      var b := buffers[h];
      Single(buffers, guest, Now(), h);
      TrapOf(guest, traps.trapMap.groups, h);
      Sole(h);
      ghost var groups := traps.trapMap.groups;
      Retrap(h, b.trap, guest[h]);
      DemandFollows(buffers, guest, memory, groups, h, b.trap, out);
      MemoryFollows(buffers, guest, flat, memory, traps.trapMap.groups, h, out);
      WritesThrough(memory, guest[h], b.mirror);
      memory := Updated(memory, guest[h].start, b.mirror);
    }

    /** No trap but its own is on the pages of a buffer. */
    lemma Sole(h: Handle)
      requires Apart(buffers, guest) && AllTrapped(guest, traps.trapMap.groups) && Ordered(order, guest) && h in guest
      ensures guest[h].Aligned() && traps.trapMap.OnlyTouchedBy(h, guest[h])
    {
      hide Ordered, IntervalMap.Touches;
      TouchesIs(h, guest[h]);
      forall g | traps.trapMap.Touches(g, guest[h]) ensures g == h {
        TouchesIs(g, guest[h]);
      }
    }

    /** What an operation on one buffer leaves alone; the others fit in with what was shared before. */
    ghost predicate Rest(h: Handle, w: Shared, out: set<Handle>)
      reads this`buffers, this`guest, this`order, this`memory, this`nextView
      reads traps, traps.trapMap, set k | k in buffers && (k != h || k !in out) :: buffers[k]
    {
      && h in buffers && h in out && traps.Valid() && traps.Tidy() && Apart(buffers, guest) && Ordered(order, guest)
      && AllTrapped(guest, traps.trapMap.groups) && VacantAgree(guest, memory, w.flat)
      && AllLinked(buffers, guest, memory, traps.trapMap.groups, out) && OthersFit(buffers, guest, w, h)
      && OwnersLive(w, buffers) && (forall v :: v in w.owner ==> v < nextView)
    }

    /** What is shared has changed only by more copies in the megabuffer, by views of one buffer and by bytes in its
        range. */
    ghost predicate Advanced(h: Handle, w: Shared)
      reads this, mega
    {
      && h in buffers && h in guest && mega.Valid() && Grown(w, Now()) && OwnersLive(Now(), buffers)
      && (forall v :: v in owner ==> v < nextView)
      && (forall k :: k in buffers && k != h ==> SameViews(k, w, Now()))
      && (forall a :: !guest[h].Contains(a) ==> flat(a) == w.flat(a))
    }

    /** What the invariant says of one buffer when an operation on it begins. */
    lemma Begin(h: Handle)
      requires Valid() && h in buffers
      ensures Rest(h, Now(), {h}) && Advanced(h, Now()) && h in guest && guest[h].NonEmpty()
      ensures mega.Valid() && buffers[h].Valid() && Shows(buffers[h].Contents(), guest[h], flat)
      ensures Cached(buffers[h].views, buffers[h].published, mega.backing, mega.free)
      ensures OwnViews(h, buffers[h].views, guest[h].start, Now())
      ensures |buffers[h].mirror| == |buffers[h].backing| == guest[h].end - guest[h].start
      ensures Shows(buffers[h].mirror, guest[h], memory)
      ensures h in traps.trapMap.groups && traps.trapMap.groups[h].value == buffers[h].trap && buffers[h].Exact()
      ensures buffers[h] !in set k | k in buffers && k != h :: buffers[k]
    {
      hide Fits, AllFit, OthersFit, Linked, AllLinked, AllTrapped, VacantAgree, OwnersLive, Apart, Ordered;
      hide TrapManager.Valid, TrapManager.Tidy, Shows, Cached, OwnViews, Buffer.Valid;
      Single(buffers, guest, Now(), h);
      SingleLinked(buffers, guest, memory, traps.trapMap.groups, h);
    }

    lemma OnlyBytes(h: Handle, w: Shared, out: set<Handle>)
      requires Rest(h, w, out) && mega.Valid() && Grown(w, Now()) && owner == w.owner && places == w.places
      requires h in guest
      requires forall a :: !guest[h].Contains(a) ==> flat(a) == w.flat(a)
      ensures Advanced(h, w)
    {
      hide AllLinked, AllTrapped, VacantAgree, OthersFit, Apart, Ordered, TrapManager.Valid, TrapManager.Tidy;
      hide MegaBuffer.Valid, Grown;
      SameOwners(w, Now(), buffers);
    }

    lemma Unmoved(h: Handle, out: set<Handle>)
      requires Rest(h, Now(), out) && mega.Valid() && h in guest
      ensures Advanced(h, Now())
    {
      hide AllLinked, AllTrapped, VacantAgree, OthersFit, Apart, Ordered, TrapManager.Valid, TrapManager.Tidy;
      GrownOnlyFlat(Now(), flat);
      OnlyBytes(h, Now(), out);
    }

    lemma Stepped(h: Handle, w: Shared, out: set<Handle>)
      requires Rest(h, w, out) && Advanced(h, w) && Fits(h, buffers[h], guest[h], Now())
      ensures ValidBut(out)
    {
      hide Fits, AllLinked, AllTrapped, OwnersLive, TrapManager.Valid, TrapManager.Tidy, Ordered, Grown, SameViews;
      forall k | k in buffers && k != h ensures k in guest && Fits(k, buffers[k], guest[k], Now()) {
        assert !guest[k].Overlaps(guest[h]);
        FitsKept(k, buffers[k], guest[k], w, Now());
      }
      forall a | Vacant(guest, a) ensures memory(a) == flat(a) {
        assert !guest[h].Contains(a);
      }
    }

    /** The end of every operation on one buffer. */
    method Finish(b: Buffer, h: Handle, ghost w: Shared)
      requires Rest(h, w, {h}) && Advanced(h, w) && buffers[h] == b && b.Valid() && Shows(b.Contents(), guest[h], flat)
      requires b.Exact()
      requires Cached(b.views, b.published, mega.backing, mega.free) && OwnViews(h, b.views, guest[h].start, Now())
      modifies this`memory, traps`host, traps.trapMap
      ensures Valid() && h in guest && WrittenThrough(old(memory), memory, guest[h], b.mirror)
      ensures h in old(traps.trapMap.groups)
      ensures forall p ::
        traps.host(p) == Level(old(traps.host(p)), guest[h], p, old(traps.trapMap.groups)[h].value, b.trap)
    {
      hide ValidBut, AllLinked, AllTrapped, VacantAgree, OwnersLive, OthersFit, Cached, OwnViews, Grown, SameViews;
      hide Level;
      hide TrapManager.Valid, TrapManager.Tidy, MegaBuffer.Valid, Buffer.Valid, Ordered, WrittenThrough, Apart, Shows;
      FitsAgain(h, b, guest[h], Now());
      Stepped(h, w, {h});
      Settle(h, {h});
      assert {h} - {h} == {};
    }

    /** Guest memory has changed only under this buffer, and not if it is GPU dirty now. */
    twostate predicate Only(b: Buffer, h: Handle)
      reads this, b
    {
      h in guest && forall a :: memory(a) == old(memory)(a) || (guest[h].Contains(a) && b.dirty != GpuDirty)
    }

    /** The use of the buffer has taken place, and the event tells so. */
    /** The pages of this buffer have the level that it demands, if the demand has changed; no other page has. */
    twostate predicate Relevelled(b: Buffer, h: Handle)
      reads this, traps, b
    {
      h in guest &&
      forall p :: traps.host(p) == Level(old(traps.host(p)), guest[h], p, Demand(old(b.dirty)), Demand(b.dirty))
    }

    twostate predicate Performed(b: Buffer, h: Handle, what: Use, new e: Event)
      reads this, traps, b
    {
      && Only(b, h) && Relevelled(b, h) && h in guest && Reports(guest[h].start, what, e)
      && b.dirty == DirtyAfter(old(b.dirty), what)
      && b.everHadInlineUpdate == (old(b.everHadInlineUpdate) || what.InlineWrites?)
      && flat == After(old(flat), e) && (e.Saw? ==> Reads(e.data, e.start, old(flat)))
    }

    method SynchronizeHost(b: Buffer, h: Handle, rwTrap: bool)
      requires Valid() && h in buffers && buffers[h] == b
      modifies this`memory, traps`host, traps.trapMap, b
      ensures Valid() && b.Synchronized() && Performed(b, h, HostSync(rwTrap), Silent)
    {
      hide Valid, Rest, Advanced, Shows, Cached, OwnViews, Buffer.Valid, Updated, Reads;
      Begin(h);
      b.SynchronizeHost(rwTrap);
      Finish(b, h, Now());
    }

    method SynchronizeGuest(b: Buffer, h: Handle, nonBlocking: bool, signalled: bool)
      requires Valid() && h in buffers && buffers[h] == b
      modifies this`memory, traps`host, traps.trapMap, b
      ensures Valid() && b.Synchronized() && Performed(b, h, GuestSync(nonBlocking, signalled), Silent)
    {
      hide Valid, Rest, Advanced, Shows, Cached, OwnViews, Buffer.Valid, Updated, Reads;
      Begin(h);
      b.SynchronizeGuest(false, nonBlocking, signalled);
      Finish(b, h, Now());
    }

    method MarkGpuDirty(b: Buffer, h: Handle)
      requires Valid() && h in buffers && buffers[h] == b && b.dirty != CpuDirty
      modifies this`memory, traps`host, traps.trapMap, b
      ensures Valid() && b.Synchronized() && Performed(b, h, Announce, Silent)
    {
      hide Valid, Rest, Advanced, Shows, Cached, OwnViews, Buffer.Valid, Updated, Reads;
      Begin(h);
      b.MarkGpuDirty();
      Finish(b, h, Now());
    }

    /** The GPU writes to a buffer that was announced to it. */
    method GpuWrite(b: Buffer, h: Handle, contents: seq<Byte>) returns (event: Event)
      requires Valid() && h in buffers && buffers[h] == b && b.dirty == GpuDirty && |contents| == |b.backing|
      modifies this`memory, this`flat, traps`host, traps.trapMap, b
      ensures Valid() && Performed(b, h, GpuWrites(contents), event)
    {
      hide Valid, Rest, Advanced, Shows, Cached, OwnViews, Buffer.Valid, Updated, Reads;
      Begin(h);
      ghost var w := Now();
      b.GpuWrite(contents);
      ShowsWhole(contents, guest[h], flat);
      event := Wrote(guest[h].start, contents);
      flat := Updated(flat, guest[h].start, contents);
      GrownOnlyFlat(w, flat);
      OnlyBytes(h, w, {h});
      OwnViewsKept(h, b.views, guest[h].start, w, Now());
      Finish(b, h, w);
    }

    /** An inline update. */
    method Write(b: Buffer, h: Handle, data: seq<Byte>, offset: nat) returns (event: Event)
      requires Valid() && h in buffers && buffers[h] == b && offset + |data| <= |b.mirror|
      modifies this`memory, this`flat, traps`host, traps.trapMap, b
      ensures Valid() && Performed(b, h, InlineWrites(data, offset), event)
    {
      hide Valid, Rest, Advanced, Shows, Cached, OwnViews, Buffer.Valid, Updated, Reads;
      Begin(h);
      ghost var w, contents := Now(), b.Contents();
      b.Write(data, offset);
      ShowsWrite(contents, guest[h], flat, offset, data);
      event := Wrote(guest[h].start + offset, data);
      flat := Updated(flat, guest[h].start + offset, data);
      GrownOnlyFlat(w, flat);
      OnlyBytes(h, w, {h});
      OwnViewsKept(h, b.views, guest[h].start, w, Now());
      Finish(b, h, w);
    }

    method Read(b: Buffer, h: Handle, offset: nat, size: nat) returns (event: Event)
      requires Valid() && h in buffers && buffers[h] == b && offset + size <= |b.mirror|
      modifies this`memory, traps`host, traps.trapMap, b
      ensures Valid() && Performed(b, h, BufferReads(offset, size), event)
    {
      hide Valid, Rest, Advanced, Shows, Cached, OwnViews, Buffer.Valid, Updated, Reads;
      Begin(h);
      var data := b.Read(offset, size);
      event := Saw(guest[h].start + offset, data);
      ShowsSlice(b.Contents(), guest[h], flat, offset, size);
      Finish(b, h, Now());
    }

    // ---- the megabuffer

    /** The data of an inline update that the GPU performs goes through the megabuffer too. */
    method Push(data: seq<Byte>) returns (r: PushResult)
      requires Valid()
      modifies mega
      ensures Valid() && |mega.backing| == |old(mega.backing)|
      ensures r == OutOfSpace <==> |data| > |mega.backing| - old(mega.free)
      ensures r == OutOfSpace ==> mega.free == old(mega.free)
      ensures r != OutOfSpace ==> r == Pushed(old(mega.free)) && mega.free == r.offset + |data| <= |mega.backing|
      ensures r != OutOfSpace ==> mega.backing[r.offset..mega.free] == data
    {
      hide Fits, Linked, AllLinked, AllTrapped, VacantAgree, Apart, TrapManager.Valid, TrapManager.Tidy, Ordered;
      hide OwnersLive;
      ghost var w := Now();
      r := mega.Push(data, false);
      forall h | h in buffers ensures h in guest && Fits(h, buffers[h], guest[h], Now()) {
        FitsKept(h, buffers[h], guest[h], w, Now());
      }
      SameOwners(w, Now(), buffers);
    }

    /** The megabuffer copy of a view for the work being recorded, to which the view is then attached.  Wherever the
        copy is, it shows what flat memory holds at the addresses of the view. */
    method Acquire(b: Buffer, h: Handle, v: nat, signalled: bool) returns (r: PushResult)
      requires Valid() && h in buffers && buffers[h] == b && v in owner && owner[v] == h
      modifies this`memory, this`attached, traps`host, traps.trapMap, mega, b
      ensures !r.Overrun? ==> Valid() && Only(b, h) && Relevelled(b, h)
      ensures v in places && places[v].start <= places[v].end && (r == Pushed(0) <==> old(Unfit(b, v, signalled)))
      ensures r.Pushed? && r.offset != 0 ==> CopyIsGood(v, r.offset)
      ensures RoomTaken(r, places[v].end - places[v].start,
                        old(mega.free), |old(mega.backing)|, mega.free, |mega.backing|)
      ensures b.everHadInlineUpdate == old(b.everHadInlineUpdate)
      ensures b.dirty == if r == Pushed(0) && old(b.dirty) != CpuDirty then old(b.dirty) else Clean
    {
      hide ValidBut, Reads, RoomTaken;
      r := AcquireCopy(b, h, v, signalled);
      if r.Pushed? {
        SynchronizeHost(b, h, false);
      }
    }

    /** The view gets no copy. */
    ghost predicate Unfit(b: Buffer, v: nat, signalled: bool)
      reads this, b
    {
      || !b.everHadInlineUpdate || (b.dirty == GpuDirty && !signalled)
      || (v in places && places[v].end - places[v].start > MegaBufferingDisableThreshold)
    }

    /** The megabuffer holds at this offset what flat memory holds at the addresses of the view. */
    ghost predicate CopyIsGood(v: nat, offset: nat)
      requires v in places
      reads this, mega
    {
      var place := places[v];
      && place.start <= place.end && offset + (place.end - place.start) <= |mega.backing|
      && Reads(mega.backing[offset..offset + (place.end - place.start)], place.start, flat)
    }

    /** The part of an acquisition that concerns the buffer and the megabuffer only. */
    method CopyFor(b: Buffer, h: Handle, v: nat, signalled: bool) returns (r: PushResult)
      requires b.Valid() && mega.Valid() && h in guest && Shows(b.Contents(), guest[h], flat)
      requires Cached(b.views, b.published, mega.backing, mega.free) && OwnViews(h, b.views, guest[h].start, Now())
      requires v in owner && owner[v] == h
      modifies this`attached, mega, b
      ensures b.Valid() && b.Contents() == old(b.Contents()) && v in places && places[v].start <= places[v].end
      ensures !r.Overrun? ==> mega.Valid() && Cached(b.views, b.published, mega.backing, mega.free)
      ensures !r.Overrun? ==> Grown(old(Now()), Now()) && OwnViews(h, b.views, guest[h].start, Now())
      ensures r == Pushed(0) <==> old(Unfit(b, v, signalled))
      ensures r.Pushed? && r.offset != 0 ==> CopyIsGood(v, r.offset)
      ensures RoomTaken(r, places[v].end - places[v].start,
                        old(mega.free), |old(mega.backing)|, mega.free, |mega.backing|)
      ensures b.everHadInlineUpdate == old(b.everHadInlineUpdate) && (old(b.Exact()) ==> b.Exact())
      ensures b.dirty == (if r == Pushed(0) then old(b.dirty) else Clean)
      ensures r == Pushed(0) ==> b.mirror == old(b.mirror)
    {
      hide Shows, Cached, OwnViews, Buffer.Valid, Reads, IsCopy, Buffer.Contents, RoomTaken;
      OwnsView(h, b.views, guest[h].start, Now(), v);
      ghost var w, views := Now(), b.views;
      r := b.AcquireMegaBuffer(v, mega, signalled);
      if r.Overrun? {
        return;
      }
      if r.Pushed? {
        attached := attached + {v};
      }
      OwnsCopied(h, views, b.views, guest[h].start, w, Now(), v);
      if r.Pushed? && r.offset != 0 {
        ShowsView(b.Contents(), guest[h], flat, b.views[v], mega.backing, r.offset);
      }
    }

    method AcquireCopy(b: Buffer, h: Handle, v: nat, signalled: bool) returns (r: PushResult)
      requires Valid() && h in buffers && buffers[h] == b && v in owner && owner[v] == h
      modifies this`memory, this`attached, traps`host, traps.trapMap, mega, b
      ensures !r.Overrun? ==> Valid() && Only(b, h) && Relevelled(b, h)
      ensures v in places && places[v].start <= places[v].end && (r == Pushed(0) <==> old(Unfit(b, v, signalled)))
      ensures r.Pushed? && r.offset != 0 ==> CopyIsGood(v, r.offset)
      ensures RoomTaken(r, places[v].end - places[v].start,
                        old(mega.free), |old(mega.backing)|, mega.free, |mega.backing|)
      ensures b.everHadInlineUpdate == old(b.everHadInlineUpdate)
      ensures b.dirty == if r == Pushed(0) then old(b.dirty) else Clean
    {
      hide Valid, Rest, Advanced, Shows, Cached, OwnViews, Buffer.Valid, Updated, Unfit, Reads, RoomTaken;
      hide MegaBuffer.Valid, Grown;
      Begin(h);
      ghost var w := Now();
      r := CopyFor(b, h, v, signalled);
      if !r.Overrun? {
        OnlyBytes(h, w, {h});
        Finish(b, h, w);
      }
    }

    // ---- accesses of the guest

    /** The listed buffers have become CPU dirty, the others are as they were, and guest memory has not changed under
        those that are GPU dirty. */
    twostate predicate Dirtied(ran: seq<Handle>)
      reads this, set h | h in buffers :: buffers[h]
    {
      && (forall h :: h in buffers ==> h in old(buffers) && buffers[h] == old(buffers)[h])
      && (forall h :: h in buffers ==> buffers[h].everHadInlineUpdate == old(buffers[h].everHadInlineUpdate))
      && (forall h :: h in buffers ==> buffers[h].dirty == if h in ran then CpuDirty else old(buffers[h].dirty))
      && (forall h, a :: h in buffers && h in guest && buffers[h].dirty == GpuDirty && guest[h].Contains(a) ==>
            memory(a) == old(memory)(a))
    }

    /** What an access of the guest to an address leaves: if its page refused the access, the buffer there is CPU dirty
        and all its pages are open; nothing else of any buffer or page has changed, and no guest memory under a buffer
        that is GPU dirty. */
    twostate predicate Faulted(address: int, write: bool)
      reads this, traps, set h | h in buffers :: buffers[h]
    {
      var refused := Refuses(old(traps.host(address / PageSize)), write);
      && (forall h :: h in buffers ==> h in old(buffers) && buffers[h] == old(buffers)[h])
      && (forall h :: h in buffers ==> buffers[h].everHadInlineUpdate == old(buffers[h].everHadInlineUpdate))
      && (forall h :: h in buffers && h in guest ==>
            buffers[h].dirty == if refused && guest[h].Contains(address) then CpuDirty else old(buffers[h].dirty))
      && (forall h, a :: h in buffers && h in guest && buffers[h].dirty == GpuDirty && guest[h].Contains(a) ==>
            memory(a) == old(memory)(a))
      && (forall p ::
            traps.host(p) == if refused && Beside(guest, address, p) then Protection.None else old(traps.host(p)))
    }

    /** The callback of one buffer, whose group demands nothing any more. */
    method FaultOne(b: Buffer, h: Handle, ghost out: set<Handle>)
      requires h in buffers && buffers[h] == b && h in out && ValidBut(out)
      requires h in traps.trapMap.groups && traps.trapMap.groups[h].value == Protection.None
      modifies this`memory, b
      ensures ValidBut(out - {h}) && h in guest && forall a :: !guest[h].Contains(a) ==> memory(a) == old(memory)(a)
      ensures b.dirty == CpuDirty && b.everHadInlineUpdate == old(b.everHadInlineUpdate)
    {
      hide Fits, AllFit, OthersFit, Linked, AllLinked, AllTrapped, VacantAgree, OwnersLive, Apart, Ordered;
      hide TrapManager.Valid, TrapManager.Tidy, Shows, Cached, OwnViews, Buffer.Valid;
      Single(buffers, guest, Now(), h);
      ghost var w := Now();
      b.Fault();
      FitsAgain(h, b, guest[h], Now());
      GrownOnlyFlat(w, flat);
      OnlyBytes(h, w, out);
      Stepped(h, w, out);
      MemoryFollows(buffers, guest, flat, memory, traps.trapMap.groups, h, out);
      WritesThrough(memory, guest[h], b.mirror);
      memory := Updated(memory, guest[h].start, b.mirror);
    }

    /** The callbacks of a fault. */
    method RunFaults(ran: seq<Handle>, ghost pending: set<Handle>)
      requires ValidBut(pending) && forall h :: h in pending <==> h in ran
      requires forall i, j :: 0 <= i < j < |ran| ==> ran[i] != ran[j]
      requires forall h :: h in ran ==>
        h in buffers && h in traps.trapMap.groups && traps.trapMap.groups[h].value == Protection.None
      modifies this`memory, set h | h in buffers :: buffers[h]
      ensures Valid() && Dirtied(ran)
    {
      hide ValidBut;
      ghost var out := pending;
      for i := 0 to |ran|
        invariant ValidBut(out) && (forall h :: h in out <==> h in ran[i..]) && Dirtied(ran[..i])
      {
        assert ran[i..] == [ran[i]] + ran[i + 1..] && ran[..i + 1] == ran[..i] + [ran[i]];
        assert ran[i] in ran && ran[i] in out && ran[i] !in ran[i + 1..];
        Alone(ran[i], out);
        FaultOne(buffers[ran[i]], ran[i], out);
        out := out - {ran[i]};
      }
      assert out == {} && ran[..|ran|] == ran;
    }

    /** No other buffer is the same object or lies at the same addresses. */
    lemma Alone(h: Handle, out: set<Handle>)
      requires ValidBut(out) && h in buffers
      ensures h in guest && forall k :: k in buffers && k != h ==> k in guest && buffers[k] != buffers[h]
      ensures forall k, a :: k in guest && k != h && guest[k].Contains(a) ==> !guest[h].Contains(a)
      ensures forall k :: k in buffers <==> k in guest
    {
      hide AllFit, AllLinked, AllTrapped, TrapManager.Valid, TrapManager.Tidy, OwnersLive, VacantAgree, Ordered;
      forall k, a | k in guest && k != h && guest[k].Contains(a) ensures !guest[h].Contains(a) {
        assert !guest[k].Overlaps(guest[h]);
      }
    }

    /** The guest touches an address: if its page refuses the access, the fault handler runs, and the retried access
        goes through. */
    method Resolve(a: int, write: bool)
      requires Valid()
      modifies this`memory, traps`host, traps.trapMap, set h | h in buffers :: buffers[h]
      ensures Valid() && Faulted(a, write) && !Refuses(traps.host(a / PageSize), write)
      ensures !Refuses(old(traps.host(a / PageSize)), write) ==> memory == old(memory)
    {
      hide ValidBut, Beside;
      var level := traps.host(a / PageSize);
      if level != Protection.None && (level != WriteOnly || write) {
        HandleFault(a, write);
      }
    }

    /** A fault: the handler runs, and then the callbacks that it calls for. */
    method HandleFault(a: int, ghost write: bool)
      requires Valid() && Refuses(traps.host(a / PageSize), write)
      modifies this`memory, traps`host, traps.trapMap, set h | h in buffers :: buffers[h]
      ensures Valid() && Faulted(a, write) && traps.host(a / PageSize) == Protection.None
    {
      hide ValidBut, Beside;
      var ran;
      ghost var pending;
      ran, pending := TakeFault(a);
      RunFaults(ran, pending);
    }

    /** The handler drops the demands of the groups whose callbacks are to run.  It finds some group, since no page is
        protected that none is on, and only that of the buffer at the address, since buffers lie apart. */
    method TakeFault(a: int) returns (ran: seq<Handle>, ghost pending: set<Handle>)
      requires Valid() && traps.host(a / PageSize) != Protection.None
      modifies traps`host, traps.trapMap
      ensures ValidBut(pending) && (forall h :: h in pending <==> h in ran)
      ensures forall i, j :: 0 <= i < j < |ran| ==> ran[i] != ran[j]
      ensures forall h :: h in ran ==> h in buffers && h in guest && guest[h].Contains(a)
      ensures forall h :: h in buffers && h in guest && guest[h].Contains(a) ==>
        h in ran || buffers[h].dirty == CpuDirty
      ensures forall h :: h in ran ==> h in traps.trapMap.groups && traps.trapMap.groups[h].value == Protection.None
      ensures traps.host(a / PageSize) == Protection.None
      ensures forall p :: traps.host(p) == if Beside(guest, a, p) then Protection.None else old(traps.host(p))
    {
      hide AllFit, Apart, OwnersLive, VacantAgree, Linked, AllLinked, AllTrapped, Ordered, Beside, Buffer.Exact;
      hide TrapManager.Valid, MegaBuffer.Valid, IntervalMap.Touches, IntervalMap.Reached, IntervalMap.FoundOn;
      hide TrapManager.HasToItself, IntervalMap.Alone;
      ghost var groups := traps.trapMap.groups;
      AroundFault(a);
      var handled;
      assert traps.Occupied(a / PageSize);
      handled, ran := traps.TrapHandler(a);
      pending := set h | h in ran;
      DemandsDropped(buffers, guest, memory, groups, traps.trapMap.groups, ran, pending);
    }

    /** What a fault at an address can concern: the buffer there, which has all its pages to itself. */
    lemma AroundFault(a: int)
      requires Apart(buffers, guest) && AllTrapped(guest, traps.trapMap.groups) && Ordered(order, guest)
      requires AllLinked(buffers, guest, memory, traps.trapMap.groups, {})
      ensures forall h :: traps.trapMap.Reached(h, Page(a / PageSize)) ==>
        h in buffers && h in guest && guest[h].Contains(a)
      ensures forall h, p :: traps.trapMap.Reached(h, Page(a / PageSize)) && traps.trapMap.Touches(h, Page(p)) ==>
        Beside(guest, a, p)
      ensures forall p :: Beside(guest, a, p) ==> exists h ::
        traps.trapMap.Touches(h, Page(a / PageSize)) && traps.HasToItself(h, p)
      ensures forall h :: h in buffers && h in guest && guest[h].Contains(a) ==>
        && traps.trapMap.Touches(h, Page(a / PageSize)) && h in traps.trapMap.groups
        && (traps.trapMap.groups[h].value == Protection.None ==> buffers[h].dirty == CpuDirty)
    {
      hide Ordered, Apart, AllTrapped, AllLinked, IntervalMap.Touches, IntervalMap.Reached, TrapManager.HasToItself;
      forall h | traps.trapMap.Reached(h, Page(a / PageSize))
        ensures h in buffers && h in guest && guest[h].Contains(a)
      {
        ReachedHere(h, a);
      }
      forall h, p | traps.trapMap.Reached(h, Page(a / PageSize)) && traps.trapMap.Touches(h, Page(p))
        ensures Beside(guest, a, p)
      {
        TouchesIs(h, Page(p));
      }
      forall h | h in guest && guest[h].Contains(a)
        ensures traps.trapMap.Touches(h, Page(a / PageSize))
        ensures forall p :: guest[h].Overlaps(Page(p)) ==> traps.HasToItself(h, p)
      {
        HasPages(h, a);
      }
      forall h | h in buffers && h in guest && guest[h].Contains(a)
        ensures h in traps.trapMap.groups
        ensures traps.trapMap.groups[h].value == Protection.None ==> buffers[h].dirty == CpuDirty
      {
        SingleLinked(buffers, guest, memory, traps.trapMap.groups, h);
      }
    }

    lemma HasPages(h: Handle, a: int)
      requires Apart(buffers, guest) && AllTrapped(guest, traps.trapMap.groups) && Ordered(order, guest)
      requires h in guest && guest[h].Contains(a)
      ensures traps.trapMap.Touches(h, Page(a / PageSize))
      ensures forall p :: guest[h].Overlaps(Page(p)) ==> traps.HasToItself(h, p)
    {
      hide Ordered, Apart, IntervalMap.Touches;
      OnItsPage(h, a);
      Sole(h);
      TouchesIs(h, guest[h]);
      assert guest[h] in traps.trapMap.groups[h].intervals;
      assert traps.trapMap.Owns(h, guest[h]);
    }

    /** Only the buffer at an address shares pages with what lies on the page of the address. */
    lemma ReachedHere(h: Handle, a: int)
      requires Apart(buffers, guest) && AllTrapped(guest, traps.trapMap.groups) && Ordered(order, guest)
      requires traps.trapMap.Reached(h, Page(a / PageSize))
      ensures h in buffers && h in guest && guest[h].Contains(a)
    {
      hide Ordered, Apart, IntervalMap.Touches;
      var page := Page(a / PageSize);
      TouchesIs(h, page);
      if !traps.trapMap.Touches(h, page) {
        var g :| traps.trapMap.Touches(g, page) && traps.trapMap.Linked(g, h);
        TouchesIs(g, page);
        LinkedIsSame(g, h);
      }
      AlignedHoldsPage(guest[h], a / PageSize);
    }

    lemma TouchesIs(h: Handle, iv: Interval)
      requires AllTrapped(guest, traps.trapMap.groups) && Ordered(order, guest) && Apart(buffers, guest)
      ensures traps.trapMap.Touches(h, iv) <==> h in guest && guest[h].Overlaps(iv)
      ensures h in guest ==> h in buffers && guest[h].Aligned() && guest[h].Align() == guest[h]
    {
      hide Ordered;
      if h in guest {
        assert guest[h] in traps.trapMap.groups[h].intervals;
        OrderedAligned(h);
      }
    }

    lemma OrderedAligned(h: Handle)
      requires Ordered(order, guest) && h in guest
      ensures guest[h].Aligned() && guest[h].Align() == guest[h]
    {
      var i :| 0 <= i < |order| && order[i] == h;
      AlignedStays(guest[h]);
    }

    /** Groups of buffers share pages only with themselves. */
    lemma LinkedIsSame(g: Handle, h: Handle)
      requires AllTrapped(guest, traps.trapMap.groups) && Ordered(order, guest) && Apart(buffers, guest)
      requires traps.trapMap.Linked(g, h)
      ensures g == h
    {
      hide Ordered, IntervalMap.Touches;
      var iv :| traps.trapMap.Owns(g, iv) && traps.trapMap.Touches(h, iv);
      TouchesIs(g, iv);
      TouchesIs(h, iv);
    }

    /** A buffer at an address is on its page. */
    lemma OnItsPage(h: Handle, a: int)
      requires h in guest && guest[h].Contains(a) && AllTrapped(guest, traps.trapMap.groups)
      ensures traps.trapMap.Touches(h, Page(a / PageSize))
    {
      assert guest[h] in traps.trapMap.groups[h].intervals;
    }

    /** A buffer at an address whose page is open to the guest demands no more than that. */
    lemma OpenPage(h: Handle, a: int)
      requires Valid() && h in buffers && h in guest && guest[h].Contains(a)
      ensures buffers[h].Valid() && Shows(buffers[h].mirror, guest[h], memory)
      ensures Shows(buffers[h].Contents(), guest[h], flat)
      ensures traps.host(a / PageSize) == Protection.None ==>
        buffers[h].trap == Protection.None && buffers[h].dirty == CpuDirty
      ensures traps.host(a / PageSize) != ReadWrite ==> buffers[h].dirty != GpuDirty
    {
      hide AllFit, AllLinked, AllTrapped, Fits, OthersFit, TrapManager.Valid, TrapManager.Tidy, VacantAgree, Apart;
      hide OwnersLive, Ordered;
      hide Shows, Cached, OwnViews;
      Single(buffers, guest, Now(), h);
      SingleLinked(buffers, guest, memory, traps.trapMap.groups, h);
      OnItsPage(h, a);
      traps.DemandEnforced(h, a / PageSize);
    }

    /** Where no GPU dirty buffer lies, memory is flat memory. */
    lemma MemoryIsFlat(a: int)
      requires Valid()
      requires forall h :: h in buffers && h in guest && guest[h].Contains(a) ==> buffers[h].dirty != GpuDirty
      ensures memory(a) == flat(a)
    {
      hide AllFit, AllLinked, AllTrapped, Fits, OthersFit, TrapManager.Valid, TrapManager.Tidy, OwnersLive, Ordered;
      hide Buffer.Valid;
      if !Vacant(guest, a) {
        var h :| h in guest && guest[h].Contains(a);
        Single(buffers, guest, Now(), h);
        SingleLinked(buffers, guest, memory, traps.trapMap.groups, h);
      }
    }

    /** A guest read.  It goes through and yields what flat memory holds. */
    method GuestRead(a: int) returns (x: Byte)
      requires Valid()
      modifies this`memory, traps`host, traps.trapMap, set h | h in buffers :: buffers[h]
      ensures Valid() && Faulted(a, false) && x == flat(a)
      ensures !Refuses(old(traps.host(a / PageSize)), false) ==> memory == old(memory)
    {
      hide ValidBut, Faulted;
      Resolve(a, false);
      x := memory(a);
      forall h | h in buffers && h in guest && guest[h].Contains(a) ensures buffers[h].dirty != GpuDirty {
        OpenPage(h, a);
      }
      MemoryIsFlat(a);
    }

    /** A guest write.  It goes through, reaches flat memory and leaves a buffer that it goes to CPU dirty. */
    method GuestWrite(a: int, x: Byte)
      requires Valid()
      modifies this`memory, this`flat, traps`host, traps.trapMap, set h | h in buffers :: buffers[h]
      ensures Valid() && Faulted(a, true) && flat == Updated(old(flat), a, [x])
      ensures forall h :: h in buffers && h in guest && guest[h].Contains(a) ==> buffers[h].dirty == CpuDirty
    {
      hide ValidBut, Beside;
      Resolve(a, true);
      Store(a, x);
    }

    /** The store itself, where the page allows it. */
    method Store(a: int, x: Byte)
      requires Valid() && traps.host(a / PageSize) == Protection.None
      modifies this`memory, this`flat, traps`host, traps.trapMap, set h | h in buffers :: buffers[h]
      ensures Valid() && flat == Updated(old(flat), a, [x]) && SameStates()
      ensures forall h :: h in buffers && h in guest && guest[h].Contains(a) ==> buffers[h].dirty == CpuDirty
      ensures forall h, k :: h in buffers && h in guest && buffers[h].dirty == GpuDirty && guest[h].Contains(k) ==>
        memory(k) == old(memory)(k)
    {
      hide ValidBut;
      if h :| h in guest && guest[h].Contains(a) {
        Live(h);
        Alone(h, {});
        StoreInBuffer(buffers[h], h, a, x);
      } else {
        StoreOutside(a, x);
      }
    }

    lemma Live(h: Handle)
      requires Valid()
      ensures h in buffers <==> h in guest
    {
      hide AllFit, AllLinked, AllTrapped, TrapManager.Valid, TrapManager.Tidy, OwnersLive, VacantAgree, Ordered;
    }

    /** The store itself, through the page that a buffer shares with the guest. */
    method StoreInBuffer(b: Buffer, h: Handle, a: int, x: Byte)
      requires Valid() && h in buffers && buffers[h] == b && h in guest && guest[h].Contains(a)
      requires traps.host(a / PageSize) == Protection.None
      modifies this`memory, this`flat, traps`host, traps.trapMap, b
      ensures Valid() && flat == Updated(old(flat), a, [x])
      ensures b.dirty == old(b.dirty) == CpuDirty && b.everHadInlineUpdate == old(b.everHadInlineUpdate)
      ensures forall p :: traps.host(p) == old(traps.host(p))
      ensures forall a :: !guest[h].Contains(a) ==> memory(a) == old(memory)(a)
    {
      hide Valid, Rest, Advanced, Shows, Cached, OwnViews, Buffer.Valid, Updated;
      Begin(h);
      OpenPage(h, a);
      ghost var w := Now();
      ShowsWrite(b.Contents(), guest[h], flat, a - guest[h].start, [x]);
      b.GuestWrite(a - guest[h].start, [x]);
      flat := Updated(flat, a, [x]);
      assert guest[h].start + (a - guest[h].start) == a;
      GrownOnlyFlat(w, flat);
      OnlyBytes(h, w, {h});
      OwnViewsKept(h, b.views, guest[h].start, w, Now());
      Finish(b, h, w);
    }

    method StoreOutside(a: int, x: Byte)
      requires Valid() && Vacant(guest, a)
      modifies this`memory, this`flat
      ensures Valid() && flat == Updated(old(flat), a, [x])
      ensures forall k :: k != a ==> memory(k) == old(memory)(k)
    {
      hide AllFit, AllLinked, Apart, AllTrapped, OwnersLive, VacantAgree, TrapManager.Valid, TrapManager.Tidy, Ordered;
      VacantWrite(buffers, guest, memory, traps.trapMap.groups, Now(), a, x);
      SameOwners(Now(), Now().(flat := Updated(flat, a, [x])), buffers);
      memory := Updated(memory, a, [x]);
      flat := Updated(flat, a, [x]);
    }

    // ---- submission

    /** The copies that one buffer has in the megabuffer are given up. */
    method ForgetCopies(b: Buffer, h: Handle)
      requires Valid() && h in buffers && buffers[h] == b
      modifies this`memory, traps`host, traps.trapMap, b
      ensures Valid() && NoCopies(b.views) && forall a :: memory(a) == old(memory)(a)
      ensures forall p :: traps.host(p) == old(traps.host(p))
      ensures b.dirty == old(b.dirty) && b.everHadInlineUpdate == old(b.everHadInlineUpdate)
    {
      hide Valid, Rest, Advanced, Shows, Cached, OwnViews, Buffer.Valid, Updated, Forgotten, NoCopies;
      Begin(h);
      ForgottenFits(h, b.views, guest[h].start, b.published, Now());
      b.ForgetCopies(attached);
      Finish(b, h, Now());
    }

    /** Buffers stand as they stood, and pages are protected as they were. */
    twostate predicate SameStates()
      reads this, traps, set h | h in buffers :: buffers[h]
    {
      && (forall h :: h in buffers ==> h in old(buffers) && buffers[h] == old(buffers)[h])
      && (forall h :: h in buffers ==> buffers[h].dirty == old(buffers[h].dirty))
      && (forall h :: h in buffers ==> buffers[h].everHadInlineUpdate == old(buffers[h].everHadInlineUpdate))
      && (forall p :: traps.host(p) == old(traps.host(p)))
    }

    /** The executor submits its work and starts over: attached views lose their copies, and the megabuffer is used from
        its start again.  Every view that has a copy is attached, so no copy is left behind. */
    method Execute()
      requires Valid()
      modifies this`memory, this`attached, traps`host, traps.trapMap, mega`free, set h | h in buffers :: buffers[h]
      ensures Valid() && attached == {} && mega.free == PageSize && forall a :: memory(a) == old(memory)(a)
      ensures (forall h :: h in buffers ==> NoCopies(buffers[h].views)) && SameStates()
    {
      hide ValidBut, NoCopies, Forgotten;
      var left := buffers.Keys;
      while left != {}
        invariant left <= buffers.Keys && Valid() && forall a :: memory(a) == old(memory)(a)
        invariant forall p :: traps.host(p) == old(traps.host(p))
        invariant forall h :: h in buffers ==> buffers[h].dirty == old(buffers[h].dirty)
        invariant forall h :: h in buffers ==> buffers[h].everHadInlineUpdate == old(buffers[h].everHadInlineUpdate)
        invariant forall h :: h in buffers && h !in left ==> NoCopies(buffers[h].views)
      {
        var h :| h in left;
        Alone(h, {});
        ForgetCopies(buffers[h], h);
        left := left - {h};
      }
      StartOver();
    }

    method StartOver()
      requires Valid() && forall h :: h in buffers ==> NoCopies(buffers[h].views)
      modifies this`attached, mega`free
      ensures Valid() && attached == {} && mega.free == PageSize
    {
      hide Fits, AllLinked, AllTrapped, VacantAgree, OwnersLive, Apart, TrapManager.Valid, TrapManager.Tidy, NoCopies;
      hide Ordered;
      ghost var w := Now();
      attached := {};
      mega.Reset();
      forall h | h in buffers ensures Fits(h, buffers[h], guest[h], Now()) {
        NoCopiesFit(h, buffers[h], guest[h], w, mega.free);
      }
      SameOwners(w, Now(), buffers);
    }

    // ---- lookups

    /** A cached or new view of a buffer. */
    method GetView(b: Buffer, h: Handle, offset: nat, size: nat) returns (v: nat)
      requires Valid() && h in buffers && buffers[h] == b && offset + size <= |b.mirror|
      modifies this`memory, this`owner, this`nextView, this`places, traps`host, traps.trapMap, b
      ensures Valid() && h in guest && v in owner && owner[v] == h && (forall a :: memory(a) == old(memory)(a))
      ensures v in places && places[v] == Interval(guest[h].start + offset, guest[h].start + offset + size)
      ensures (places == old(places) && owner == old(owner)) ||
        (v !in old(places) && places == old(places)[v := places[v]] && owner == old(owner)[v := h])
      ensures b.dirty == old(b.dirty) && b.everHadInlineUpdate == old(b.everHadInlineUpdate)
      ensures forall p :: traps.host(p) == old(traps.host(p))
    {
      hide ValidBut, Shows, Cached, OwnViews, Buffer.Valid;
      if u :| u in b.views && b.views[u].offset == offset && b.views[u].size == size {
        v := u;
        KnownView(h, v);
      } else {
        v := nextView;
        AddView(b, h, v, offset, size);
      }
    }

    lemma KnownView(h: Handle, v: nat)
      requires Valid() && h in buffers && v in buffers[h].views
      ensures h in guest && v in owner && owner[v] == h && v in places
      ensures places[v] == PlaceOf(buffers[h].views[v], guest[h].start)
    {
      hide Valid, Rest, Advanced, Shows, Cached, Buffer.Valid;
      Begin(h);
    }

    /** A new view of a buffer. */
    method AddView(b: Buffer, h: Handle, v: nat, offset: nat, size: nat)
      requires Valid() && h in buffers && buffers[h] == b && v == nextView && offset + size <= |b.mirror|
      modifies this`memory, this`owner, this`nextView, this`places, traps`host, traps.trapMap, b
      ensures Valid() && h in guest && v !in old(owner) && v !in old(places) && owner == old(owner)[v := h]
      ensures places == old(places)[v := PlaceOf(View(offset, size, 0, 0), guest[h].start)]
      ensures (forall a :: memory(a) == old(memory)(a))
      ensures b.dirty == old(b.dirty) && b.everHadInlineUpdate == old(b.everHadInlineUpdate)
      ensures forall p :: traps.host(p) == old(traps.host(p))
    {
      hide Valid, Rest, Advanced, Shows, Cached, OwnViews, Buffer.Valid, MegaBuffer.Valid, Grown, PlaceOf;
      Count(v);
      ghost var view := View(offset, size, 0, 0);
      Begin(h);
      BeginView(h, v, view);
      b.AddView(v, offset, size);
      owner, places := owner[v := h], places[v := PlaceOf(view, guest[h].start)];
      Unmoved(h, {h});
      Finish(b, h, Now());
    }

    method Count(v: nat)
      requires Valid() && v == nextView
      modifies this`nextView
      ensures Valid() && v < nextView && v !in owner && v !in places
    {
      hide AllFit, AllLinked, AllTrapped, VacantAgree, Apart, Ordered, TrapManager.Valid, TrapManager.Tidy;
      nextView := nextView + 1;
    }

    lemma BeginView(h: Handle, v: nat, view: View)
      requires Valid() && h in buffers && h in guest && v !in owner && v < nextView && view.megabufferOffset == 0
      ensures var w := WithView(Now(), v, h, PlaceOf(view, guest[h].start));
        Rest(h, w, {h}) && v !in buffers[h].views && OwnViews(h, buffers[h].views[v := view], guest[h].start, w)
    {
      hide Fits, AllFit, OthersFit, Linked, AllLinked, AllTrapped, VacantAgree, Apart, Ordered, OwnersLive;
      hide TrapManager.Valid, TrapManager.Tidy, Shows, Cached, OwnViews, Buffer.Valid;
      Single(buffers, guest, Now(), h);
      SingleLinked(buffers, guest, memory, traps.trapMap.groups, h);
      NewView(buffers, guest, Now(), h, v, view);
    }

    // ---- merging

    method CollectSources(overlaps: seq<Handle>, recording: set<Handle>) returns (sources: seq<Source>)
      requires forall h :: h in overlaps ==> h in buffers && h in guest
      ensures AreSources(sources, buffers, guest, overlaps, recording)
    {
      sources := [];
      for i := 0 to |overlaps|
        invariant AreSources(sources, buffers, guest, overlaps[..i], recording)
      {
        var h := overlaps[i];
        assert overlaps[..i + 1][..i] == overlaps[..i];
        sources := sources + [Source(guest[h], buffers[h].dirty, buffers[h].backing, h in recording)];
      }
      assert overlaps[..|overlaps|] == overlaps;
    }

    /** The new buffer takes over the views of all that it replaces. */
    method AdoptAll(b: Buffer, hull: Interval, overlaps: seq<Handle>)
      requires Valid() && Holding(guest, hull, overlaps)
      requires b.Valid() && b.views == map[] && b.published == map[] && |b.mirror| == hull.end - hull.start
      requires b !in set h | h in buffers :: buffers[h]
      modifies b`views
      ensures b.Valid() && Adopted(b.views, buffers, guest, owner, hull.start, overlaps)
    {
      hide ValidBut, Buffer.Valid, Holding, Adopted;
      BuffersOf(hull, overlaps);
      NothingAdopted(buffers, guest, owner, hull.start);
      for i := 0 to |overlaps|
        invariant b.Valid() && Valid() && Adopted(b.views, buffers, guest, owner, hull.start, overlaps[..i])
      {
        AdoptOne(b, hull, overlaps[..i], overlaps[i]);
        assert overlaps[..i + 1] == overlaps[..i] + [overlaps[i]];
      }
      assert overlaps[..|overlaps|] == overlaps;
    }

    method AdoptOne(b: Buffer, hull: Interval, ghost before: seq<Handle>, h: Handle)
      requires Valid() && h in buffers && h in guest && h !in before
      requires hull.start <= guest[h].start && guest[h].end <= hull.end
      requires b.Valid() && |b.mirror| == hull.end - hull.start && b !in set k | k in buffers :: buffers[k]
      requires Adopted(b.views, buffers, guest, owner, hull.start, before)
      modifies b`views
      ensures Valid() && b.Valid() && Adopted(b.views, buffers, guest, owner, hull.start, before + [h])
    {
      hide ValidBut, Buffer.Valid, Moved;
      ViewsOf(h);
      ghost var views := b.views;
      b.AdoptViews(buffers[h].views, guest[h].start - hull.start);
      AdoptedMore(views, b.views, buffers, guest, owner, hull.start, before, h);
    }

    lemma ViewsOf(h: Handle)
      requires Valid() && h in buffers
      ensures h in guest && |buffers[h].mirror| == guest[h].end - guest[h].start
      ensures forall v :: v in buffers[h].views <==> v in owner && owner[v] == h
      ensures forall v :: v in buffers[h].views ==>
        buffers[h].views[v].offset + buffers[h].views[v].size <= |buffers[h].mirror|
    {
      hide Valid, Rest, Advanced, Shows, Cached;
      Begin(h);
    }

    /** A listed buffer has its reads trapped. */
    ghost predicate ReadsTrapped(groups: Groups, overlaps: seq<Handle>) {
      exists o :: o in overlaps && o in groups && groups[o].value == ReadWrite
    }

    /** The trap of the new buffer comes, is set as its construction ends, and those of the replaced buffers go. */
    method TrapMerged(hull: Interval, overlaps: seq<Handle>, demand: Protection) returns (h: Handle)
      requires traps.Valid() && traps.Tidy() && hull.NonEmpty() && hull.Aligned() && demand != Protection.None
      requires Apart(buffers, guest) && AllTrapped(guest, traps.trapMap.groups) && Ordered(order, guest)
      requires Holding(guest, hull, overlaps)
      modifies traps`host, traps.trapMap
      ensures traps.Valid() && traps.Tidy() && h !in old(traps.trapMap.groups)
      ensures Retrapped(old(traps.trapMap.groups), traps.trapMap.groups, overlaps, h, Group([hull], demand))
      ensures var strict := old(ReadsTrapped(traps.trapMap.groups, overlaps));
        forall p :: traps.host(p) == MergedLevel(old(traps.host(p)), guest, overlaps, hull, strict, demand, p)
    {
      hide TrapManager.Valid, TrapManager.Tidy, Holding, Ordered, Apart, AllTrapped, ReadsTrapped, AnyOn;
      AnyInHull(hull, overlaps);
      h := PutTrap(hull, overlaps, demand);
      DropTraps(hull, overlaps, h, demand, old(traps.trapMap.groups));
    }

    /** The trap of the new buffer, set as its construction ends. */
    method PutTrap(hull: Interval, ghost overlaps: seq<Handle>, demand: Protection) returns (h: Handle)
      requires traps.Valid() && traps.Tidy() && hull.NonEmpty() && hull.Aligned() && demand != Protection.None
      requires AllTrapped(guest, traps.trapMap.groups) && Holding(guest, hull, overlaps)
      modifies traps`host, traps.trapMap
      ensures traps.Valid() && traps.Tidy() && h !in old(traps.trapMap.groups)
      ensures traps.trapMap.groups == old(traps.trapMap.groups)[h := Group([hull], demand)]
      ensures forall p ::
        traps.host(p) ==
        if !hull.Overlaps(Page(p)) then old(traps.host(p))
        else if old(ReadsTrapped(traps.trapMap.groups, overlaps)) then ReadWrite else demand
    {
      hide TrapManager.Valid, TrapManager.Tidy, TrapManager.Reprotected, TrapManager.IsStrictest, IntervalMap.Touches;
      hide ReadsTrapped, Holding, AllTrapped;
      ghost var groups, level0 := traps.trapMap.groups, traps.host;
      h := traps.TrapRegions([hull], true);
      ghost var level1 := traps.host;
      OutsideKept(hull, WriteOnly, level0, level1);
      traps.RetrapRegions(h, true);
      ghost var level2 := traps.host;
      OutsideKept(hull, WriteOnly, level1, level2);
      HullLevel(hull, overlaps, h, groups, level1, level2);
      if demand == ReadWrite {
        traps.RetrapRegions(h, false);
        OutsideKept(hull, ReadWrite, level2, traps.host);
      }
    }

    lemma OutsideKept(hull: Interval, floor: Protection, before: int -> Protection, after: int -> Protection)
      requires hull.Aligned() && forall p :: traps.Reprotected(before(p), after(p), p, [hull], floor)
      ensures forall p :: !hull.Overlaps(Page(p)) ==> after(p) == before(p)
      ensures floor == ReadWrite ==> forall p :: hull.Overlaps(Page(p)) ==> after(p) == ReadWrite
    {
      hide TrapManager.Reprotected, IntervalMap.Touches;
      forall p
        ensures !hull.Overlaps(Page(p)) ==> after(p) == before(p)
        ensures floor == ReadWrite && hull.Overlaps(Page(p)) ==> after(p) == ReadWrite
      {
        traps.OneRegion(before(p), after(p), p, hull, floor);
      }
    }

    /** The strictest demand on the hull is that of a replaced buffer that traps reads, if there is one. */
    lemma HullLevel(hull: Interval, overlaps: seq<Handle>, h: Handle, groups: Groups, before: int -> Protection,
                    after: int -> Protection)
      requires hull.Aligned() && AllTrapped(guest, groups) && Holding(guest, hull, overlaps) && h !in groups
      requires traps.trapMap.groups == groups[h := Group([hull], WriteOnly)]
      requires forall p :: traps.Reprotected(before(p), after(p), p, [hull], WriteOnly)
      ensures forall p :: hull.Overlaps(Page(p)) ==>
        after(p) == if ReadsTrapped(groups, overlaps) then ReadWrite else WriteOnly
    {
      hide TrapManager.Reprotected, TrapManager.IsStrictest;
      var top := if ReadsTrapped(groups, overlaps) then ReadWrite else WriteOnly;
      forall g | traps.trapMap.Touches(g, hull) ensures traps.trapMap.groups[g].value.Rank() <= top.Rank() {
        if g != h {
          assert g in guest && groups[g].intervals == [guest[g]];
          assert guest[g].Overlaps(hull) && g in overlaps;
        }
      }
      if o :| o in overlaps && o in groups && groups[o].value == ReadWrite {
        assert guest[o] in groups[o].intervals && guest[o].Overlaps(hull);
        assert traps.trapMap.Touches(o, hull);
      }
      hide IntervalMap.Touches, ReadsTrapped;
      forall p | hull.Overlaps(Page(p)) ensures after(p) == top {
        traps.OneRegion(before(p), after(p), p, hull, WriteOnly);
        traps.StrictestIs(after(p), hull, WriteOnly, top);
      }
    }

    /** The traps of the replaced buffers go. */
    method DropTraps(hull: Interval, overlaps: seq<Handle>, h: Handle, ghost demand: Protection, ghost groups: Groups)
      requires traps.Valid() && traps.Tidy() && hull.Aligned() && h !in groups
      requires traps.trapMap.groups == groups[h := Group([hull], demand)]
      requires Apart(buffers, guest) && AllTrapped(guest, groups) && Ordered(order, guest)
      requires Holding(guest, hull, overlaps)
      modifies traps`host, traps.trapMap
      ensures traps.Valid() && traps.Tidy()
      ensures Retrapped(groups, traps.trapMap.groups, overlaps, h, Group([hull], demand))
      ensures forall p ::
        traps.host(p) == if AnyOn(guest, overlaps, p) then demand else old(traps.host(p))
    {
      hide TrapManager.Valid, TrapManager.Tidy, TrapManager.Reprotected, Ordered, Apart, AllTrapped, Holding;
      DistinctOverlaps(hull, overlaps, groups);
      for i := 0 to |overlaps|
        invariant traps.Valid() && traps.Tidy()
        invariant forall k :: k in traps.trapMap.groups <==> k == h || (k in groups && k !in overlaps[..i])
        invariant traps.trapMap.groups[h] == Group([hull], demand)
        invariant forall k :: k in traps.trapMap.groups && k != h ==> traps.trapMap.groups[k] == groups[k]
        invariant forall p :: traps.host(p) == if AnyOn(guest, overlaps[..i], p) then demand else old(traps.host(p))
      {
        assert overlaps[i] in overlaps && overlaps[..i + 1] == overlaps[..i] + [overlaps[i]];
        assert overlaps[i] !in overlaps[..i];
        DropTrap(hull, overlaps[i], h, demand, groups);
      }
      assert overlaps[..|overlaps|] == overlaps;
    }

    lemma AnyInHull(hull: Interval, overlaps: seq<Handle>)
      requires Holding(guest, hull, overlaps)
      ensures forall p :: AnyOn(guest, overlaps, p) ==> hull.Overlaps(Page(p))
    {
    }

    lemma DistinctOverlaps(hull: Interval, overlaps: seq<Handle>, groups: Groups)
      requires Holding(guest, hull, overlaps) && AllTrapped(guest, groups)
      ensures forall i, j :: 0 <= i < j < |overlaps| ==> overlaps[i] != overlaps[j]
      ensures forall o :: o in overlaps ==>
        && o in groups && o in guest && groups[o].intervals == [guest[o]]
        && hull.start <= guest[o].start && guest[o].end <= hull.end && guest[o].Overlaps(hull)
    {
    }

    method DropTrap(hull: Interval, o: Handle, h: Handle, ghost demand: Protection, ghost groups: Groups)
      requires traps.Valid() && traps.Tidy() && hull.Aligned() && h !in groups && o in groups
      requires o in traps.trapMap.groups
      requires h in traps.trapMap.groups && traps.trapMap.groups[h] == Group([hull], demand)
      requires forall k :: k in traps.trapMap.groups && k != h ==> k in groups && traps.trapMap.groups[k] == groups[k]
      requires Apart(buffers, guest) && AllTrapped(guest, groups) && Ordered(order, guest) && o in guest
      requires hull.start <= guest[o].start && guest[o].end <= hull.end && guest[o].Overlaps(hull)
      modifies traps`host, traps.trapMap
      ensures traps.Valid() && traps.Tidy() && traps.trapMap.groups == old(traps.trapMap.groups) - {o}
      ensures forall p :: traps.host(p) == if guest[o].Overlaps(Page(p)) then demand else old(traps.host(p))
    {
      hide TrapManager.Valid, TrapManager.Tidy, TrapManager.Reprotected, Ordered, Apart;
      UnderHull(hull, h, o);
      ghost var was := traps.host;
      traps.DeleteTrap(o);
      DroppedLevel(hull, o, h, demand, groups, was, traps.host);
    }

    /** On the pages of a buffer whose trap has gone, only the new one is left. */
    lemma DroppedLevel(hull: Interval, o: Handle, h: Handle, demand: Protection, groups: Groups,
                       before: int -> Protection, after: int -> Protection)
      requires h !in groups && o in groups && o !in traps.trapMap.groups
      requires h in traps.trapMap.groups && traps.trapMap.groups[h] == Group([hull], demand)
      requires forall k :: k in traps.trapMap.groups && k != h ==> k in groups && traps.trapMap.groups[k] == groups[k]
      requires Apart(buffers, guest) && AllTrapped(guest, groups) && Ordered(order, guest) && o in guest
      requires guest[o].Overlaps(hull)
      requires forall p :: traps.Reprotected(before(p), after(p), p, [guest[o]], Protection.None)
      ensures forall p :: after(p) == if guest[o].Overlaps(Page(p)) then demand else before(p)
    {
      hide TrapManager.Reprotected, TrapManager.IsStrictest, Ordered;
      OrderedAligned(o);
      assert hull in traps.trapMap.groups[h].intervals && traps.trapMap.Touches(h, guest[o]);
      assert forall g :: traps.trapMap.Touches(g, guest[o]) ==> g == h;
      hide IntervalMap.Touches, Apart, AllTrapped;
      forall p ensures after(p) == if guest[o].Overlaps(Page(p)) then demand else before(p) {
        traps.OneRegion(before(p), after(p), p, guest[o], Protection.None);
        if guest[o].Overlaps(Page(p)) {
          traps.StrictestIs(after(p), guest[o], Protection.None, demand);
        }
      }
    }

    /** Each page of a group inside the hull is one of the group over the hull. */
    lemma UnderHull(hull: Interval, h: Handle, o: Handle)
      requires h in traps.trapMap.groups && traps.trapMap.groups[h].intervals == [hull] && o != h
      requires o in traps.trapMap.groups && o in guest && traps.trapMap.groups[o].intervals == [guest[o]]
      requires hull.start <= guest[o].start && guest[o].end <= hull.end
      ensures traps.Overlaid(o)
    {
      forall p | traps.trapMap.Touches(o, Page(p)) ensures traps.trapMap.Touches(h, Page(p)) {
        assert hull in traps.trapMap.groups[h].intervals;
      }
    }

    lemma SourcesGood(hull: Interval, overlaps: seq<Handle>, recording: set<Handle>, sources: seq<Source>)
      requires Valid() && Holding(guest, hull, overlaps) && AreSources(sources, buffers, guest, overlaps, recording)
      ensures Disjoint(sources)
      ensures forall i :: 0 <= i < |sources| ==> Coherent(sources[i], memory) && hull.Overlaps(sources[i].guest)
    {
      hide AllFit, AllLinked, OthersFit, AllTrapped, TrapManager.Valid, TrapManager.Tidy, OwnersLive, VacantAgree;
      hide Cached, OwnViews, Ordered;
      forall i | 0 <= i < |sources| ensures Coherent(sources[i], memory) && hull.Overlaps(sources[i].guest) {
        var h := overlaps[i];
        assert h in overlaps;
        Single(buffers, guest, Now(), h);
        SingleLinked(buffers, guest, memory, traps.trapMap.groups, h);
      }
    }

    /** The agreed byte of the sources is that of flat memory throughout the new buffer, and memory itself elsewhere. */
    lemma SourcesAgree(hull: Interval, overlaps: seq<Handle>, recording: set<Handle>, sources: seq<Source>, a: int)
      requires Valid() && Holding(guest, hull, overlaps) && AreSources(sources, buffers, guest, overlaps, recording)
      requires Disjoint(sources)
      ensures Agreed(sources, memory, a) == if hull.Contains(a) then flat(a) else memory(a)
      ensures StillRecording(sources, a) ==> hull.Contains(a)
    {
      hide Agreed, AllFit, AllLinked, OthersFit, AllTrapped, Apart, TrapManager.Valid, TrapManager.Tidy, OwnersLive;
      hide Cached, OwnViews, Ordered;
      if hull.Contains(a) && !Vacant(guest, a) {
        var h :| h in guest && guest[h].Contains(a);
        assert guest[h].Overlaps(hull);
        var i :| 0 <= i < |overlaps| && overlaps[i] == h;
        Single(buffers, guest, Now(), h);
        SingleLinked(buffers, guest, memory, traps.trapMap.groups, h);
        AgreedInside(sources, memory, a, i);
      } else {
        forall i | 0 <= i < |sources| ensures !sources[i].guest.Contains(a) {
          assert overlaps[i] in overlaps;
        }
        AgreedOutside(sources, memory, a);
      }
    }

    /** The destructors of the sources have written to guest memory, which the new buffer mirrors. */
    method Renew(b: Buffer, hull: Interval, ghost memory1: Memory, memory2: Memory)
      requires b.Valid() && b.published == map[] && b.views == map[] && b.dirty != CpuDirty && hull.NonEmpty()
      requires Shows(b.backing, hull, memory1)
      requires b.dirty == Clean ==> forall a :: hull.Contains(a) ==> memory2(a) == memory1(a)
      modifies b`mirror
      ensures b.Valid() && Shows(b.Contents(), hull, memory1) && Shows(b.mirror, hull, memory2)
    {
      b.mirror := Bytes(hull, memory2);
      if b.dirty == Clean {
        assert b.mirror == b.backing;
      }
    }

    /** What construction and destructors leave in memory, in terms of flat memory. */
    lemma MergedBytes(hull: Interval, overlaps: seq<Handle>, recording: set<Handle>, sources: seq<Source>,
                      constructed: Memory, memory': Memory)
      requires Valid() && Holding(guest, hull, overlaps) && AreSources(sources, buffers, guest, overlaps, recording)
      requires Disjoint(sources)
      requires forall a ::
        constructed(a) == if StillRecording(sources, a) then memory(a) else Agreed(sources, memory, a)
      requires forall a :: memory'(a) == Agreed(sources, memory, a)
      ensures forall a :: hull.Contains(a) ==> constructed(a) == Reverted(flat, sources, memory)(a)
      ensures forall a :: hull.Contains(a) && !StillRecording(sources, a) ==> memory'(a) == constructed(a)
      ensures forall a :: memory'(a) == if hull.Contains(a) then flat(a) else memory(a)
      ensures forall a :: !hull.Contains(a) ==> !StillRecording(sources, a)
    {
      hide ValidBut, Agreed, StillRecording, AreSources, Disjoint, Holding;
      forall a
        ensures hull.Contains(a) ==> constructed(a) == Reverted(flat, sources, memory)(a)
        ensures memory'(a) == if hull.Contains(a) then flat(a) else memory(a)
        ensures !hull.Contains(a) ==> !StillRecording(sources, a)
      {
        SourcesAgree(hull, overlaps, recording, sources, a);
        if sources == [] {
          NothingRecording(sources, a);
        }
      }
    }

    /** The new buffer with its contents. */
    method BuildContents(hull: Interval, overlaps: seq<Handle>, recording: set<Handle>, garbage: seq<Byte>)
      returns (memory': Memory, b: Buffer, sources: seq<Source>)
      requires Valid() && Holding(guest, hull, overlaps) && |garbage| == hull.end - hull.start
      ensures AreSources(sources, buffers, guest, overlaps, recording) && Built(b, sources)
      ensures fresh(b) && b.Valid() && b.published == map[] && b.views == map[] && |b.mirror| == hull.end - hull.start
      ensures Shows(b.Contents(), hull, Reverted(flat, sources, memory)) && Shows(b.mirror, hull, memory')
      ensures forall a :: memory'(a) == if hull.Contains(a) then flat(a) else memory(a)
      ensures forall a :: !hull.Contains(a) ==> !StillRecording(sources, a)
    {
      hide ValidBut, Agreed, Coherent, Disjoint, StillRecording, Buffer.Valid, AreSources, Bytes, Holding, Reverted;
      BuffersOf(hull, overlaps);
      sources := CollectSources(overlaps, recording);
      SourcesGood(hull, overlaps, recording, sources);
      var constructed;
      constructed, b := Construct(hull, memory, sources, garbage);
      memory' := Destroy(constructed, sources, memory);
      MergedBytes(hull, overlaps, recording, sources, constructed, memory');
      if b.dirty == Clean {
        forall a ensures !StillRecording(sources, a) {
          NoneRecording(sources, a);
        }
      }
      Renew(b, hull, Reverted(flat, sources, memory), memory');
    }

    /** How a merged buffer starts out. */
    ghost predicate Built(b: Buffer, sources: seq<Source>)
      reads b
    {
      && !b.everHadInlineUpdate && b.trap != Protection.None && b.Exact()
      && b.dirty == if exists i :: 0 <= i < |sources| && Recording(sources[i]) then GpuDirty else Clean
    }

    lemma BuffersOf(hull: Interval, overlaps: seq<Handle>)
      requires Valid() && Holding(guest, hull, overlaps)
      ensures forall h :: h in overlaps ==> h in buffers && h in guest && h in traps.trapMap.groups
      ensures forall h :: h in overlaps && h in guest ==> hull.start <= guest[h].start && guest[h].end <= hull.end
      ensures hull.NonEmpty() && forall i, j :: 0 <= i < j < |overlaps| ==> overlaps[i] != overlaps[j]
      ensures forall i :: 0 <= i < |overlaps| ==> overlaps[i] in overlaps && overlaps[i] !in overlaps[..i]
    {
      hide AllFit, AllLinked, OthersFit, TrapManager.Valid, TrapManager.Tidy, OwnersLive, VacantAgree, Ordered;
    }

    /** The new buffer with its contents and views. */
    method Build(hull: Interval, overlaps: seq<Handle>, recording: set<Handle>, garbage: seq<Byte>)
      returns (memory': Memory, b: Buffer, sources: seq<Source>)
      requires Valid() && Holding(guest, hull, overlaps) && |garbage| == hull.end - hull.start
      ensures AreSources(sources, buffers, guest, overlaps, recording) && Built(b, sources) && fresh(b)
      ensures Ready(b, buffers, guest, owner, hull, overlaps, memory', Reverted(flat, sources, memory))
      ensures forall a :: memory'(a) == if hull.Contains(a) then flat(a) else memory(a)
      ensures forall a :: !hull.Contains(a) ==> !StillRecording(sources, a)
    {
      hide ValidBut, Buffer.Valid, AreSources, Adopted, Shows, Reverted, StillRecording, Holding;
      memory', b, sources := BuildContents(hull, overlaps, recording, garbage);
      AdoptAll(b, hull, overlaps);
    }

    /** The new buffer takes the place of those that it replaces. */
    method Swap(hull: Interval, overlaps: seq<Handle>, b: Buffer, memory': Memory, ghost flat': Memory)
      returns (h: Handle)
      requires Valid() && Holding(guest, hull, overlaps) && hull.Aligned()
      requires Ready(b, buffers, guest, owner, hull, overlaps, memory', flat')
      requires forall a :: !hull.Contains(a) ==> memory'(a) == memory(a) && flat'(a) == flat(a)
      modifies this`memory, this`buffers, this`guest, this`order, this`owner, this`flat, traps`host, traps.trapMap
      ensures Valid() && h !in old(guest) && flat == flat' && memory == memory'
      ensures buffers == Replaced(old(buffers), overlaps, h, b) && guest == Replaced(old(guest), overlaps, h, hull)
      ensures owner == Repointed(old(owner), overlaps, h) && LevelsMerged(hull, overlaps, b)
    {
      hide MergedLevel, SomeGpuDirty, ReadsTrapped, Apart, AllTrapped;
      hide Valid, Tied, TrapManager.Valid, TrapManager.Tidy, MegaBuffer.Valid, Ready, Replaced, Repointed, Holding;
      hide Ordered, Retrapped;
      BuffersOf(hull, overlaps);
      IsTied();
      ghost var groups := traps.trapMap.groups;
      ReadyTrap(b, buffers, guest, owner, hull, overlaps, memory', flat');
      StrictIs(overlaps);
      h := TrapMerged(hull, overlaps, b.trap);
      TiedNew(buffers, guest, memory, groups, Now(), h);
      var order' := Reordered(order, guest, hull, overlaps, h);
      MergedState(buffers, guest, memory, groups, Now(), hull, overlaps, h, b, memory', flat', traps.trapMap.groups);
      RepointedKeys(owner, overlaps, h);
      Install(Replaced(buffers, overlaps, h, b), Replaced(guest, overlaps, h, hull), order',
              Repointed(owner, overlaps, h), memory', flat');
    }

    /** Reads are trapped by the buffers that are GPU dirty. */
    lemma StrictIs(overlaps: seq<Handle>)
      requires Valid()
      ensures ReadsTrapped(traps.trapMap.groups, overlaps) <==> SomeGpuDirty(overlaps)
    {
      hide AllFit, OwnersLive, VacantAgree, TrapManager.Valid, TrapManager.Tidy, Ordered, AllLinked;
      forall k | k in buffers
        ensures k in traps.trapMap.groups
        ensures (traps.trapMap.groups[k].value == ReadWrite <==> buffers[k].dirty == GpuDirty)
      {
        SingleLinked(buffers, guest, memory, traps.trapMap.groups, k);
      }
    }

    lemma IsTied()
      requires Valid()
      ensures Tied(buffers, guest, memory, traps.trapMap.groups, Now())
      ensures Apart(buffers, guest) && AllTrapped(guest, traps.trapMap.groups)
      ensures traps.Valid() && traps.Tidy() && mega.Valid()
      ensures mega.free <= |mega.backing| && Ordered(order, guest) && forall v :: v in owner ==> v < nextView
    {
      hide AllFit, AllLinked, AllTrapped, Apart, OwnersLive, VacantAgree, TrapManager.Valid, TrapManager.Tidy, Ordered;
    }

    method Install(buffers': Objects, guest': Ranges, order': seq<Handle>, owner': Owners, memory': Memory,
                   ghost flat': Memory)
      requires traps.Valid() && traps.Tidy() && mega.Valid() && Ordered(order', guest')
      requires forall v :: v in owner' ==> v < nextView
      requires Tied(buffers', guest', memory', traps.trapMap.groups, Now().(flat := flat', owner := owner'))
      modifies this`memory, this`buffers, this`guest, this`order, this`owner, this`flat
      ensures Valid() && buffers == buffers' && guest == guest' && owner == owner' && memory == memory' && flat == flat'
    {
      hide AllFit, AllLinked, AllTrapped, Apart, OwnersLive, VacantAgree, TrapManager.Valid, TrapManager.Tidy;
      hide MegaBuffer.Valid, Ordered;
      buffers, guest, order, owner, memory, flat := buffers', guest', order', owner', memory', flat';
    }

    ghost predicate SomeGpuDirty(overlaps: seq<Handle>)
      reads this, set h | h in buffers :: buffers[h]
    {
      exists k :: k in overlaps && k in buffers && buffers[k].dirty == GpuDirty
    }

    /** Pages are protected as a merge leaves them. */
    twostate predicate LevelsMerged(hull: Interval, overlaps: seq<Handle>, new b: Buffer)
      reads this, traps, b
    {
      var strict := old(SomeGpuDirty(overlaps));
      forall p ::
        traps.host(p) == MergedLevel(old(traps.host(p)), old(guest), overlaps, hull, strict, Demand(b.dirty), p)
    }

    /** A buffer over a range replaces all that overlap it, and nothing of what they hold is lost but the bytes that
        stay behind in sources still being recorded.  Every view keeps its guest address. */
    method Merge(hull: Interval, overlaps: seq<Handle>, recording: set<Handle>, garbage: seq<Byte>)
      returns (h: Handle, b: Buffer, sources: seq<Source>)
      requires Valid() && Holding(guest, hull, overlaps) && hull.Aligned() && |garbage| == hull.end - hull.start
      modifies this`memory, this`buffers, this`guest, this`order, this`owner, this`flat, traps`host, traps.trapMap
      ensures Valid() && h !in old(guest) && fresh(b) && Built(b, sources)
      ensures buffers == Replaced(old(buffers), overlaps, h, b) && guest == Replaced(old(guest), overlaps, h, hull)
      ensures AreSources(sources, old(buffers), old(guest), overlaps, recording)
      ensures flat == Reverted(old(flat), sources, old(memory)) && owner == Repointed(old(owner), overlaps, h)
      ensures forall a :: memory(a) == if hull.Contains(a) then old(flat)(a) else old(memory)(a)
      ensures LevelsMerged(hull, overlaps, b)
    {
      hide ValidBut, Ready, AreSources, StillRecording, Replaced, Repointed, Holding, Built, MergedLevel, SomeGpuDirty;
      var memory';
      memory', b, sources := Build(hull, overlaps, recording, garbage);
      h := Swap(hull, overlaps, b, memory', Reverted(flat, sources, memory));
    }

    // ---- whole runs

    /** What a snapshot shows. */
    lemma Seen()
      requires Valid()
      ensures Matches(Snapshot()) && buffers.Keys == guest.Keys && Snapshot().dirty.Keys == buffers.Keys
      ensures Snapshot().inlined.Keys == buffers.Keys && places.Keys == owner.Keys
      ensures forall v :: v in owner ==> owner[v] in buffers
      ensures Snapshot().free == mega.free && Snapshot().flat == flat && Snapshot().memory == memory
      ensures Snapshot().levels == traps.host
      ensures forall h :: h in buffers ==>
        buffers[h].dirty == Snapshot().dirty[h] && buffers[h].everHadInlineUpdate == Snapshot().inlined[h]
    {
      hide AllFit, AllLinked, AllTrapped, TrapManager.Valid, TrapManager.Tidy, VacantAgree, Ordered;
    }

    /** What a snapshot shows of one buffer, and of the others. */
    lemma SeenAt(h: Handle)
      requires Valid() && h in buffers
      ensures h in guest && Matches(Snapshot()) && OthersSeen(Snapshot(), h)
      ensures h in Snapshot().dirty && Snapshot().dirty[h] == buffers[h].dirty
      ensures h in Snapshot().inlined && Snapshot().inlined[h] == buffers[h].everHadInlineUpdate
      ensures Snapshot().free == mega.free && Snapshot().flat == flat && Snapshot().memory == memory
      ensures Snapshot().levels == traps.host
      ensures Snapshot().owner.Keys == Snapshot().places.Keys
      ensures buffers[h] !in set k | k in buffers && k != h :: buffers[k]
    {
      hide ValidBut;
      Seen();
      Alone(h, {});
    }

    /** The other buffers are as the state says, and lie elsewhere. */
    ghost predicate OthersSeen(s: State, h: Handle)
      reads this`buffers, this`guest, set k | k in buffers && k != h :: buffers[k]
    {
      && h in buffers && buffers.Keys == guest.Keys && s.dirty.Keys == buffers.Keys && s.inlined.Keys == buffers.Keys
      && (forall k :: k in buffers && k != h ==>
            buffers[k].dirty == s.dirty[k] && buffers[k].everHadInlineUpdate == s.inlined[k])
      && (forall k, a :: k in guest && k != h && guest[k].Contains(a) ==> !guest[h].Contains(a))
    }

    /** Guest memory is as the state says but for this buffer, and there too if it is GPU dirty. */
    ghost predicate MemorySeen(s: State, b: Buffer, h: Handle)
      reads this, b
    {
      h in guest && forall a :: memory(a) == s.memory(a) || (guest[h].Contains(a) && b.dirty != GpuDirty)
    }

    /** Pages have the levels of the state but for those of this buffer, if its demand has changed. */
    ghost predicate LevelsSeen(s: State, b: Buffer, h: Handle)
      reads this, traps, b
    {
      h in guest && h in s.dirty &&
      forall p :: traps.host(p) == Level(s.levels(p), guest[h], p, Demand(s.dirty[h]), Demand(b.dirty))
    }

    /** Buffers, views and the size of the megabuffer are those of the state. */
    ghost predicate Matches(s: State)
      reads this, mega
    {
      guest == s.guest && owner == s.owner && places == s.places && |mega.backing| == s.capacity
    }

    /** The state has these dirty states and inline updates. */
    lemma StatesAre(dirty: map<Handle, DirtyState>, inlined: map<Handle, bool>)
      requires dirty.Keys == buffers.Keys && inlined.Keys == buffers.Keys
      requires forall h :: h in buffers ==>
        buffers[h].dirty == dirty[h] && buffers[h].everHadInlineUpdate == inlined[h]
      ensures Snapshot() ==
        State(guest, dirty, inlined, owner, places, mega.free, |mega.backing|, traps.host, memory, flat)
    {
    }

    /** Every valid state is a state of the flat machine. */
    lemma SnapshotWellFormed()
      requires Valid()
      ensures WellFormed(Snapshot())
    {
      hide AllFit, AllLinked, AllTrapped, TrapManager.Valid, TrapManager.Tidy, VacantAgree, HoldsAll, Shielding;
      var s := Snapshot();
      BufferManagers.LaidKnown(order, guest);
      forall v | v in s.owner ensures s.owner[v] in s.guest && HoldsAll(s.guest[s.owner[v]], s.places[v]) {
        PlaceHeld(v);
      }
      forall a | !Shielding(s, a) ensures s.memory(a) == s.flat(a) {
        MemoryUnshielded(a);
      }
      LevelsWellFormed();
    }

    /** Pages are protected wherever a buffer calls for it, and only under buffers. */
    lemma LevelsWellFormed()
      requires Valid()
      ensures forall h, p :: h in buffers && h in guest && guest[h].Overlaps(Page(p)) ==>
        Demand(buffers[h].dirty).Rank() <= traps.host(p).Rank()
      ensures forall p :: traps.host(p) != Protection.None ==> OnSome(guest, p)
    {
      hide AllFit, AllLinked, VacantAgree, OwnersLive, IntervalMap.Touches, Ordered, AllTrapped, Apart;
      hide IntervalMap.Valid;
      forall h, p | h in buffers && h in guest && guest[h].Overlaps(Page(p))
        ensures Demand(buffers[h].dirty).Rank() <= traps.host(p).Rank()
      {
        TouchesIs(h, Page(p));
        SingleLinked(buffers, guest, memory, traps.trapMap.groups, h);
        assert traps.PageGuarded(p);
      }
      forall p | traps.host(p) != Protection.None ensures OnSome(guest, p) {
        assert traps.Occupied(p);
        var h :| traps.trapMap.Touches(h, Page(p));
        TouchesIs(h, Page(p));
      }
    }

    lemma PlaceHeld(v: nat)
      requires Valid() && v in owner && owner[v] in buffers
      ensures owner[v] in guest && v in places && HoldsAll(guest[owner[v]], places[v])
    {
      hide ValidBut;
      ViewsOf(owner[v]);
      KnownView(owner[v], v);
    }

    lemma MemoryUnshielded(a: int)
      requires Valid() && !Shielding(Snapshot(), a)
      ensures memory(a) == flat(a)
    {
      hide ValidBut;
      assert forall h :: h in buffers && h in guest && guest[h].Contains(a) ==> Snapshot().dirty[h] != GpuDirty;
      MemoryIsFlat(a);
    }

    /** A use of one buffer, told from outside. */
    lemma Used(s: State, h: Handle, what: Use, e: Event)
      requires OthersSeen(s, h) && MemorySeen(s, buffers[h], h) && Matches(s) && s.free == mega.free
      requires TakesPlace(s.dirty[h], guest[h].end - guest[h].start, what) && Reports(guest[h].start, what, e)
      requires buffers[h].dirty == DirtyAfter(s.dirty[h], what)
      requires buffers[h].everHadInlineUpdate == (s.inlined[h] || what.InlineWrites?)
      requires flat == After(s.flat, e) && (e.Saw? ==> Reads(e.data, e.start, s.flat))
      requires LevelsSeen(s, buffers[h], h)
      ensures Next(s, OnBuffer(h, what), e, Snapshot())
    {
      hide TakesPlace, DirtyAfter, Reports, Reads, After, Untouched, Next, Level;
      StatesAre(s.dirty[h := buffers[h].dirty], s.inlined[h := buffers[h].everHadInlineUpdate]);
      UntouchedBy(s, Snapshot(), h);
      UsesNext(s, Snapshot(), h, what, e);
    }

    /** One use of one buffer. */
    method Perform(b: Buffer, h: Handle, what: Use) returns (event: Event)
      requires Valid() && h in buffers && buffers[h] == b && h in guest
      requires TakesPlace(b.dirty, guest[h].end - guest[h].start, what)
      modifies this`memory, this`flat, traps`host, traps.trapMap, b
      ensures Valid() && Performed(b, h, what, event)
    {
      hide ValidBut, Performed, Rest, Advanced, Shows, Cached, OwnViews, Buffer.Valid;
      Begin(h);
      event := Silent;
      match what {
        case HostSync(rwTrap) => SynchronizeHost(b, h, rwTrap);
        case GuestSync(nonBlocking, signalled) => SynchronizeGuest(b, h, nonBlocking, signalled);
        case Announce => MarkGpuDirty(b, h);
        case GpuWrites(contents) => event := GpuWrite(b, h, contents);
        case InlineWrites(data, offset) => event := Write(b, h, data, offset);
        case BufferReads(offset, size) => event := Read(b, h, offset, size);
      }
    }

    method StepBuffer(b: Buffer, h: Handle, what: Use) returns (event: Event)
      requires Valid() && h in buffers && buffers[h] == b
      modifies this`memory, this`flat, traps`host, traps.trapMap, b
      ensures Valid() && Next(old(Snapshot()), OnBuffer(h, what), event, Snapshot())
    {
      hide ValidBut, Updated, Reverted, Next, After, Reads, Reports, DirtyAfter, TakesPlace, Snapshot, OthersSeen;
      hide Level;
      ghost var s := Snapshot();
      SeenAt(h);
      if TakesPlace(b.dirty, guest[h].end - guest[h].start, what) {
        event := Perform(b, h, what);
        Used(s, h, what, event);
      } else {
        event := Silent;
        NothingUsed(s, h, what);
      }
    }

    lemma NothingUsed(s: State, h: Handle, what: Use)
      requires s == Snapshot() && h in buffers && h in guest
      requires !TakesPlace(buffers[h].dirty, guest[h].end - guest[h].start, what)
      ensures Next(s, OnBuffer(h, what), Silent, Snapshot())
    {
      hide TakesPlace;
    }

    /** An access of the guest, told from outside. */
    lemma Accessed(s: State, action: Action, e: Event)
      requires action.GuestWrites? || action.GuestReads?
      requires Matches(s) && s.free == mega.free && flat == After(s.flat, e)
      requires s.dirty.Keys == buffers.Keys && s.inlined.Keys == buffers.Keys && buffers.Keys == guest.Keys
      requires forall h :: h in buffers ==> buffers[h].everHadInlineUpdate == s.inlined[h]
      requires var refused := Refuses(s.levels(action.a / PageSize), action.GuestWrites?);
        && (forall h :: h in buffers && h in guest ==>
              buffers[h].dirty == if refused && guest[h].Contains(action.a) then CpuDirty else s.dirty[h])
        && (forall p ::
              traps.host(p) == if refused && Beside(guest, action.a, p) then Protection.None else s.levels(p))
        && (!refused && action.GuestReads? ==> memory == s.memory)
      requires forall h, a :: h in buffers && h in guest && buffers[h].dirty == GpuDirty && guest[h].Contains(a) ==>
        memory(a) == s.memory(a)
      requires if action.GuestWrites? then e == Wrote(action.a, [action.x])
        else ShowsAt(e, action.a, 1) && Reads(e.data, e.start, s.flat)
      ensures Next(s, action, e, Snapshot())
    {
      hide Next, Reads, After, Beside, Refuses;
      StatesAre(map h | h in buffers :: buffers[h].dirty, s.inlined);
      AccessesNext(s, Snapshot(), action, e);
    }

    method StepGuest(action: Action) returns (event: Event)
      requires Valid() && (action.GuestWrites? || action.GuestReads?)
      modifies this`memory, this`flat, traps`host, traps.trapMap, set h | h in buffers :: buffers[h]
      ensures Valid() && Next(old(Snapshot()), action, event, Snapshot())
    {
      hide ValidBut, Next, Updated, Snapshot, Beside, Refuses;
      ghost var s := Snapshot();
      Seen();
      if action.GuestWrites? {
        GuestWrite(action.a, action.x);
        event := Wrote(action.a, [action.x]);
      } else {
        var x := GuestRead(action.a);
        event := Saw(action.a, [x]);
      }
      Accessed(s, action, event);
    }

    /** An acquisition, told from outside. */
    lemma Copied(s: State, h: Handle, v: nat, signalled: bool, r: PushResult, e: Event)
      requires OthersSeen(s, h) && MemorySeen(s, buffers[h], h) && Matches(s) && s.flat == flat
      requires v in owner && owner[v] == h && v in places
      requires buffers[h].everHadInlineUpdate == s.inlined[h] && !r.Overrun?
      requires buffers[h].dirty == if r == Pushed(0) && s.dirty[h] != CpuDirty then s.dirty[h] else Clean
      requires r == Pushed(0) <==> Unsuited(s, v, signalled)
      requires places[v].start <= places[v].end && LevelsSeen(s, buffers[h], h)
      requires RoomTaken(r, places[v].end - places[v].start, s.free, s.capacity, mega.free, |mega.backing|)
      requires if r.Pushed? && r.offset != 0
        then ShowsAt(e, places[v].start, places[v].end - places[v].start) && Reads(e.data, e.start, flat)
        else e == Silent
      ensures Next(s, Acquires(v, signalled), e, Snapshot())
    {
      hide Next, Reads, Untouched, Unsuited, Level;
      StatesAre(s.dirty[h := buffers[h].dirty], s.inlined);
      UntouchedBy(s, Snapshot(), h);
      CopiesNext(s, Snapshot(), v, signalled, e);
    }

    method StepAcquire(b: Buffer, h: Handle, v: nat, signalled: bool) returns (crashed: bool, event: Event)
      requires Valid() && h in buffers && buffers[h] == b && v in owner && owner[v] == h
      modifies this`memory, this`attached, traps`host, traps.trapMap, mega, b
      ensures !crashed ==> Valid()
      ensures var action := Acquires(v, signalled);
        if crashed then Crashes(old(Snapshot()), action) else Next(old(Snapshot()), action, event, Snapshot())
    {
      hide ValidBut, Next, Reads, RoomTaken, Snapshot, CopyIsGood, ShowsAt, OthersSeen, Level;
      ghost var s := Snapshot();
      SeenAt(h);
      var r := Acquire(b, h, v, signalled);
      event := Silent;
      crashed := r.Overrun?;
      SameRoom(r, places[v].end - places[v].start, s.free, s.capacity, mega.free, |mega.backing|);
      if crashed {
        Overran(r, places[v].end - places[v].start, s.free, s.capacity, mega.free, |mega.backing|);
        return;
      }
      if r.Pushed? && r.offset != 0 {
        event := CopyShown(b, h, v, r.offset);
      }
      Copied(s, h, v, signalled, r, event);
    }

    /** What the executor sees of a copy. */
    method CopyShown(b: Buffer, h: Handle, v: nat, offset: nat) returns (event: Event)
      requires Valid() && h in buffers && buffers[h] == b && v in owner && owner[v] == h
      requires v in places && CopyIsGood(v, offset)
      ensures ShowsAt(event, places[v].start, places[v].end - places[v].start) && Reads(event.data, event.start, flat)
    {
      hide ValidBut, Reads;
      OwnView(h, v);
      var view := b.views[v];
      event := Saw(guest[h].start + view.offset, mega.backing[offset..offset + view.size]);
    }

    lemma OwnView(h: Handle, v: nat)
      requires Valid() && h in buffers && v in owner && owner[v] == h
      ensures h in guest && v in buffers[h].views && v in places
      ensures places[v] == PlaceOf(buffers[h].views[v], guest[h].start)
    {
      hide ValidBut;
      ViewsOf(h);
      KnownView(h, v);
    }

    // ---- lookups

    /** No buffer appears that was not there before or is new. */
    twostate predicate SameOrFresh()
      reads this
    {
      forall h :: h in buffers ==> (h in old(buffers) && buffers[h] == old(buffers)[h]) || fresh(buffers[h])
    }

    lemma TrackedKnown()
      requires Valid()
      ensures BufferManagers.Laid(order, guest) && forall h :: h in order <==> h in buffers
      ensures forall h :: h in buffers ==> h in guest
    {
      hide AllFit, AllLinked, AllTrapped, TrapManager.Valid, TrapManager.Tidy, VacantAgree, OwnersLive;
      hide BufferManagers.Laid;
    }

    lemma ReusedIs(s: State, requested: Interval, recording: set<Handle>, h: Handle, v: nat)
      requires OthersSeen(s, h) && guest == s.guest && mega.free == s.free && |mega.backing| == s.capacity
      requires h in s.dirty && s.dirty[h] == buffers[h].dirty
      requires h in s.inlined && s.inlined[h] == buffers[h].everHadInlineUpdate && HoldsAll(guest[h], requested.Align())
      requires v in owner && owner[v] == h && v in places && places[v] == requested && s.owner.Keys == s.places.Keys
      requires (places == s.places && owner == s.owner) ||
        (v !in s.places && places == s.places[v := requested] && owner == s.owner[v := h])
      requires (forall a :: memory(a) == s.memory(a)) && forall p :: traps.host(p) == s.levels(p)
      ensures Looks(s, requested, recording, Found(v, [], s.memory), Snapshot()) && Untouched(s, Snapshot())
    {
      hide Looks, HoldsAll;
      StatesAre(s.dirty, s.inlined);
      LooksInto(s, Snapshot(), requested, recording, h, v);
    }

    /** A lookup whose pages a tracked buffer holds. */
    method Reuse(b: Buffer, h: Handle, requested: Interval, ghost recording: set<Handle>) returns (v: nat)
      requires Valid() && h in buffers && buffers[h] == b && h in guest && requested.NonEmpty()
      requires HoldsAll(guest[h], requested.Align())
      modifies this`memory, this`owner, this`nextView, this`places, traps`host, traps.trapMap, b
      ensures Valid() && Untouched(old(Snapshot()), Snapshot())
      ensures Looks(old(Snapshot()), requested, recording, Found(v, [], old(memory)), Snapshot())
    {
      hide ValidBut, Looks, Snapshot, OthersSeen;
      ghost var s := Snapshot();
      SeenAt(h);
      ViewsOf(h);
      v := GetView(b, h, requested.start - guest[h].start, requested.end - requested.start);
      ReusedIs(s, requested, recording, h, v);
    }

    /** The buffers are as the state says, and what a GPU dirty one holds is flat memory. */
    ghost predicate Backed(s: State, objects: Objects)
      reads set h | h in objects :: objects[h]
    {
      && objects.Keys == s.guest.Keys && s.dirty.Keys == objects.Keys && s.inlined.Keys == objects.Keys
      && s.owner.Keys == s.places.Keys
      && (forall h :: h in objects ==>
            objects[h].dirty == s.dirty[h] && objects[h].everHadInlineUpdate == s.inlined[h])
      && (forall h :: h in objects && s.dirty[h] == GpuDirty ==> Shows(objects[h].backing, s.guest[h], s.flat))
    }

    lemma SeenBacked()
      requires Valid()
      ensures Backed(Snapshot(), buffers) && Matches(Snapshot())
      ensures Snapshot().free == mega.free && Snapshot().flat == flat && Snapshot().memory == memory
      ensures Snapshot().levels == traps.host
    {
      hide ValidBut, Shows;
      Seen();
      forall h | h in buffers && buffers[h].dirty == GpuDirty
        ensures h in guest && Shows(buffers[h].backing, guest[h], flat)
      {
        BackingShows(h);
      }
    }

    lemma BackingShows(h: Handle)
      requires Valid() && h in buffers && buffers[h].dirty == GpuDirty
      ensures h in guest && Shows(buffers[h].backing, guest[h], flat)
    {
      hide Valid, Rest, Advanced, Shows, Cached, OwnViews, Buffer.Valid;
      Begin(h);
    }

    lemma AreFromSources(s: State, objects: Objects, overlaps: seq<Handle>, recording: set<Handle>,
                         sources: seq<Source>)
      requires Backed(s, objects) && AreSources(sources, objects, s.guest, overlaps, recording)
      ensures FromSources(s, overlaps, recording, sources)
    {
      hide Shows;
      forall i | 0 <= i < |overlaps|
        ensures overlaps[i] in s.guest && overlaps[i] in s.dirty && sources[i].guest == s.guest[overlaps[i]]
        ensures sources[i].dirty == s.dirty[overlaps[i]] && (sources[i].inCurrentCycle <==> overlaps[i] in recording)
        ensures sources[i].dirty == GpuDirty ==> Shows(sources[i].backing, sources[i].guest, s.flat)
      {
        assert overlaps[i] in objects;
      }
    }

    /** The states of all buffers after a merge. */
    lemma MergedStates(s: State, objects: Objects, overlaps: seq<Handle>, h: Handle, b: Buffer)
      requires Backed(s, objects) && buffers == Replaced(objects, overlaps, h, b)
      ensures Snapshot() == State(guest, Replaced(s.dirty, overlaps, h, b.dirty),
                                  Replaced(s.inlined, overlaps, h, b.everHadInlineUpdate), owner, places, mega.free,
                                  |mega.backing|, traps.host, memory, flat)
    {
      StatesAre(Replaced(s.dirty, overlaps, h, b.dirty), Replaced(s.inlined, overlaps, h, b.everHadInlineUpdate));
    }

    /** A lookup that has created a buffer, told from outside. */
    lemma CreatedIs(s: State, objects: Objects, requested: Interval, recording: set<Handle>, hull: Interval,
                    overlaps: seq<Handle>, h: Handle, b: Buffer, v: nat, sources: seq<Source>)
      requires Backed(s, objects) && AreSources(sources, objects, s.guest, overlaps, recording)
      requires Placing(s, requested.Align(), hull, overlaps) && h !in s.guest
      requires buffers == Replaced(objects, overlaps, h, b) && guest == Replaced(s.guest, overlaps, h, hull)
      requires b.dirty == (if exists i :: 0 <= i < |sources| && Recording(sources[i]) then GpuDirty else Clean)
      requires !b.everHadInlineUpdate && mega.free == s.free && |mega.backing| == s.capacity
      requires v in owner && owner[v] == h && v in places && places[v] == requested
      requires (places == s.places && owner == Repointed(s.owner, overlaps, h)) ||
        (v !in s.places && places == s.places[v := requested] && owner == Repointed(s.owner, overlaps, h)[v := h])
      requires forall a :: memory(a) == if hull.Contains(a) then s.flat(a) else s.memory(a)
      requires MergeLevels(s, Snapshot(), hull, overlaps, Demand(b.dirty))
      ensures Looks(s, requested, recording, Found(v, sources, s.memory), Snapshot()) && Untouched(s, Snapshot())
    {
      hide Looks, Untouched, AreSources, Backed, Replaced, MergeLevels;
      AreFromSources(s, objects, overlaps, recording, sources);
      MergedStates(s, objects, overlaps, h, b);
      ReplacedAt(s.dirty, overlaps, h, b.dirty);
      KeysOfBacked(s, objects);
      LooksAnew(s, Snapshot(), requested, recording, hull, overlaps, h, v, sources);
    }

    lemma DirtySeen(s: State, overlaps: seq<Handle>)
      requires Backed(s, buffers)
      ensures AnyGpuDirty(s.dirty, overlaps) <==> SomeGpuDirty(overlaps)
    {
      hide Shows;
    }

    lemma LevelsAre()
      ensures Snapshot().levels == traps.host
    {
    }

    lemma KeysOfBacked(s: State, objects: Objects)
      requires Backed(s, objects)
      ensures s.dirty.Keys == s.guest.Keys && s.inlined.Keys == s.guest.Keys && s.owner.Keys == s.places.Keys
    {
    }

    /** A lookup that no tracked buffer holds. */
    method Create(hull: Interval, overlaps: seq<Handle>, requested: Interval, recording: set<Handle>, garbage: Memory)
      returns (v: nat, sources: seq<Source>)
      requires Valid() && requested.NonEmpty() && hull.Aligned()
      requires Placing(Snapshot(), requested.Align(), hull, overlaps)
      modifies this, traps`host, traps.trapMap
      ensures Valid() && SameOrFresh() && attached == old(attached)
      ensures flat == Reverted(old(flat), sources, old(memory)) && Untouched(old(Snapshot()), Snapshot())
      ensures Looks(old(Snapshot()), requested, recording, Found(v, sources, old(memory)), Snapshot())
    {
      hide ValidBut, Looks, Untouched, Backed, AreSources, Replaced, Repointed, Snapshot, Reverted, Bytes;
      hide AnyGpuDirty, SomeGpuDirty, MergedLevel;
      ghost var s, objects := Snapshot(), buffers;
      SeenBacked();
      PlacingHolds(s, requested.Align(), hull, overlaps);
      DirtySeen(s, overlaps);
      var h, b;
      h, b, sources := Merge(hull, overlaps, recording, Bytes(hull, garbage));
      ReplacedAt(objects, overlaps, h, b);
      ReplacedAt(s.guest, overlaps, h, hull);
      ViewsOf(h);
      v := GetView(b, h, requested.start - hull.start, requested.end - requested.start);
      LevelsAre();
      CreatedIs(s, objects, requested, recording, hull, overlaps, h, b, v, sources);
    }

    /** A view of exactly the requested addresses, of a tracked buffer or of a new one that replaces all that are in its
        way. */
    method FindOrCreate(requested: Interval, recording: set<Handle>, garbage: Memory)
      returns (v: nat, sources: seq<Source>)
      requires Valid() && requested.NonEmpty()
      modifies this, traps`host, traps.trapMap, set h | h in buffers :: buffers[h]
      ensures Valid() && SameOrFresh() && attached == old(attached)
      ensures flat == Reverted(old(flat), sources, old(memory)) && Untouched(old(Snapshot()), Snapshot())
      ensures Looks(old(Snapshot()), requested, recording, Found(v, sources, old(memory)), Snapshot())
    {
      hide ValidBut, Looks, Untouched, Snapshot, BufferManagers.Laid, BufferManagers.Picked, Placing;
      TrackedKnown();
      var choice := BufferManagers.Choose(order, guest, requested.Align());
      if choice.Reuse? {
        v := Reuse(buffers[choice.b], choice.b, requested, recording);
        sources := [];
      } else {
        Chosen(requested.Align(), choice);
        v, sources := Create(choice.hull, choice.overlaps, requested, recording, garbage);
      }
    }

    /** What a lookup picks is what a merge takes. */
    lemma Chosen(mapping: Interval, choice: BufferManagers.Choice)
      requires Valid() && choice.Create? && mapping.NonEmpty()
      requires BufferManagers.Picked(order, guest, mapping, choice.hull, choice.overlaps)
      requires forall b :: b in order && BufferManagers.Holds(guest, b, mapping) <==> choice == BufferManagers.Reuse(b)
      ensures choice.hull.Aligned() && Placing(Snapshot(), mapping, choice.hull, choice.overlaps)
    {
      hide ValidBut, BufferManagers.Laid;
      TrackedKnown();
      Seen();
      forall h | h in guest ensures !HoldsAll(guest[h], mapping) {
        assert h in order && !BufferManagers.Holds(guest, h, mapping);
      }
      forall a | choice.hull.Contains(a) && !mapping.Contains(a) ensures !Vacant(guest, a) {
        assert BufferManagers.CoveredBy(choice.overlaps, guest, a);
      }
    }

    // ---- runs

    /** One action of guest, GPU or executor. */
    method Step(action: Action) returns (crashed: bool, event: Event)
      requires Valid()
      modifies this, traps`host, traps.trapMap, mega, set h | h in buffers :: buffers[h]
      ensures !crashed ==> Valid() && SameOrFresh() && WellFormed(Snapshot())
      ensures if crashed then Crashes(old(Snapshot()), action) else Next(old(Snapshot()), action, event, Snapshot())
    {
      hide ValidBut, Next, Snapshot, Crashes, WellFormed;
      crashed, event := false, Silent;
      match action {
        case GuestWrites(_, _) => event := StepGuest(action);
        case GuestReads(_) => event := StepGuest(action);
        case OnBuffer(h, what) =>
          if h in buffers {
            event := StepBuffer(buffers[h], h, what);
          } else {
            Idle(action);
          }
        case Finds(requested, recording, garbage) =>
          if requested.NonEmpty() {
            event := StepFind(requested, recording, garbage);
          } else {
            Idle(action);
          }
        case Acquires(v, signalled) =>
          if v in owner {
            OwnerLives(v);
            crashed, event := StepAcquire(buffers[owner[v]], owner[v], v, signalled);
          } else {
            Idle(action);
          }
        case Pushes(data) => StepPush(data);
        case Submits => StepSubmit();
      }
      if !crashed {
        SnapshotWellFormed();
      }
    }

    lemma OwnerLives(v: nat)
      requires Valid() && v in owner
      ensures owner[v] in buffers
    {
      hide AllFit, AllLinked, AllTrapped, TrapManager.Valid, TrapManager.Tidy, VacantAgree, Ordered, Apart;
    }

    /** Actions on nothing do nothing. */
    lemma Idle(action: Action)
      requires Valid()
      requires (action.OnBuffer? && action.h !in buffers) || (action.Finds? && !action.requested.NonEmpty()) ||
        (action.Acquires? && action.v !in owner)
      ensures Next(Snapshot(), action, Silent, Snapshot())
    {
      hide ValidBut;
      Seen();
    }

    method StepFind(requested: Interval, recording: set<Handle>, garbage: Memory) returns (event: Event)
      requires Valid() && requested.NonEmpty()
      modifies this, traps`host, traps.trapMap, set h | h in buffers :: buffers[h]
      ensures Valid() && SameOrFresh()
      ensures Next(old(Snapshot()), Finds(requested, recording, garbage), event, Snapshot())
    {
      hide ValidBut, Next, Looks, Untouched, Reverted;
      ghost var s := Snapshot();
      var was := memory;
      var v, sources := FindOrCreate(requested, recording, garbage);
      event := Found(v, sources, was);
      LooksNext(s, Snapshot(), requested, recording, garbage, event);
    }

    method StepPush(data: seq<Byte>)
      requires Valid()
      modifies mega
      ensures Valid() && Next(old(Snapshot()), Pushes(data), Silent, Snapshot())
    {
      hide ValidBut, Reads;
      var _ := Push(data);
    }

    method StepSubmit()
      requires Valid()
      modifies this`memory, this`attached, traps`host, traps.trapMap, mega`free, set h | h in buffers :: buffers[h]
      ensures Valid() && Next(old(Snapshot()), Submits, Silent, Snapshot())
    {
      hide ValidBut, Next, NoCopies, Snapshot;
      ghost var s := Snapshot();
      Seen();
      Execute();
      Submitted(s);
    }

    lemma Submitted(s: State)
      requires Matches(s) && s.flat == flat && mega.free == PageSize && forall a :: memory(a) == s.memory(a)
      requires forall p :: traps.host(p) == s.levels(p)
      requires s.dirty.Keys == buffers.Keys && s.inlined.Keys == buffers.Keys
      requires forall h :: h in buffers ==>
        buffers[h].dirty == s.dirty[h] && buffers[h].everHadInlineUpdate == s.inlined[h]
      ensures Next(s, Submits, Silent, Snapshot())
    {
      StatesAre(s.dirty, s.inlined);
    }

    /** Every run, up to a crash if there is one, is a run of the flat machine. */
    method Run(actions: seq<Action>) returns (crashed: bool, events: seq<Event>, ghost trace: seq<State>)
      requires Valid()
      modifies this, traps`host, traps.trapMap, mega, set h | h in buffers :: buffers[h]
      ensures Follows(trace, actions, events) && trace[0] == old(Snapshot())
      ensures if crashed then |events| < |actions| && Crashes(trace[|events|], actions[|events|])
        else |events| == |actions| && Valid() && trace[|events|] == Snapshot()
    {
      hide ValidBut, Next, Snapshot, Crashes, WellFormed;
      SnapshotWellFormed();
      crashed, events, trace := false, [], [Snapshot()];
      for i := 0 to |actions|
        invariant Valid() && SameOrFresh() && !crashed && |events| == i
        invariant Follows(trace, actions, events) && trace[0] == old(Snapshot()) && trace[i] == Snapshot()
      {
        var event;
        crashed, event := Step(actions[i]);
        if crashed {
          return;
        }
        FollowsMore(trace, actions, events, event, Snapshot());
        events, trace := events + [event], trace + [Snapshot()];
      }
    }
  }

  /** A system with one buffer over guest memory of zeros. */
  method OneBuffer() returns (sys: BufferSystem, h: Handle)
    ensures sys.Valid() && sys.Snapshot().guest == map[h := Interval(0, PageSize)]
    ensures sys.Snapshot().dirty == map[h := Clean] && sys.memory(0) == 0
    ensures fresh(sys) && fresh(sys.traps) && fresh(sys.traps.trapMap) && fresh(sys.mega)
    ensures fresh(set k | k in sys.buffers :: sys.buffers[k])
  {
    hide BufferSystem.ValidBut, BufferSystem.Snapshot, Looks, Untouched;
    sys := new BufferSystem(a => 0, 2 * PageSize, seq(2 * PageSize, i => 0));
    ghost var s := sys.Snapshot();
    sys.Seen();
    var v, sources := sys.FindOrCreate(Interval(0, PageSize), {}, a => 0);
    sys.Seen();
    FirstLookup(s, Interval(0, PageSize), {}, Found(v, sources, s.memory), sys.Snapshot());
    h := sys.owner[v];
  }

  /** A system with one buffer, which the GPU has filled with ones over guest memory of zeros. */
  method GpuWritten() returns (sys: BufferSystem, h: Handle)
    ensures sys.Valid() && sys.Snapshot().guest == map[h := Interval(0, PageSize)]
    ensures sys.Snapshot().dirty == map[h := GpuDirty] && sys.memory(0) == 0 && sys.flat(0) == 1
    ensures fresh(sys) && fresh(sys.traps) && fresh(sys.traps.trapMap) && fresh(sys.mega)
    ensures fresh(set k | k in sys.buffers :: sys.buffers[k])
  {
    hide BufferSystem.ValidBut, BufferSystem.Snapshot, Next;
    sys, h := OneBuffer();
    ghost var s := sys.Snapshot();
    sys.Seen();
    sys.SnapshotWellFormed();
    var announced := sys.StepBuffer(sys.buffers[h], h, Announce);
    ghost var s1 := sys.Snapshot();
    sys.Seen();
    var written := sys.StepBuffer(sys.buffers[h], h, GpuWrites(seq(PageSize, i => 1)));
    GpuFills(s, s1, sys.Snapshot(), h, seq(PageSize, i => 1), announced, written);
    sys.Seen();
  }

  /** A run in which a byte that the GPU has written is lost: a lookup of more pages replaces the buffer while the work
      that wrote it is being recorded. */
  method RecordingLoses() returns (sys: BufferSystem, ghost before: Memory)
    ensures before(0) == 1 && sys.flat(0) == 0
  {
    hide BufferSystem.ValidBut, BufferSystem.Snapshot, Looks, WellFormed, Untouched;
    var h;
    sys, h := GpuWritten();
    before := sys.flat;
    ghost var s := sys.Snapshot();
    sys.Seen();
    sys.SnapshotWellFormed();
    var v, sources := sys.FindOrCreate(Interval(0, 2 * PageSize), {h}, a => 0);
    LostExactly(s, Interval(0, 2 * PageSize), {h}, Found(v, sources, s.memory), sys.Snapshot(), 0);
    assert RecordsAt(s, Interval(0, 2 * PageSize), h, 0);
  }
}
