/** What ties any number of buffers together: they lie apart, share guest memory, the trap map and one megabuffer, and
    each of them is coherent with what flat memory would hold.  Everything here is about values and single states; the
    operations are those of the buffer system. */
module BufferPools {
  import opened Paging
  import opened IntervalMaps
  import opened Traps
  import opened Buffers
  import opened BufferMerging
  import opened Common

  type Objects = map<Handle, Buffer> // by the handle of their trap
  type Ranges = map<Handle, Interval> // where buffers lie in guest memory
  type Groups = map<Handle, Group<Protection>>
  type Owners = map<nat, Handle> // the buffer that the delegates of a view point at

  /** What all buffers share: flat memory, the megabuffer with the start of its free region, the owner of each view and
      the guest addresses that it stands for, and the views attached to the executor. */
  datatype Shared =
    Shared(flat: Memory, mega: seq<Byte>, free: nat, owner: Owners, places: map<nat, Interval>, attached: set<nat>)

  /** The bytes are those of the memory over the range. */
  ghost predicate Shows(bytes: seq<Byte>, range: Interval, memory: Memory) {
    && |bytes| == range.end - range.start
    && forall a :: range.Contains(a) ==> bytes[a - range.start] == memory(a)
  }

  /** Memory after a write. */
  function Updated(memory: Memory, start: int, data: seq<Byte>): Memory {
    a => if start <= a < start + |data| then data[a - start] else memory(a)
  }

  /** Memory after the mirror of a range was written through: only the range can have changed. */
  ghost predicate WrittenThrough(memory: Memory, memory': Memory, range: Interval, mirror: seq<Byte>) {
    && (forall a :: !range.Contains(a) ==> memory'(a) == memory(a))
    && (Shows(mirror, range, memory) ==> forall a :: memory'(a) == memory(a))
  }

  lemma WritesThrough(memory: Memory, range: Interval, mirror: seq<Byte>)
    requires |mirror| == range.end - range.start
    ensures WrittenThrough(memory, Updated(memory, range.start, mirror), range, mirror)
  {
  }

  /** The data is what flat memory holds from the address on. */
  ghost predicate Reads(data: seq<Byte>, start: int, flat: Memory) {
    forall i :: 0 <= i < |data| ==> data[i] == flat(start + i)
  }

  lemma ShowsWrite(bytes: seq<Byte>, range: Interval, flat: Memory, offset: nat, data: seq<Byte>)
    requires Shows(bytes, range, flat) && offset + |data| <= |bytes|
    ensures Shows(Spliced(bytes, offset, data), range, Updated(flat, range.start + offset, data))
    ensures forall a :: !range.Contains(a) ==> Updated(flat, range.start + offset, data)(a) == flat(a)
  {
  }

  lemma ShowsWhole(bytes: seq<Byte>, range: Interval, flat: Memory)
    requires |bytes| == range.end - range.start
    ensures Shows(bytes, range, Updated(flat, range.start, bytes))
    ensures forall a :: !range.Contains(a) ==> Updated(flat, range.start, bytes)(a) == flat(a)
  {
  }

  lemma ShowsSlice(bytes: seq<Byte>, range: Interval, flat: Memory, offset: nat, size: nat)
    requires Shows(bytes, range, flat) && offset + size <= |bytes|
    ensures Reads(bytes[offset..offset + size], range.start + offset, flat)
  {
    var slice := bytes[offset..offset + size];
    forall i | 0 <= i < size ensures slice[i] == flat(range.start + offset + i) {
      assert range.Contains(range.start + offset + i);
    }
  }

  lemma ShowsView(bytes: seq<Byte>, range: Interval, flat: Memory, view: View, mega: seq<Byte>, at: nat)
    requires Shows(bytes, range, flat) && IsCopy(mega, at, bytes, view)
    ensures at + view.size <= |mega| && Reads(mega[at..at + view.size], range.start + view.offset, flat)
  {
    ShowsSlice(bytes, range, flat, view.offset, view.size);
  }

  /** No buffer lies at the address. */
  ghost predicate Vacant(guest: Ranges, a: int) {
    forall h :: h in guest ==> !guest[h].Contains(a)
  }

  /** Every handle has a buffer of its own, and these lie apart. */
  ghost predicate Apart(buffers: Objects, guest: Ranges) {
    && buffers.Keys == guest.Keys
    && (forall h :: h in guest ==> guest[h].NonEmpty())
    && (forall g, h :: g in buffers && h in buffers && g != h ==>
          buffers[g] != buffers[h] && !guest[g].Overlaps(guest[h]))
  }

  /** The guest addresses of a view of a buffer that starts at the address. */
  function PlaceOf(view: View, start: int): Interval {
    Interval(start + view.offset, start + view.offset + view.size)
  }

  /** The views of a buffer are those that the delegates know it by, each stands for the guest addresses that it was
      asked for, and one that has a copy is attached to the executor. */
  ghost predicate OwnViews(h: Handle, views: map<nat, View>, start: int, w: Shared) {
    && (forall v :: v in views <==> v in w.owner && w.owner[v] == h)
    && (forall v :: v in views ==> v in w.places && w.places[v] == PlaceOf(views[v], start))
    && (forall v :: v in views && views[v].megabufferOffset != 0 ==> v in w.attached)
  }

  /** A buffer is coherent with what flat memory would hold, its copies in the megabuffer are good, and its views are
      in order. */
  ghost predicate Fits(h: Handle, b: Buffer, range: Interval, w: Shared)
    reads b
  {
    && b.Valid() && Shows(b.Contents(), range, w.flat) && Cached(b.views, b.published, w.mega, w.free)
    && OwnViews(h, b.views, range.start, w)
  }

  ghost predicate AllFit(buffers: Objects, guest: Ranges, w: Shared)
    reads set h | h in buffers :: buffers[h]
  {
    forall h :: h in buffers ==> h in guest && Fits(h, buffers[h], guest[h], w)
  }

  /** All buffers but one fit in. */
  ghost predicate OthersFit(buffers: Objects, guest: Ranges, w: Shared, out: Handle)
    reads set h | h in buffers && h != out :: buffers[h]
  {
    forall h :: h in buffers && h != out ==> h in guest && Fits(h, buffers[h], guest[h], w)
  }

  /** The mirror of the buffer shows guest memory, and its trap group demands just what its state calls for. */
  ghost predicate Linked(b: Buffer, range: Interval, memory: Memory, demand: Protection)
    reads b
  {
    Shows(b.mirror, range, memory) && demand == b.trap && b.Exact()
  }

  ghost predicate AllLinked(buffers: Objects, guest: Ranges, memory: Memory, groups: Groups, out: set<Handle>)
    reads set h | h in buffers && h !in out :: buffers[h]
  {
    forall h :: h in buffers && h !in out ==>
      h in guest && h in groups && Linked(buffers[h], guest[h], memory, groups[h].value)
  }

  /** Each buffer has a trap group over just its range, and there are no others. */
  ghost predicate AllTrapped(guest: Ranges, groups: Groups) {
    groups.Keys == guest.Keys && forall h :: h in guest ==> groups[h].intervals == [guest[h]]
  }

  /** The protection of a page when the demand of the buffer over the range has changed, or not. */
  function Level(was: Protection, range: Interval, p: int, before: Protection, after: Protection): Protection {
    if range.Overlaps(Page(p)) && after != before then after else was
  }

  /** One of the buffers is on the page. */
  ghost predicate AnyOn(guest: Ranges, overlaps: seq<Handle>, p: int) {
    exists k :: k in overlaps && k in guest && guest[k].Overlaps(Page(p))
  }

  /** The protection of a page after a merge.  The new trap brings all its pages to the strictest level demanded on any
      of them; the old traps then go, and their pages get the level that the new buffer demands. */
  ghost function MergedLevel(was: Protection, guest: Ranges, overlaps: seq<Handle>, hull: Interval, strict: bool,
                             demand: Protection, p: int): Protection {
    if !hull.Overlaps(Page(p)) then was
    else if AnyOn(guest, overlaps, p) || !strict then demand
    else ReadWrite
  }

  /** The buffer at the address, if any, is on the page. */
  ghost predicate Beside(guest: Ranges, a: int, p: int) {
    exists h :: h in guest && guest[h].Contains(a) && guest[h].Overlaps(Page(p))
  }

  /** A page of this level does not let the guest do that. */
  predicate Refuses(level: Protection, write: bool) { level == ReadWrite || (level == WriteOnly && write) }

  ghost predicate OwnersLive(w: Shared, buffers: Objects) {
    w.places.Keys == w.owner.Keys && forall v :: v in w.owner ==> w.owner[v] in buffers
  }

  /** Where no buffer lies, memory is flat memory. */
  ghost predicate VacantAgree(guest: Ranges, memory: Memory, flat: Memory) {
    forall a :: Vacant(guest, a) ==> memory(a) == flat(a)
  }

  lemma SameOwners(w: Shared, w': Shared, buffers: Objects)
    requires w'.owner == w.owner && w'.places == w.places
    ensures OwnersLive(w, buffers) ==> OwnersLive(w', buffers)
    ensures forall k: Handle :: SameViews(k, w, w')
  {
  }

  // ---- one buffer among all

  /** What the invariant says of one buffer and, apart from it, of all others. */
  lemma Single(buffers: Objects, guest: Ranges, w: Shared, h: Handle)
    requires h in buffers && Apart(buffers, guest) && AllFit(buffers, guest, w)
    ensures h in guest && guest[h].NonEmpty() && Fits(h, buffers[h], guest[h], w)
    ensures buffers[h].Valid() && Shows(buffers[h].Contents(), guest[h], w.flat)
    ensures Cached(buffers[h].views, buffers[h].published, w.mega, w.free)
    ensures OwnViews(h, buffers[h].views, guest[h].start, w)
    ensures |buffers[h].mirror| == |buffers[h].backing| == guest[h].end - guest[h].start
    ensures OthersFit(buffers, guest, w, h) && buffers[h] !in set k | k in buffers && k != h :: buffers[k]
  {
    hide Cached, OwnViews;
  }

  lemma SingleLinked(buffers: Objects, guest: Ranges, memory: Memory, groups: Groups, h: Handle)
    requires h in buffers && h in guest && AllLinked(buffers, guest, memory, groups, {}) && AllTrapped(guest, groups)
    ensures AllLinked(buffers, guest, memory, groups, {h})
    ensures h in groups && groups[h].intervals == [guest[h]]
    ensures Linked(buffers[h], guest[h], memory, groups[h].value) && Shows(buffers[h].mirror, guest[h], memory)
    ensures groups[h].value == buffers[h].trap && buffers[h].Exact()
  {
  }

  lemma TrapOf(guest: Ranges, groups: Groups, h: Handle)
    requires h in guest && AllTrapped(guest, groups)
    ensures h in groups && groups[h].intervals == [guest[h]]
  {
  }

  lemma OneAt(buffers: Objects, guest: Ranges, g: Handle, h: Handle, a: int)
    requires Apart(buffers, guest) && g in guest && h in guest && guest[g].Contains(a) && guest[h].Contains(a)
    ensures g == h && h in buffers
  {
  }

  lemma FitsAgain(h: Handle, b: Buffer, range: Interval, w: Shared)
    requires b.Valid() && Shows(b.Contents(), range, w.flat) && Cached(b.views, b.published, w.mega, w.free)
    requires OwnViews(h, b.views, range.start, w)
    ensures Fits(h, b, range, w)
  {
  }

  /** More has been put into the megabuffer and attached, and nothing that was there has changed. */
  ghost predicate Grown(w: Shared, w': Shared) {
    && w.free <= w'.free <= |w'.mega| && w.free <= |w.mega| && w'.mega[..w.free] == w.mega[..w.free]
    && w.attached <= w'.attached
  }

  lemma GrownOnlyFlat(w: Shared, flat: Memory)
    requires w.free <= |w.mega|
    ensures Grown(w, w.(flat := flat))
  {
  }

  /** The views of the buffer are what they were. */
  ghost predicate SameViews(h: Handle, w: Shared, w': Shared) {
    && (forall v :: (v in w.owner && w.owner[v] == h) <==> (v in w'.owner && w'.owner[v] == h))
    && (forall v :: v in w.owner && w.owner[v] == h && v in w.places ==> v in w'.places && w'.places[v] == w.places[v])
  }

  /** A buffer that has not changed fits in while flat memory changes elsewhere, the megabuffer grows and other buffers
      get views. */
  lemma FitsKept(h: Handle, b: Buffer, range: Interval, w: Shared, w': Shared)
    requires Fits(h, b, range, w) && Grown(w, w') && SameViews(h, w, w')
    requires forall a :: range.Contains(a) ==> w'.flat(a) == w.flat(a)
    ensures Fits(h, b, range, w')
  {
    hide Cached, Buffer.Valid;
    CachedKept(b.views, b.published, b.published, w.mega, w.free, w'.mega, w'.free);
  }

  lemma LinkedKept(b: Buffer, range: Interval, memory: Memory, memory': Memory, demand: Protection)
    requires Linked(b, range, memory, demand) && forall a :: range.Contains(a) ==> memory'(a) == memory(a)
    ensures Linked(b, range, memory', demand)
  {
  }

  /** A write where no buffer lies concerns none. */
  lemma VacantWrite(buffers: Objects, guest: Ranges, memory: Memory, groups: Groups, w: Shared, at: int, x: Byte)
    requires Apart(buffers, guest) && AllFit(buffers, guest, w) && AllLinked(buffers, guest, memory, groups, {})
    requires VacantAgree(guest, memory, w.flat) && Vacant(guest, at) && w.free <= |w.mega|
    ensures AllFit(buffers, guest, w.(flat := Updated(w.flat, at, [x])))
    ensures AllLinked(buffers, guest, Updated(memory, at, [x]), groups, {})
    ensures VacantAgree(guest, Updated(memory, at, [x]), Updated(w.flat, at, [x]))
  {
    hide Fits, Linked, Grown;
    var w', memory' := w.(flat := Updated(w.flat, at, [x])), Updated(memory, at, [x]);
    GrownOnlyFlat(w, w'.flat);
    SameOwners(w, w', buffers);
    forall h | h in buffers
      ensures Fits(h, buffers[h], guest[h], w') && Linked(buffers[h], guest[h], memory', groups[h].value)
    {
      assert !guest[h].Contains(at);
      FitsKept(h, buffers[h], guest[h], w, w');
      LinkedKept(buffers[h], guest[h], memory, memory', groups[h].value);
    }
  }

  /** A group whose demand follows its buffer. */
  lemma DemandFollows(buffers: Objects, guest: Ranges, memory: Memory, groups: Groups, h: Handle, demand: Protection,
                      out: set<Handle>)
    requires h in groups && h in out && AllTrapped(guest, groups) && AllLinked(buffers, guest, memory, groups, out)
    ensures AllTrapped(guest, groups[h := groups[h].(value := demand)])
    ensures AllLinked(buffers, guest, memory, groups[h := groups[h].(value := demand)], out)
  {
  }

  /** Writing the mirror of one buffer through to memory leaves the others as they are. */
  lemma MemoryFollows(buffers: Objects, guest: Ranges, flat: Memory, memory: Memory, groups: Groups, h: Handle,
                      out: set<Handle>)
    requires Apart(buffers, guest) && h in buffers && |buffers[h].mirror| == guest[h].end - guest[h].start
    requires h in groups && groups[h].value == buffers[h].trap && buffers[h].Exact()
    requires h in out && AllLinked(buffers, guest, memory, groups, out) && VacantAgree(guest, memory, flat)
    ensures AllLinked(buffers, guest, Updated(memory, guest[h].start, buffers[h].mirror), groups, out - {h})
    ensures VacantAgree(guest, Updated(memory, guest[h].start, buffers[h].mirror), flat)
  {
    var now := Updated(memory, guest[h].start, buffers[h].mirror);
    forall k | k in buffers && k !in out - {h}
      ensures k in guest && k in groups && Linked(buffers[k], guest[k], now, groups[k].value)
    {
      assert k == h || !guest[k].Overlaps(guest[h]);
    }
    forall a | Vacant(guest, a) ensures now(a) == flat(a) {
      assert !guest[h].Contains(a);
    }
  }

  /** The buffers whose demand a fault has dropped are those that have to follow. */
  lemma DemandsDropped(buffers: Objects, guest: Ranges, memory: Memory, groups: Groups, groups': Groups,
                       ran: seq<Handle>, pending: set<Handle>)
    requires AllTrapped(guest, groups) && AllLinked(buffers, guest, memory, groups, {}) && groups'.Keys == groups.Keys
    requires forall h :: h in groups ==>
      groups'[h] == if h in ran then groups[h].(value := Protection.None) else groups[h]
    requires forall h :: h in pending <==> h in ran
    ensures AllTrapped(guest, groups') && AllLinked(buffers, guest, memory, groups', pending)
  {
  }

  // ---- views and their copies

  lemma OwnsView(h: Handle, views: map<nat, View>, start: int, w: Shared, v: nat)
    requires OwnViews(h, views, start, w) && v in w.owner && w.owner[v] == h
    ensures v in views && v in w.places && w.places[v] == PlaceOf(views[v], start)
  {
  }

  /** A view that gets a copy is attached. */
  lemma OwnsCopied(h: Handle, views: map<nat, View>, views': map<nat, View>, start: int, w: Shared, w': Shared, v: nat)
    requires OwnViews(h, views, start, w) && w.attached <= w'.attached && views'.Keys == views.Keys
    requires w'.owner == w.owner && w'.places == w.places
    requires forall u :: u in views && u != v ==> views'[u] == views[u]
    requires v in views ==> views'[v].offset == views[v].offset && views'[v].size == views[v].size
    requires v in w'.attached || views' == views
    ensures OwnViews(h, views', start, w')
  {
  }

  lemma OwnViewsKept(h: Handle, views: map<nat, View>, start: int, w: Shared, w': Shared)
    requires OwnViews(h, views, start, w) && w'.owner == w.owner && w'.places == w.places && w'.attached == w.attached
    ensures OwnViews(h, views, start, w')
  {
  }

  /** The view exists from now on and stands for its guest addresses. */
  function WithView(w: Shared, v: nat, h: Handle, place: Interval): Shared {
    w.(owner := w.owner[v := h], places := w.places[v := place])
  }

  lemma NewView(buffers: Objects, guest: Ranges, w: Shared, h: Handle, v: nat, view: View)
    requires h in buffers && h in guest && OthersFit(buffers, guest, w, h) && OwnersLive(w, buffers)
    requires OwnViews(h, buffers[h].views, guest[h].start, w) && v !in w.owner && view.megabufferOffset == 0
    requires w.free <= |w.mega|
    ensures var w' := WithView(w, v, h, PlaceOf(view, guest[h].start));
      && OthersFit(buffers, guest, w', h) && OwnersLive(w', buffers)
      && v !in buffers[h].views && OwnViews(h, buffers[h].views[v := view], guest[h].start, w')
  {
    hide Fits;
    var w' := WithView(w, v, h, PlaceOf(view, guest[h].start));
    forall k | k in buffers && k != h ensures k in guest && Fits(k, buffers[k], guest[k], w') {
      FitsKept(k, buffers[k], guest[k], w, w');
    }
  }

  lemma SameRoom(r: PushResult, size: nat, free: nat, capacity: nat, free': nat, capacity': nat)
    requires RoomTaken(r, size, free, capacity, free', capacity')
    ensures capacity' == capacity
  {
  }

  lemma Overran(r: PushResult, size: nat, free: nat, capacity: nat, free': nat, capacity': nat)
    requires RoomTaken(r, size, free, capacity, free', capacity') && r == Overrun
    ensures size <= capacity - free && size > capacity - AlignUp(free)
  {
  }

  /** None of the views has a copy in the megabuffer. */
  ghost predicate NoCopies(views: map<nat, View>) {
    forall v :: v in views ==> views[v].megabufferOffset == 0
  }

  lemma ForgottenFits(h: Handle, views: map<nat, View>, start: int, published: History, w: Shared)
    requires Cached(views, published, w.mega, w.free) && OwnViews(h, views, start, w)
    ensures NoCopies(Forgotten(views, w.attached)) && Cached(Forgotten(views, w.attached), published, w.mega, w.free)
    ensures OwnViews(h, Forgotten(views, w.attached), start, w)
  {
    var kept := Forgotten(views, w.attached);
    forall v | v in kept ensures CachedView(kept[v], published, w.mega, w.free) {
      assert CachedView(views[v], published, w.mega, w.free);
    }
  }

  /** A buffer without copies does not care about the megabuffer. */
  lemma NoCopiesFit(h: Handle, b: Buffer, range: Interval, w: Shared, free: nat)
    requires Fits(h, b, range, w) && NoCopies(b.views)
    ensures Fits(h, b, range, w.(free := free, attached := {}))
  {
    forall v | v in b.views ensures CachedView(b.views[v], b.published, w.mega, free) {
      assert CachedView(b.views[v], b.published, w.mega, w.free);
    }
  }

  // ---- the replacement of buffers by one that holds them

  /** The sources of a merge are the buffers that it replaces. */
  ghost predicate AreSources(sources: seq<Source>, buffers: Objects, guest: Ranges, overlaps: seq<Handle>,
                             recording: set<Handle>)
    reads set h | h in buffers :: buffers[h]
  {
    |sources| == |overlaps| && forall i :: 0 <= i < |overlaps| ==>
      var h := overlaps[i];
      && h in buffers && h in guest
      && sources[i] == Source(guest[h], buffers[h].dirty, buffers[h].backing, h in recording)
  }

  /** The views are those of the listed buffers, at the guest addresses that they had. */
  ghost predicate Adopted(views: map<nat, View>, buffers: Objects, guest: Ranges, owner: Owners, start: int,
                          overlaps: seq<Handle>)
    reads set h | h in buffers :: buffers[h]
  {
    && (forall v :: v in views <==> v in owner && owner[v] in overlaps)
    && (forall v :: v in views ==>
          && owner[v] in buffers && owner[v] in guest && v in buffers[owner[v]].views
          && var was := buffers[owner[v]].views[v]; var shift := guest[owner[v]].start - start;
          && was.offset + shift >= 0
          && views[v] == was.(offset := was.offset + shift, lastAcquiredSequence := InitialSequenceNumber))
  }

  lemma NothingAdopted(buffers: Objects, guest: Ranges, owner: Owners, start: int)
    ensures Adopted(map[], buffers, guest, owner, start, [])
  {
  }

  lemma AdoptedMore(views: map<nat, View>, views': map<nat, View>, buffers: Objects, guest: Ranges, owner: Owners,
                    start: int, overlaps: seq<Handle>, h: Handle)
    requires Adopted(views, buffers, guest, owner, start, overlaps)
    requires h in buffers && h in guest && h !in overlaps && start <= guest[h].start
    requires forall v :: v in buffers[h].views <==> v in owner && owner[v] == h
    requires views' == views + Moved(buffers[h].views, guest[h].start - start)
    ensures Adopted(views', buffers, guest, owner, start, overlaps + [h])
  {
  }

  /** What is left of a map once the listed buffers are replaced by a new one. */
  function Replaced<T>(m: map<Handle, T>, overlaps: seq<Handle>, h: Handle, x: T): map<Handle, T> {
    (map k | k in m && k !in overlaps :: m[k])[h := x]
  }

  lemma ReplacedAt<T>(m: map<Handle, T>, overlaps: seq<Handle>, h: Handle, x: T)
    ensures h in Replaced(m, overlaps, h, x) && Replaced(m, overlaps, h, x)[h] == x
    ensures forall k :: k != h ==> (k in Replaced(m, overlaps, h, x) <==> k in m && k !in overlaps)
    ensures forall k :: k in Replaced(m, overlaps, h, x) && k != h ==> Replaced(m, overlaps, h, x)[k] == m[k]
  {
  }

  /** The delegates of all views of the listed buffers point at the new one. */
  function Repointed(owner: Owners, overlaps: seq<Handle>, h: Handle): Owners {
    map v | v in owner :: if owner[v] in overlaps then h else owner[v]
  }

  /** Flat memory after a merge: the GPU's bytes in sources still being recorded give way to those of guest memory. */
  ghost function Reverted(flat: Memory, sources: seq<Source>, memory: Memory): Memory {
    if sources == [] then flat else a => if StillRecording(sources, a) then memory(a) else flat(a)
  }

  lemma NoneRecording(sources: seq<Source>, a: int)
    requires forall i :: 0 <= i < |sources| ==> !Recording(sources[i])
    ensures !StillRecording(sources, a)
  {
  }

  /** The listed buffers are exactly those that overlap the range, and it holds them. */
  ghost predicate Holding(guest: Ranges, hull: Interval, overlaps: seq<Handle>) {
    && hull.NonEmpty()
    && (forall k :: k in guest && guest[k].Overlaps(hull) ==> k in overlaps)
    && (forall k :: k in overlaps ==>
          k in guest && guest[k].Overlaps(hull) && hull.start <= guest[k].start && guest[k].end <= hull.end)
    && (forall i, j :: 0 <= i < j < |overlaps| ==> overlaps[i] != overlaps[j])
  }

  /** A new buffer over the hull, with contents and views, that has not taken its place yet. */
  ghost predicate Ready(b: Buffer, buffers: Objects, guest: Ranges, owner: Owners, hull: Interval,
                        overlaps: seq<Handle>, memory: Memory, flat: Memory)
    reads b, set h | h in buffers :: buffers[h]
  {
    && b !in (set k | k in buffers :: buffers[k])
    && b.Valid() && Shows(b.Contents(), hull, flat) && Shows(b.mirror, hull, memory)
    && b.published == map[] && b.trap != Protection.None && b.Exact()
    && Adopted(b.views, buffers, guest, owner, hull.start, overlaps)
  }

  lemma ReadyTrap(b: Buffer, buffers: Objects, guest: Ranges, owner: Owners, hull: Interval, overlaps: seq<Handle>,
                  memory: Memory, flat: Memory)
    requires Ready(b, buffers, guest, owner, hull, overlaps, memory, flat)
    ensures b.trap != Protection.None && b.trap == Demand(b.dirty)
  {
  }

  lemma RepointedKeys(owner: Owners, overlaps: seq<Handle>, h: Handle)
    ensures Repointed(owner, overlaps, h).Keys == owner.Keys
  {
  }

  /** What all buffers share once the new one has taken its place. */
  function MergedShared(w: Shared, flat: Memory, overlaps: seq<Handle>, h: Handle): Shared {
    w.(flat := flat, owner := Repointed(w.owner, overlaps, h))
  }

  /** The new buffer and the remaining ones fit in. */
  lemma MergedFit(buffers: Objects, guest: Ranges, w: Shared, hull: Interval, overlaps: seq<Handle>, h: Handle,
                  b: Buffer, memory: Memory, flat: Memory)
    requires Apart(buffers, guest) && AllFit(buffers, guest, w) && OwnersLive(w, buffers) && w.free <= |w.mega|
    requires h !in buffers && Holding(guest, hull, overlaps)
    requires forall a :: !hull.Contains(a) ==> flat(a) == w.flat(a)
    requires Ready(b, buffers, guest, w.owner, hull, overlaps, memory, flat)
    ensures AllFit(Replaced(buffers, overlaps, h, b), Replaced(guest, overlaps, h, hull),
      MergedShared(w, flat, overlaps, h))
  {
    hide Fits, Buffer.Valid, Shows, Adopted, Cached, OwnViews, Repointed, Holding, OwnersLive;
    var w' := MergedShared(w, flat, overlaps, h);
    forall k | k in buffers && k !in overlaps ensures k in guest && Fits(k, buffers[k], guest[k], w') {
      StillFits(buffers, guest, w, hull, overlaps, h, flat, k);
    }
    AdoptedOwn(buffers, guest, w, hull, overlaps, h, b.views, flat);
    FitsAgain(h, b, hull, w');
  }

  lemma StillFits(buffers: Objects, guest: Ranges, w: Shared, hull: Interval, overlaps: seq<Handle>, h: Handle,
                  flat: Memory, k: Handle)
    requires k in buffers && k in guest && k !in overlaps && guest[k].NonEmpty() && Fits(k, buffers[k], guest[k], w)
    requires h !in buffers && OwnersLive(w, buffers) && w.free <= |w.mega| && Holding(guest, hull, overlaps)
    requires forall a :: !hull.Contains(a) ==> flat(a) == w.flat(a)
    ensures Fits(k, buffers[k], guest[k], MergedShared(w, flat, overlaps, h))
  {
    hide Fits;
    assert !guest[k].Overlaps(hull);
    FitsKept(k, buffers[k], guest[k], w, MergedShared(w, flat, overlaps, h));
  }

  lemma AdoptedOwn(buffers: Objects, guest: Ranges, w: Shared, hull: Interval, overlaps: seq<Handle>, h: Handle,
                   views: map<nat, View>, flat: Memory)
    requires AllFit(buffers, guest, w) && h !in buffers && OwnersLive(w, buffers)
    requires Adopted(views, buffers, guest, w.owner, hull.start, overlaps)
    ensures OwnViews(h, views, hull.start, MergedShared(w, flat, overlaps, h)) && Cached(views, map[], w.mega, w.free)
  {
    hide Fits;
    forall v | v in views
      ensures v in w.places && w.places[v] == PlaceOf(views[v], hull.start)
      ensures views[v].megabufferOffset != 0 ==> v in w.attached
    {
      ViewInPlace(w.owner[v], buffers[w.owner[v]], guest[w.owner[v]], w, v);
    }
  }

  lemma ViewInPlace(h: Handle, b: Buffer, range: Interval, w: Shared, v: nat)
    requires Fits(h, b, range, w) && v in b.views
    ensures v in w.places && w.places[v] == PlaceOf(b.views[v], range.start)
    ensures b.views[v].megabufferOffset != 0 ==> v in w.attached
  {
  }

  lemma MergedApart(buffers: Objects, guest: Ranges, hull: Interval, overlaps: seq<Handle>, h: Handle, b: Buffer)
    requires Apart(buffers, guest) && h !in buffers && b !in set k | k in buffers :: buffers[k]
    requires Holding(guest, hull, overlaps)
    ensures Apart(Replaced(buffers, overlaps, h, b), Replaced(guest, overlaps, h, hull))
  {
  }

  /** The trap map after a merge: the group of the new buffer has come, those of the replaced ones have gone. */
  ghost predicate Retrapped(groups: Groups, groups': Groups, overlaps: seq<Handle>, h: Handle,
                            group: Group<Protection>) {
    && h !in groups && h in groups' && groups'[h] == group
    && (forall k :: k in groups' && k != h <==> k in groups && k !in overlaps)
    && (forall k :: k in groups' && k != h ==> groups'[k] == groups[k])
  }

  lemma MergedLinked(buffers: Objects, guest: Ranges, memory: Memory, memory': Memory, groups: Groups, groups': Groups,
                     hull: Interval, overlaps: seq<Handle>, h: Handle, b: Buffer)
    requires AllLinked(buffers, guest, memory, groups, {}) && AllTrapped(guest, groups) && h !in buffers && h !in guest
    requires forall k :: k in guest && k !in overlaps ==> !guest[k].Overlaps(hull)
    requires forall a :: !hull.Contains(a) ==> memory'(a) == memory(a)
    requires Shows(b.mirror, hull, memory') && b.Exact()
    requires Retrapped(groups, groups', overlaps, h, Group([hull], b.trap))
    ensures AllTrapped(Replaced(guest, overlaps, h, hull), groups')
    ensures AllLinked(Replaced(buffers, overlaps, h, b), Replaced(guest, overlaps, h, hull), memory', groups', {})
  {
    hide Linked, Shows;
    forall k | k in buffers && k !in overlaps
      ensures k in guest && k in groups' && Linked(buffers[k], guest[k], memory', groups'[k].value)
    {
      LinkedKept(buffers[k], guest[k], memory, memory', groups[k].value);
    }
    LinkedIs(b, hull, memory');
  }

  lemma LinkedIs(b: Buffer, range: Interval, memory: Memory)
    requires Shows(b.mirror, range, memory) && b.Exact()
    ensures Linked(b, range, memory, b.trap)
  {
  }

  lemma MergedVacant(guest: Ranges, memory: Memory, memory': Memory, flat: Memory, flat': Memory, hull: Interval,
                     overlaps: seq<Handle>, h: Handle)
    requires VacantAgree(guest, memory, flat) && Holding(guest, hull, overlaps) && h !in guest
    requires forall a :: !hull.Contains(a) ==> memory'(a) == memory(a) && flat'(a) == flat(a)
    ensures VacantAgree(Replaced(guest, overlaps, h, hull), memory', flat')
  {
    var guest' := Replaced(guest, overlaps, h, hull);
    forall a | Vacant(guest', a) ensures memory'(a) == flat'(a) {
      assert guest'[h] == hull && !hull.Contains(a);
      forall k | k in guest ensures !guest[k].Contains(a) {
        assert k !in overlaps ==> k in guest' && guest'[k] == guest[k];
      }
    }
  }

  /** Everything that ties buffers together. */
  ghost predicate Tied(buffers: Objects, guest: Ranges, memory: Memory, groups: Groups, w: Shared)
    reads set h | h in buffers :: buffers[h]
  {
    && Apart(buffers, guest) && AllTrapped(guest, groups) && AllFit(buffers, guest, w)
    && AllLinked(buffers, guest, memory, groups, {}) && OwnersLive(w, buffers) && VacantAgree(guest, memory, w.flat)
  }

  lemma TiedNew(buffers: Objects, guest: Ranges, memory: Memory, groups: Groups, w: Shared, h: Handle)
    requires Tied(buffers, guest, memory, groups, w) && h !in groups
    ensures h !in guest && h !in buffers
  {
  }

  /** Everything that ties buffers together holds after the replacement. */
  lemma MergedState(buffers: Objects, guest: Ranges, memory: Memory, groups: Groups, w: Shared, hull: Interval,
                    overlaps: seq<Handle>, h: Handle, b: Buffer, memory': Memory, flat': Memory, groups': Groups)
    requires Tied(buffers, guest, memory, groups, w) && Holding(guest, hull, overlaps) && w.free <= |w.mega|
    requires forall a :: !hull.Contains(a) ==> memory'(a) == memory(a) && flat'(a) == w.flat(a)
    requires Ready(b, buffers, guest, w.owner, hull, overlaps, memory', flat')
    requires Retrapped(groups, groups', overlaps, h, Group([hull], b.trap))
    ensures h !in buffers && h !in guest
    ensures Tied(Replaced(buffers, overlaps, h, b), Replaced(guest, overlaps, h, hull), memory', groups',
                 MergedShared(w, flat', overlaps, h))
  {
    hide AllFit, AllLinked, VacantAgree, Shows, Buffer.Valid, Adopted;
    MergedFit(buffers, guest, w, hull, overlaps, h, b, memory', flat');
    MergedApart(buffers, guest, hull, overlaps, h, b);
    MergedLinked(buffers, guest, memory, memory', groups, groups', hull, overlaps, h, b);
    MergedVacant(guest, memory, memory', w.flat, flat', hull, overlaps, h);
  }
}
