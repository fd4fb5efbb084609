/** The machine that the buffer system refines: one flat memory that guest, GPU and executor write and read.  A state
    is what can be told of all buffers from outside; each action has one event, which the state before it decides up to
    the bytes shown, and these are those of flat memory. */
module FlatMachines {
  import opened Paging
  import opened Traps
  import opened IntervalMaps
  import opened Buffers
  import opened BufferMerging
  import opened BufferPools
  import opened Common

  /** Where buffers lie, how they stand and whether they ever had an inline update; what views belong to and stand for;
      how far the megabuffer is used; how pages are protected; what guest memory holds, and what it would hold if there
      were no buffers. */
  datatype State = State(
    guest: Ranges, dirty: map<Handle, DirtyState>, inlined: map<Handle, bool>,
    owner: Owners, places: map<nat, Interval>, free: nat, capacity: nat, levels: int -> Protection, memory: Memory,
    flat: Memory)

  /** What is done to one buffer. */
  datatype Use =
    | HostSync(rwTrap: bool)
    | GuestSync(nonBlocking: bool, signalled: bool)
    | Announce
    | GpuWrites(contents: seq<Byte>)
    | InlineWrites(data: seq<Byte>, offset: nat)
    | BufferReads(offset: nat, size: nat)

  datatype Action =
    | GuestWrites(a: int, x: Byte)
    | GuestReads(a: int)
    | OnBuffer(h: Handle, what: Use)
    | Finds(requested: Interval, recording: set<Handle>, garbage: Memory)
    | Acquires(v: nat, signalled: bool)
    | Pushes(data: seq<Byte>)
    | Submits

  // In a lookup, `recording` holds the buffers that pass for taking part in the work being recorded.

  /** What an action writes, shows or finds.  A lookup that replaces buffers names them and guest memory as it was. */
  datatype Event =
    | Silent
    | Wrote(start: int, data: seq<Byte>)
    | Saw(start: int, data: seq<Byte>)
    | Found(view: nat, sources: seq<Source>, memory: Memory)

  /** Flat memory after an event. */
  ghost function After(flat: Memory, e: Event): Memory {
    match e
    case Wrote(start, data) => Updated(flat, start, data)
    case Found(_, sources, memory) => Reverted(flat, sources, memory)
    case _ => flat
  }

  /** The event shows so many bytes from the address on. */
  ghost predicate ShowsAt(e: Event, start: int, size: int) {
    e.Saw? && e.start == start && |e.data| == size
  }

  // ---- states

  /** Buffers lie apart, views in their owners, guest memory is flat memory wherever no buffer is GPU dirty, and pages
      are protected wherever a buffer calls for it and nowhere else than under buffers. */
  ghost predicate WellFormed(s: State) {
    && s.dirty.Keys == s.guest.Keys && s.inlined.Keys == s.guest.Keys && s.places.Keys == s.owner.Keys
    && (forall h :: h in s.guest ==> s.guest[h].Aligned() && s.guest[h].NonEmpty())
    && (forall g, h :: g in s.guest && h in s.guest && g != h ==> !s.guest[g].Overlaps(s.guest[h]))
    && (forall v :: v in s.owner ==> s.owner[v] in s.guest && HoldsAll(s.guest[s.owner[v]], s.places[v]))
    && (forall a :: !Shielding(s, a) ==> s.memory(a) == s.flat(a))
    && (forall h, p :: h in s.guest && s.guest[h].Overlaps(Page(p)) ==>
          Demand(s.dirty[h]).Rank() <= s.levels(p).Rank())
    && (forall p :: s.levels(p) != Protection.None ==> OnSome(s.guest, p))
  }

  /** Some buffer is on the page. */
  ghost predicate OnSome(guest: Ranges, p: int) {
    exists h :: h in guest && guest[h].Overlaps(Page(p))
  }

  predicate HoldsAll(range: Interval, part: Interval) {
    range.start <= part.start <= part.end <= range.end
  }

  /** A GPU dirty buffer lies at the address. */
  ghost predicate Shielding(s: State, a: int) {
    exists h :: h in s.guest && h in s.dirty && s.dirty[h] == GpuDirty && s.guest[h].Contains(a)
  }

  /** Buffers and views are what they were. */
  ghost predicate Still(s: State, s': State) {
    s'.guest == s.guest && s'.owner == s.owner && s'.places == s.places && s'.capacity == s.capacity
  }

  /** Pages keep their levels, but for those of a buffer whose demand has changed: they have just what it demands. */
  ghost predicate Relevels(s: State, s': State, h: Handle)
    requires h in s.guest && h in s.dirty && h in s'.dirty
  {
    forall p :: s'.levels(p) == Level(s.levels(p), s.guest[h], p, Demand(s.dirty[h]), Demand(s'.dirty[h]))
  }

  ghost predicate SameLevels(s: State, s': State) {
    forall p :: s'.levels(p) == s.levels(p)
  }

  /** Guest memory is not touched under a buffer that is GPU dirty afterwards. */
  ghost predicate Untouched(s: State, s': State) {
    forall h, a :: h in s.guest && h in s'.dirty && s'.dirty[h] == GpuDirty && s.guest[h].Contains(a) ==>
      s'.memory(a) == s.memory(a)
  }

  lemma UntouchedBy(s: State, s': State, h: Handle)
    requires h in s.guest && h in s'.dirty
    requires forall k, a :: k in s.guest && k != h && s.guest[k].Contains(a) ==> !s.guest[h].Contains(a)
    requires forall a :: s'.memory(a) == s.memory(a) || (s.guest[h].Contains(a) && s'.dirty[h] != GpuDirty)
    ensures Untouched(s, s')
  {
  }

  // ---- actions

  /** Whether a use takes place on a buffer of that state and size. */
  predicate TakesPlace(d: DirtyState, size: int, what: Use) {
    match what
    case Announce => d != CpuDirty
    case GpuWrites(contents) => d == GpuDirty && |contents| == size
    case InlineWrites(data, offset) => offset + |data| <= size
    case BufferReads(offset, n) => offset + n <= size
    case _ => true
  }

  function DirtyAfter(d: DirtyState, what: Use): DirtyState {
    match what
    case HostSync(rwTrap) => if d != CpuDirty then d else if rwTrap then GpuDirty else Clean
    case GuestSync(nonBlocking, signalled) => if d == GpuDirty && (!nonBlocking || signalled) then Clean else d
    case Announce => GpuDirty
    case GpuWrites(_) => d
    case InlineWrites(_, _) => Clean
    case BufferReads(_, _) => if d == GpuDirty then Clean else d
  }

  ghost predicate Reports(start: int, what: Use, e: Event) {
    match what
    case GpuWrites(contents) => e == Wrote(start, contents)
    case InlineWrites(data, offset) => e == Wrote(start + offset, data)
    case BufferReads(offset, n) => ShowsAt(e, start + offset, n)
    case _ => e == Silent
  }

  /** A use of one buffer. */
  ghost predicate Uses(s: State, h: Handle, what: Use, e: Event, s': State)
    requires h in s.guest && h in s.dirty && h in s.inlined
  {
    var range := s.guest[h];
    if TakesPlace(s.dirty[h], range.end - range.start, what) then
      && Still(s, s') && s'.free == s.free && Reports(range.start, what, e)
      && s'.dirty == s.dirty[h := DirtyAfter(s.dirty[h], what)] && Relevels(s, s', h)
      && s'.inlined == s.inlined[h := s.inlined[h] || what.InlineWrites?]
    else
      e == Silent && s' == s
  }

  /** An access of the guest changes something but flat memory only if its page refuses it: then the buffer there
      becomes CPU dirty, and all its pages are opened. */
  ghost predicate Accesses(s: State, a: int, write: bool, s': State) {
    var refused := Refuses(s.levels(a / PageSize), write);
    && Still(s, s') && s'.free == s.free && s'.inlined == s.inlined && s'.dirty.Keys == s.dirty.Keys
    && (forall h :: h in s.dirty && h in s.guest ==>
          s'.dirty[h] == if refused && s.guest[h].Contains(a) then CpuDirty else s.dirty[h])
    && (forall p :: s'.levels(p) == if refused && Beside(s.guest, a, p) then Protection.None else s.levels(p))
    && (!refused && !write ==> forall k :: s'.memory(k) == s.memory(k))
  }

  /** A write leaves the buffer that it goes to CPU dirty, and a read leaves it not GPU dirty. */
  lemma AccessSettles(s: State, action: Action, e: Event, s': State, h: Handle)
    requires WellFormed(s) && Next(s, action, e, s') && (action.GuestWrites? || action.GuestReads?)
    requires h in s.guest && s.guest[h].Contains(action.a)
    ensures h in s'.dirty && s'.dirty[h] != GpuDirty && (action.GuestWrites? ==> s'.dirty[h] == CpuDirty)
  {
    hide Reads, After, Untouched, Still, WellFormed, Beside;
    GuardedAt(s, h, action.a);
    WellFormedKeys(s);
  }

  /** A host synchronization leaves no guest write unseen by the GPU and a blocking guest synchronization no GPU write
      unseen by the guest; an announcement takes effect unless there are guest writes to pick up first; an inline write
      and a read through a buffer take place exactly when they lie in it. */
  lemma UseSettles(s: State, h: Handle, what: Use, e: Event, s': State)
    requires WellFormed(s) && h in s.guest && Next(s, OnBuffer(h, what), e, s')
    ensures h in s.dirty && h in s'.dirty
    ensures what.HostSync? ==>
      s'.dirty[h] == if s.dirty[h] == CpuDirty then if what.rwTrap then GpuDirty else Clean else s.dirty[h]
    ensures what.GuestSync? && !what.nonBlocking ==> s'.dirty[h] == if s.dirty[h] == GpuDirty then Clean else s.dirty[h]
    ensures what.Announce? ==> (s'.dirty[h] == GpuDirty <==> s.dirty[h] != CpuDirty)
    ensures what.GpuWrites? ==>
      if s.dirty[h] == GpuDirty && |what.contents| == s.guest[h].end - s.guest[h].start
      then e == Wrote(s.guest[h].start, what.contents) else e.Silent?
    ensures what.InlineWrites? ==>
      if s.guest[h].start + what.offset + |what.data| <= s.guest[h].end
      then e == Wrote(s.guest[h].start + what.offset, what.data) else e.Silent?
    ensures what.BufferReads? ==>
      if s.guest[h].start + what.offset + what.size <= s.guest[h].end
      then ShowsAt(e, s.guest[h].start + what.offset, what.size) else e.Silent?
    ensures what.InlineWrites? && e.Wrote? ==> s'.dirty[h] == Clean
    ensures what.BufferReads? && e.Saw? ==> s'.dirty[h] == if s.dirty[h] == GpuDirty then Clean else s.dirty[h]
  {
    hide Reads, After, Untouched, Still, WellFormed, Relevels;
    WellFormedKeys(s);
  }

  lemma WellFormedKeys(s: State)
    requires WellFormed(s)
    ensures s.dirty.Keys == s.guest.Keys && s.inlined.Keys == s.guest.Keys && s.places.Keys == s.owner.Keys
  {
  }

  /** The page of an address in a buffer is protected as the buffer calls for. */
  lemma GuardedAt(s: State, h: Handle, a: int)
    requires WellFormed(s) && h in s.guest && s.guest[h].Contains(a)
    ensures h in s.dirty && Demand(s.dirty[h]).Rank() <= s.levels(a / PageSize).Rank()
  {
    hide Shielding, HoldsAll, OnSome;
    assert s.guest[h].Overlaps(Page(a / PageSize));
  }

  /** The view gets no copy: its buffer has never had an inline update, the view is too large, or what it shows is not
      known yet. */
  ghost predicate Unsuited(s: State, v: nat, signalled: bool)
    requires v in s.owner && s.owner[v] in s.dirty && s.owner[v] in s.inlined && v in s.places
  {
    var h := s.owner[v];
    || !s.inlined[h] || s.places[v].end - s.places[v].start > MegaBufferingDisableThreshold
    || (s.dirty[h] == GpuDirty && !signalled)
  }

  /** The copy of a view in the megabuffer shows the addresses of the view; there is none if the view is unsuited, and
      otherwise only if the megabuffer has no room. */
  ghost predicate Copies(s: State, v: nat, signalled: bool, e: Event, s': State)
    requires v in s.owner && s.owner[v] in s.dirty && s.owner[v] in s.inlined && v in s.places
  {
    var h, place := s.owner[v], s.places[v];
    var size := place.end - place.start;
    && Still(s, s') && s'.inlined == s.inlined && s'.dirty.Keys == s.dirty.Keys + {h} && h in s.guest
    && Relevels(s, s', h)
    && (if Unsuited(s, v, signalled) then
          && e == Silent && s'.free == s.free
          && s'.dirty == s.dirty[h := if s.dirty[h] == CpuDirty then Clean else s.dirty[h]]
        else
          && s'.dirty == s.dirty[h := Clean]
          && (|| (e == Silent && size > s.capacity - s.free && s'.free == s.free)
              || (ShowsAt(e, place.start, size) && (s'.free == s.free || s'.free == AlignUp(s.free) + size))))
  }

  /** The sources are these buffers; what a GPU dirty one holds is what flat memory holds. */
  ghost predicate FromSources(s: State, overlaps: seq<Handle>, recording: set<Handle>, sources: seq<Source>) {
    |sources| == |overlaps| && forall i :: 0 <= i < |overlaps| ==>
      && overlaps[i] in s.guest && overlaps[i] in s.dirty
      && sources[i].guest == s.guest[overlaps[i]] && sources[i].dirty == s.dirty[overlaps[i]]
      && (sources[i].inCurrentCycle <==> overlaps[i] in recording)
      && (sources[i].dirty == GpuDirty ==> Shows(sources[i].backing, sources[i].guest, s.flat))
  }

  /** A buffer over the hull replaces the listed ones. */
  ghost predicate Replaces(s: State, mapping: Interval, recording: set<Handle>, e: Event, s': State,
                           h: Handle, hull: Interval, overlaps: seq<Handle>)
    requires e.Found?
  {
    && h !in s.guest && Holding(s.guest, hull, overlaps) && HoldsAll(hull, mapping)
    && (forall a :: hull.Contains(a) && !mapping.Contains(a) ==> !Vacant(s.guest, a))
    && (forall k :: k in overlaps && k in s.guest ==> s.guest[k].Overlaps(mapping))
    && FromSources(s, overlaps, recording, e.sources)
    && s'.guest == Replaced(s.guest, overlaps, h, hull) && s'.inlined == Replaced(s.inlined, overlaps, h, false)
    && s'.dirty == Replaced(s.dirty, overlaps, h,
                            if exists i :: 0 <= i < |e.sources| && Recording(e.sources[i]) then GpuDirty else Clean)
    && e.view in s'.owner && s'.owner[e.view] == h
    && (forall v :: v in s.owner && v != e.view ==>
          v in s'.owner && s'.owner[v] == if s.owner[v] in overlaps then h else s.owner[v])
    && (forall a :: s'.memory(a) == if hull.Contains(a) then s.flat(a) else s.memory(a))
    && h in s'.dirty && MergeLevels(s, s', hull, overlaps, Demand(s'.dirty[h]))
  }

  ghost predicate MergeLevels(s: State, s': State, hull: Interval, overlaps: seq<Handle>, demand: Protection) {
    var strict := AnyGpuDirty(s.dirty, overlaps);
    forall p :: s'.levels(p) == MergedLevel(s.levels(p), s.guest, overlaps, hull, strict, demand, p)
  }

  ghost predicate AnyGpuDirty(dirty: map<Handle, DirtyState>, overlaps: seq<Handle>) {
    exists k :: k in overlaps && k in dirty && dirty[k] == GpuDirty
  }

  /** A lookup yields a view of exactly the requested addresses, of a buffer that holds their pages; every other view
      stands for what it stood for. */
  ghost predicate Looks(s: State, requested: Interval, recording: set<Handle>, e: Event, s': State) {
    && e.Found? && e.memory == s.memory && s'.free == s.free && s'.capacity == s.capacity
    && e.view in s'.places && s'.places[e.view] == requested && s'.owner.Keys == s'.places.Keys
    && (s'.places == s.places || (e.view !in s.places && s'.places == s.places[e.view := requested]))
    && var mapping := requested.Align();
    if exists h :: h in s.guest && HoldsAll(s.guest[h], mapping) then
      && e.sources == [] && s'.guest == s.guest && s'.dirty == s.dirty && s'.inlined == s.inlined
      && (forall a :: s'.memory(a) == s.memory(a)) && SameLevels(s, s')
      && e.view in s'.owner && s'.owner[e.view] in s.guest
      && HoldsAll(s.guest[s'.owner[e.view]], mapping)
      && (forall v :: v in s.owner ==> v in s'.owner && s'.owner[v] == s.owner[v])
    else
      exists h, hull, overlaps :: Replaces(s, mapping, recording, e, s', h, hull, overlaps)
  }

  /** One step of the machine. */
  ghost predicate Next(s: State, action: Action, e: Event, s': State) {
    && s'.flat == After(s.flat, e) && (e.Saw? ==> Reads(e.data, e.start, s.flat)) && Untouched(s, s')
    && match action
       case GuestWrites(a, x) => e == Wrote(a, [x]) && Accesses(s, a, true, s')
       case GuestReads(a) => ShowsAt(e, a, 1) && Accesses(s, a, false, s')
       case OnBuffer(h, what) =>
         if h in s.guest && h in s.dirty && h in s.inlined then Uses(s, h, what, e, s') else e == Silent && s' == s
       case Finds(requested, recording, _) =>
         if requested.NonEmpty() then Looks(s, requested, recording, e, s') else e == Silent && s' == s
       case Acquires(v, signalled) =>
         if v in s.owner && s.owner[v] in s.dirty && s.owner[v] in s.inlined && v in s.places
         then Copies(s, v, signalled, e, s') else e == Silent && s' == s
       case Pushes(data) =>
         && e == Silent && Still(s, s') && s'.dirty == s.dirty && s'.inlined == s.inlined && s'.memory == s.memory
         && SameLevels(s, s')
         && s'.free == if |data| <= s.capacity - s.free then s.free + |data| else s.free
       case Submits =>
         && e == Silent && Still(s, s') && s'.dirty == s.dirty && s'.inlined == s.inlined && s'.free == PageSize
         && SameLevels(s, s')
  }

  lemma UsesNext(s: State, s': State, h: Handle, what: Use, e: Event)
    requires Still(s, s') && s'.free == s.free && Untouched(s, s') && h in s.guest && h in s.dirty && h in s.inlined
    requires TakesPlace(s.dirty[h], s.guest[h].end - s.guest[h].start, what) && Reports(s.guest[h].start, what, e)
    requires s'.dirty == s.dirty[h := DirtyAfter(s.dirty[h], what)] && Relevels(s, s', h)
    requires s'.inlined == s.inlined[h := s.inlined[h] || what.InlineWrites?]
    requires s'.flat == After(s.flat, e) && (e.Saw? ==> Reads(e.data, e.start, s.flat))
    ensures Next(s, OnBuffer(h, what), e, s')
  {
    hide TakesPlace, DirtyAfter, Reports, Reads, After, Untouched, Relevels;
  }

  lemma CopiesNext(s: State, s': State, v: nat, signalled: bool, e: Event)
    requires v in s.owner && s.owner[v] in s.dirty && s.owner[v] in s.inlined && v in s.places
    requires Copies(s, v, signalled, e, s') && Untouched(s, s') && s'.flat == s.flat && !e.Wrote? && !e.Found?
    requires e.Saw? ==> Reads(e.data, e.start, s.flat)
    ensures Next(s, Acquires(v, signalled), e, s')
  {
    hide Copies, Untouched, Reads;
  }

  lemma AccessesNext(s: State, s': State, action: Action, e: Event)
    requires (action.GuestWrites? && e == Wrote(action.a, [action.x])) ||
      (action.GuestReads? && ShowsAt(e, action.a, 1))
    requires Accesses(s, action.a, action.GuestWrites?, s') && Untouched(s, s') && s'.flat == After(s.flat, e)
    requires e.Saw? ==> Reads(e.data, e.start, s.flat)
    ensures Next(s, action, e, s')
  {
    hide Accesses, Untouched, Reads, After;
  }

  /** A lookup that a buffer already holds. */
  lemma LooksInto(s: State, s': State, requested: Interval, recording: set<Handle>, h: Handle, v: nat)
    requires h in s.guest && HoldsAll(s.guest[h], requested.Align()) && s'.free == s.free && s'.capacity == s.capacity
    requires s'.guest == s.guest && s'.dirty == s.dirty && s'.inlined == s.inlined
    requires v in s'.owner && s'.owner[v] == h && v in s'.places && s'.places[v] == requested
    requires s'.owner.Keys == s'.places.Keys && s.owner.Keys == s.places.Keys
    requires (s'.places == s.places && s'.owner == s.owner) ||
      (v !in s.places && s'.places == s.places[v := requested] && s'.owner == s.owner[v := h])
    requires (forall a :: s'.memory(a) == s.memory(a)) && SameLevels(s, s')
    ensures Looks(s, requested, recording, Found(v, [], s.memory), s')
  {
    hide HoldsAll, SameLevels;
  }

  /** Nobody holds the mapping; a buffer over the hull would hold it, the listed ones and nothing else. */
  ghost predicate Placing(s: State, mapping: Interval, hull: Interval, overlaps: seq<Handle>) {
    && Holding(s.guest, hull, overlaps) && HoldsAll(hull, mapping)
    && (forall h :: h in s.guest ==> !HoldsAll(s.guest[h], mapping))
    && (forall a :: hull.Contains(a) && !mapping.Contains(a) ==> !Vacant(s.guest, a))
    && (forall k :: k in overlaps && k in s.guest ==> s.guest[k].Overlaps(mapping))
  }

  lemma PlacingHolds(s: State, mapping: Interval, hull: Interval, overlaps: seq<Handle>)
    requires Placing(s, mapping, hull, overlaps)
    ensures Holding(s.guest, hull, overlaps) && hull.NonEmpty() && HoldsAll(hull, mapping)
  {
  }

  /** A lookup for which a buffer is created. */
  lemma LooksAnew(s: State, s': State, requested: Interval, recording: set<Handle>, hull: Interval,
                  overlaps: seq<Handle>, h: Handle, v: nat, sources: seq<Source>)
    requires Placing(s, requested.Align(), hull, overlaps) && h !in s.guest
    requires FromSources(s, overlaps, recording, sources)
    requires s.dirty.Keys == s.guest.Keys && s.owner.Keys == s.places.Keys
    requires s'.guest == Replaced(s.guest, overlaps, h, hull) && s'.inlined == Replaced(s.inlined, overlaps, h, false)
    requires s'.dirty == Replaced(s.dirty, overlaps, h,
                                  if exists i :: 0 <= i < |sources| && Recording(sources[i]) then GpuDirty else Clean)
    requires v in s'.owner && s'.owner[v] == h && v in s'.places && s'.places[v] == requested
    requires (s'.places == s.places && s'.owner == Repointed(s.owner, overlaps, h)) ||
      (v !in s.places && s'.places == s.places[v := requested] && s'.owner == Repointed(s.owner, overlaps, h)[v := h])
    requires s'.free == s.free && s'.capacity == s.capacity
    requires forall a :: s'.memory(a) == if hull.Contains(a) then s.flat(a) else s.memory(a)
    requires h in s'.dirty && MergeLevels(s, s', hull, overlaps, Demand(s'.dirty[h]))
    ensures Looks(s, requested, recording, Found(v, sources, s.memory), s') && Untouched(s, s')
  {
    hide HoldsAll, FromSources, Holding, Vacant, Untouched, MergeLevels;
    RepointedKeys(s.owner, overlaps, h);
    assert Replaces(s, requested.Align(), recording, Found(v, sources, s.memory), s', h, hull, overlaps);
    MergeLeaves(s, s', hull, overlaps, h);
  }

  /** A merge does not touch guest memory under the other buffers. */
  lemma MergeLeaves(s: State, s': State, hull: Interval, overlaps: seq<Handle>, h: Handle)
    requires Holding(s.guest, hull, overlaps) && h !in s.guest
    requires forall k :: k in s'.dirty && k != h ==> k !in overlaps
    requires forall a :: !hull.Contains(a) ==> s'.memory(a) == s.memory(a)
    ensures Untouched(s, s')
  {
    forall k, a | k in s.guest && k in s'.dirty && s'.dirty[k] == GpuDirty && s.guest[k].Contains(a)
      ensures s'.memory(a) == s.memory(a)
    {
      assert !s.guest[k].Overlaps(hull);
    }
  }

  lemma LooksNext(s: State, s': State, requested: Interval, recording: set<Handle>, garbage: Memory, e: Event)
    requires requested.NonEmpty() && Looks(s, requested, recording, e, s') && Untouched(s, s')
    requires s'.flat == After(s.flat, e)
    ensures Next(s, Finds(requested, recording, garbage), e, s')
  {
    hide Untouched, Reads, After;
  }

  /** The action ends the run: a copy for which the megabuffer seems to have room until it is aligned. */
  ghost predicate Crashes(s: State, action: Action) {
    && action.Acquires? && action.v in s.owner && s.owner[action.v] in s.dirty && s.owner[action.v] in s.inlined
    && action.v in s.places && !Unsuited(s, action.v, action.signalled)
    && var size := s.places[action.v].end - s.places[action.v].start;
    size <= s.capacity - s.free && size > s.capacity - AlignUp(s.free)
  }

  // ---- runs

  /** Each action in turn is a step of the machine. */
  ghost predicate Follows(trace: seq<State>, actions: seq<Action>, events: seq<Event>) {
    && |trace| == |events| + 1 && |events| <= |actions|
    && (forall i :: 0 <= i < |trace| ==> WellFormed(trace[i]))
    && (forall i :: 0 <= i < |events| ==> Next(trace[i], actions[i], events[i], trace[i + 1]))
  }

  lemma FollowsMore(trace: seq<State>, actions: seq<Action>, events: seq<Event>, e: Event, s: State)
    requires Follows(trace, actions, events) && |events| < |actions| && WellFormed(s)
    requires Next(trace[|events|], actions[|events|], e, s)
    ensures Follows(trace + [s], actions, events + [e])
  {
    hide Next, WellFormed;
  }

  /** A GPU dirty buffer that takes part in the work being recorded lies at the address, in the way of the mapping. */
  ghost predicate InRecording(s: State, mapping: Interval, recording: set<Handle>, a: int) {
    exists h :: h in recording && RecordsAt(s, mapping, h, a)
  }

  ghost predicate RecordsAt(s: State, mapping: Interval, h: Handle, a: int) {
    h in s.guest && s.guest[h].Contains(a) && s.guest[h].Overlaps(mapping) && h in s.dirty && s.dirty[h] == GpuDirty
  }

  /** Some buffer holds the whole mapping. */
  ghost predicate Held(s: State, mapping: Interval) {
    exists h :: h in s.guest && HoldsAll(s.guest[h], mapping)
  }

  /** What every step does to every byte: writes write, and a lookup turns a byte into that of guest memory exactly
      where it replaces a GPU dirty buffer that takes part in the work being recorded; nothing else changes any byte. */
  lemma ByteAfter(s: State, action: Action, e: Event, s': State, a: int)
    requires WellFormed(s) && Next(s, action, e, s')
    ensures s'.flat(a) ==
      if e.Wrote? && e.start <= a < e.start + |e.data| then e.data[a - e.start]
      else if action.Finds? && action.requested.NonEmpty() && !Held(s, action.requested.Align()) &&
           InRecording(s, action.requested.Align(), action.recording, a) then s.memory(a)
      else s.flat(a)
  {
    hide Reads, Untouched, Accesses, Still, Unsuited, Looks, InRecording, StillRecording, TakesPlace, DirtyAfter, Held;
    hide WellFormed, Relevels, SameLevels;
    if action.Finds? && action.requested.NonEmpty() {
      LostExactly(s, action.requested, action.recording, e, s', a);
      if e.sources == [] {
        NothingRecording(e.sources, a);
      }
    }
  }

  lemma LostExactly(s: State, requested: Interval, recording: set<Handle>, e: Event, s': State, a: int)
    requires WellFormed(s) && Looks(s, requested, recording, e, s')
    ensures e.Found? && e.memory == s.memory
    ensures StillRecording(e.sources, a) <==>
      !Held(s, requested.Align()) && InRecording(s, requested.Align(), recording, a)
  {
    hide HoldsAll, Shows, WellFormed;
    if !Held(s, requested.Align()) {
      var h, hull, overlaps :| Replaces(s, requested.Align(), recording, e, s', h, hull, overlaps);
      RecordedSources(s, requested.Align(), recording, e, s', h, hull, overlaps, a);
    }
  }

  lemma RecordedSources(s: State, mapping: Interval, recording: set<Handle>, e: Event, s': State, h: Handle,
                        hull: Interval, overlaps: seq<Handle>, a: int)
    requires e.Found? && Replaces(s, mapping, recording, e, s', h, hull, overlaps)
    ensures StillRecording(e.sources, a) <==> InRecording(s, mapping, recording, a)
  {
    hide Shows, Replaced;
    if i :| 0 <= i < |e.sources| && Recording(e.sources[i]) && e.sources[i].guest.Contains(a) {
      assert overlaps[i] in overlaps && RecordsAt(s, mapping, overlaps[i], a);
    }
    if k :| k in recording && RecordsAt(s, mapping, k, a) {
      assert s.guest[k].Overlaps(hull);
      var i :| 0 <= i < |overlaps| && overlaps[i] == k;
      assert Recording(e.sources[i]) && e.sources[i].guest.Contains(a);
    }
  }

  /** A lookup when there are no buffers creates one over just the requested pages, and no byte changes. */
  lemma FirstLookup(s: State, requested: Interval, recording: set<Handle>, e: Event, s': State)
    requires s.guest == map[] && s.dirty == map[] && requested.Aligned() && requested.NonEmpty()
    requires Looks(s, requested, recording, e, s')
    ensures e.Found? && e.sources == [] && e.view in s'.owner
    ensures s'.guest == map[s'.owner[e.view] := requested] && s'.dirty == map[s'.owner[e.view] := Clean]
    ensures forall a :: requested.Contains(a) ==> s'.memory(a) == s.flat(a)
  {
    AlignedStays(requested);
    var h, hull, overlaps :| Replaces(s, requested, recording, e, s', h, hull, overlaps);
    SomeHeld(s.guest, hull, overlaps);
    OnlyRequested(s.guest, hull, requested);
    hide Looks, MergeLevels, FromSources, Holding, Vacant;
  }

  /** Where there is no buffer, the hull of a request is the request. */
  lemma OnlyRequested(guest: Ranges, hull: Interval, requested: Interval)
    requires guest == map[] && HoldsAll(hull, requested) && requested.NonEmpty()
    requires forall a :: hull.Contains(a) && !requested.Contains(a) ==> !Vacant(guest, a)
    ensures hull == requested
  {
    assert Vacant(guest, hull.start) && Vacant(guest, hull.end - 1);
    assert hull.Contains(hull.start) && hull.Contains(hull.end - 1);
  }

  lemma SomeHeld(guest: Ranges, hull: Interval, overlaps: seq<Handle>)
    requires Holding(guest, hull, overlaps)
    ensures overlaps != [] ==> guest != map[]
  {
    if overlaps != [] {
      assert overlaps[0] in overlaps;
    }
  }

  /** The GPU fills a clean buffer that is the only one; guest memory stays behind. */
  lemma GpuFills(s: State, s1: State, s2: State, h: Handle, contents: seq<Byte>, e1: Event, e2: Event)
    requires h in s.guest && s.guest[h].NonEmpty() && |contents| == s.guest[h].end - s.guest[h].start
    requires s.dirty == map[h := Clean] && h in s.inlined
    requires Next(s, OnBuffer(h, Announce), e1, s1) && Next(s1, OnBuffer(h, GpuWrites(contents)), e2, s2)
    ensures s2.guest == s.guest && s2.dirty == map[h := GpuDirty]
    ensures forall a :: s.guest[h].Contains(a) ==>
      s2.flat(a) == contents[a - s.guest[h].start] && s2.memory(a) == s.memory(a)
  {
  }

  // ---- page protection over whole runs

  /** The pages of every buffer have just the level that it calls for, but that reads may fault on a clean one, too. */
  ghost predicate Levelled(s: State) {
    forall h, p :: h in s.guest && h in s.dirty && s.guest[h].Overlaps(Page(p)) ==>
      s.levels(p) == Demand(s.dirty[h]) || (s.dirty[h] == Clean && s.levels(p) == ReadWrite)
  }

  /** Every step keeps that. */
  lemma LevelledStep(s: State, action: Action, e: Event, s': State)
    requires WellFormed(s) && Levelled(s) && Next(s, action, e, s')
    ensures Levelled(s')
  {
    hide Reads, After, Untouched, WellFormed, Unsuited, Reports, TakesPlace, DirtyAfter, ShowsAt, Levelled, Accesses;
    hide Looks;
    hide Relevels;
    match action
    case Finds(requested, recording, _) =>
      if requested.NonEmpty() {
        LevelledLookup(s, requested, recording, e, s');
      }
    case Acquires(v, signalled) =>
      if v in s.owner && s.owner[v] in s.dirty && s.owner[v] in s.inlined && v in s.places {
        LevelledUse(s, s', s.owner[v]);
      }
    case OnBuffer(h, what) =>
      if h in s.guest && h in s.dirty && h in s.inlined && s' != s {
        LevelledUse(s, s', h);
      }
    case GuestWrites(a, _) => LevelledAccess(s, a, true, s');
    case GuestReads(a) => LevelledAccess(s, a, false, s');
    case Pushes(_) => LevelledSame(s, s');
    case Submits => LevelledSame(s, s');
  }

  lemma LevelledSame(s: State, s': State)
    requires Levelled(s) && SameLevels(s, s') && s'.guest == s.guest && s'.dirty == s.dirty
    ensures Levelled(s')
  {
  }

  lemma LevelledUse(s: State, s': State, h: Handle)
    requires WellFormed(s) && Levelled(s) && h in s.guest && h in s.dirty && h in s'.dirty && s'.guest == s.guest
    requires s'.dirty == s.dirty[h := s'.dirty[h]] && Relevels(s, s', h)
    ensures Levelled(s')
  {
    hide WellFormed;
    forall k, p | k in s'.guest && k in s'.dirty && s'.guest[k].Overlaps(Page(p))
      ensures s'.levels(p) == Demand(s'.dirty[k]) || (s'.dirty[k] == Clean && s'.levels(p) == ReadWrite)
    {
      if s.guest[h].Overlaps(Page(p)) {
        OneOnPage(s, h, k, p);
      }
    }
  }

  lemma LevelledAccess(s: State, a: int, write: bool, s': State)
    requires WellFormed(s) && Levelled(s) && Accesses(s, a, write, s')
    ensures Levelled(s')
  {
    hide WellFormed;
    forall h, p | h in s'.guest && h in s'.dirty && s'.guest[h].Overlaps(Page(p))
      ensures s'.levels(p) == Demand(s'.dirty[h]) || (s'.dirty[h] == Clean && s'.levels(p) == ReadWrite)
    {
      if k :| k in s.guest && s.guest[k].Contains(a) && s.guest[k].Overlaps(Page(p)) {
        OneOnPage(s, h, k, p);
      }
    }
  }

  lemma OneOnPage(s: State, g: Handle, h: Handle, p: int)
    requires WellFormed(s) && g in s.guest && h in s.guest
    requires s.guest[g].Overlaps(Page(p)) && s.guest[h].Overlaps(Page(p))
    ensures g == h
  {
    hide Shielding, HoldsAll;
    AlignedHoldsPage(s.guest[g], p);
    AlignedHoldsPage(s.guest[h], p);
  }

  lemma LevelledLookup(s: State, requested: Interval, recording: set<Handle>, e: Event, s': State)
    requires WellFormed(s) && Levelled(s) && Looks(s, requested, recording, e, s')
    ensures Levelled(s')
  {
    hide Shielding, FromSources, WellFormed;
    if !Held(s, requested.Align()) {
      var h, hull, overlaps :| Replaces(s, requested.Align(), recording, e, s', h, hull, overlaps);
      LevelledMerge(s, s', hull, overlaps, h);
    }
  }

  lemma LevelledMerge(s: State, s': State, hull: Interval, overlaps: seq<Handle>, h: Handle)
    requires Levelled(s) && Holding(s.guest, hull, overlaps) && h !in s.guest && h in s'.dirty
    requires s'.dirty[h] != CpuDirty
    requires s'.guest == Replaced(s.guest, overlaps, h, hull) && s'.dirty == Replaced(s.dirty, overlaps, h, s'.dirty[h])
    requires MergeLevels(s, s', hull, overlaps, Demand(s'.dirty[h])) && WellFormed(s)
    ensures Levelled(s')
  {
    hide WellFormed, AnyGpuDirty, AnyOn, Holding;
    forall k, p | k in s'.guest && k in s'.dirty && s'.guest[k].Overlaps(Page(p))
      ensures s'.levels(p) == Demand(s'.dirty[k]) || (s'.dirty[k] == Clean && s'.levels(p) == ReadWrite)
    {
      if k != h {
        OutsideHull(s, hull, overlaps, k, p);
      }
    }
  }

  lemma OutsideHull(s: State, hull: Interval, overlaps: seq<Handle>, k: Handle, p: int)
    requires WellFormed(s) && Holding(s.guest, hull, overlaps) && k in s.guest && k !in overlaps
    requires s.guest[k].Overlaps(Page(p))
    ensures !hull.Overlaps(Page(p))
  {
    AlignedHoldsPage(s.guest[k], p);
  }

  /** In every run that begins without buffers, whatever it does. */
  lemma {:induction false} LevelsFollow(trace: seq<State>, actions: seq<Action>, events: seq<Event>, n: nat)
    requires Follows(trace, actions, events) && trace[0].guest == map[] && n < |trace|
    ensures Levelled(trace[n])
  {
    hide Next, WellFormed, Levelled;
    if n == 0 {
      NoneLevelled(trace[0]);
    } else {
      LevelsFollow(trace, actions, events, n - 1);
      assert Next(trace[n - 1], actions[n - 1], events[n - 1], trace[n - 1 + 1]);
      LevelledStep(trace[n - 1], actions[n - 1], events[n - 1], trace[n]);
    }
  }

  lemma NoneLevelled(s: State)
    requires s.guest == map[]
    ensures Levelled(s)
  {
  }
}
