/** Coherence of a GPU buffer with the guest memory behind it, driven by memory traps, and the caching of buffer
    contents in a megabuffer by sequence number.  Waiting on a fence is taken to have happened where the code waits;
    whether a poll finds the fence signalled is a parameter.  Every method runs under the lock of its buffer and is
    one step. */
module Buffers {
  import opened Paging
  import opened Traps
  import Common

  type Byte = int

  datatype DirtyState = Clean | CpuDirty | GpuDirty

  const InitialSequenceNumber: nat := 1
  const MegaBufferingDisableThreshold: nat := 1024 * 128

  // ---- the megabuffer

  /** Pushed at an offset, refused with an exception, or written past the end of the backing. */
  datatype PushResult = Pushed(offset: nat) | OutOfSpace | Overrun

  class MegaBuffer {
    var backing: seq<Byte>
    var free: nat // where the free region starts

    ghost predicate Valid()
      reads this
    {
      PageSize <= free <= |backing| && IsAligned(|backing|)
    }

    /** What was handed out before is untouched. */
    twostate predicate Grown()
      reads this
    {
      old(free) <= free <= |backing| && old(free) <= |old(backing)| && backing[..old(free)] == old(backing)[..old(free)]
    }

    /** The first page is never handed out, so that no copy is at offset zero. */
    constructor (size: nat, contents: seq<Byte>)
      requires |contents| == size && PageSize <= size && IsAligned(size)
      ensures Valid() && backing == contents && free == PageSize
    {
      backing, free := contents, PageSize;
    }

    /** Copies data into the free region.  Space is checked before the region is aligned, so the copy can run over
        the end; it does not exactly when the data fits behind the aligned start. */
    method Push(data: seq<Byte>, pageAlign: bool) returns (r: PushResult)
      requires Valid()
      modifies this
      ensures r == OutOfSpace <==> |data| > |old(backing)| - old(free)
      ensures r.Pushed? <==> |data| <= |old(backing)| - (if pageAlign then AlignUp(old(free)) else old(free))
      ensures !r.Pushed? ==> backing == old(backing)
      ensures r == OutOfSpace ==> free == old(free)
      ensures !r.Overrun? ==> Valid()
      ensures r.Pushed? ==>
        && r.offset == (if pageAlign then AlignUp(old(free)) else old(free)) && r.offset != 0
        && free == r.offset + |data| <= |old(backing)| && backing == Common.Spliced(old(backing), r.offset, data)
        && backing[r.offset..free] == data && backing[..old(free)] == old(backing)[..old(free)]
    {
      if |data| > |backing| - free {
        return OutOfSpace;
      }
      if pageAlign {
        free := AlignUp(free);
      }
      if |data| > |backing| - free {
        return Overrun;
      }
      var offset := free;
      backing := Common.Spliced(backing, offset, data);
      free := free + |data|;
      return Pushed(offset);
    }

    /** Everything but the first page may be handed out again. */
    method Reset()
      requires Valid()
      modifies this`free
      ensures Valid() && free == PageSize
    {
      free := PageSize;
    }
  }

  /** A push can run over the end: there is space behind the unaligned start and none behind the aligned one. */
  method PushOverruns() returns (mega: MegaBuffer, first: PushResult, second: PushResult)
    ensures first == Pushed(PageSize) && second == Overrun
  {
    mega := new MegaBuffer(2 * PageSize, seq(2 * PageSize, i => 0));
    first := mega.Push([7], false);
    second := mega.Push(seq(PageSize - 1, i => 7), true);
  }

  // ---- cached views

  /** A view of a buffer and the megabuffer copy that was last made of it. */
  datatype View = View(offset: nat, size: nat, lastAcquiredSequence: nat, megabufferOffset: nat)

  /** The contents that were handed out under each sequence number. */
  type History = map<nat, seq<Byte>>

  /** Every view that remembers a handed out sequence number has the bytes of that time at its megabuffer offset. */
  ghost predicate Cached(views: map<nat, View>, published: History, mega: seq<Byte>, free: nat) {
    forall v :: v in views ==> CachedView(views[v], published, mega, free)
  }

  ghost predicate CachedView(v: View, published: History, mega: seq<Byte>, free: nat) {
    && (v.lastAcquiredSequence in published || v.lastAcquiredSequence <= InitialSequenceNumber)
    && (v.lastAcquiredSequence in published && v.megabufferOffset != 0 ==>
          && v.megabufferOffset + v.size <= free <= |mega|
          && v.offset + v.size <= |published[v.lastAcquiredSequence]|
          && mega[v.megabufferOffset..v.megabufferOffset + v.size] ==
             published[v.lastAcquiredSequence][v.offset..v.offset + v.size])
  }

  /** The megabuffer holds at this offset the bytes that the view has of the contents. */
  ghost predicate IsCopy(mega: seq<Byte>, at: nat, contents: seq<Byte>, v: View) {
    && at + v.size <= |mega| && v.offset + v.size <= |contents|
    && mega[at..at + v.size] == contents[v.offset..v.offset + v.size]
  }

  /** A cached copy of the current number is one of the current contents. */
  lemma HitIsCopy(views: map<nat, View>, published: History, mega: seq<Byte>, free: nat, v: nat)
    requires Cached(views, published, mega, free) && v in views && views[v].lastAcquiredSequence in published
    requires views[v].megabufferOffset != 0
    ensures views[v].megabufferOffset + views[v].size <= free
    ensures IsCopy(mega, views[v].megabufferOffset, published[views[v].lastAcquiredSequence], views[v])
  {
    assert CachedView(views[v], published, mega, free);
  }

  /** What an acquisition of so many bytes takes of the megabuffer: nothing, or a page aligned copy; it fails for lack
      of space, or runs over the end, only if the space is not there. */
  ghost predicate RoomTaken(r: PushResult, size: nat, free: nat, capacity: nat, free': nat, capacity': nat) {
    && capacity' == capacity
    && (r == Pushed(0) ==> free' == free)
    && (r.Pushed? ==> free' == free || free' == AlignUp(free) + size)
    && (r == OutOfSpace ==> free' == free && size > capacity - free)
    && (r == Overrun ==> size <= capacity - free && size > capacity - AlignUp(free))
  }

  /** The history has only been extended, by sequence numbers above the initial one. */
  ghost predicate Extends(published: History, more: History) {
    && (forall n :: n in published ==> n in more && more[n] == published[n])
    && (forall n :: n in more && n !in published ==> n > InitialSequenceNumber)
  }

  lemma SameSlice(s: seq<Byte>, s': seq<Byte>, n: nat, from: nat, to: nat)
    requires n <= |s| && n <= |s'| && s[..n] == s'[..n] && from <= to <= n
    ensures s'[from..to] == s[from..to]
  {
    assert s[..n][from..to] == s[from..to] && s'[..n][from..to] == s'[from..to];
  }

  /** Cached copies survive whatever else happens: further sequence numbers being handed out and further pushes. */
  lemma CachedKept(views: map<nat, View>, published: History, more: History, mega: seq<Byte>, free: nat,
                   mega': seq<Byte>, free': nat)
    requires Cached(views, published, mega, free) && Extends(published, more)
    requires free <= free' <= |mega'| && free <= |mega| && mega'[..free] == mega[..free]
    ensures Cached(views, more, mega', free')
  {
    forall v | v in views ensures CachedView(views[v], more, mega', free') {
      var w := views[v];
      assert CachedView(w, published, mega, free);
      if w.lastAcquiredSequence in published && w.megabufferOffset != 0 {
        var from, to := w.megabufferOffset, w.megabufferOffset + w.size;
        SameSlice(mega, mega', free, from, to);
      }
    }
  }

  lemma CacheNew(views: map<nat, View>, published: History, mega: seq<Byte>, free: nat, v: nat, offset: nat,
                 sequence: nat)
    requires Cached(views, published, mega, free) && v in views && sequence in published
    requires CachedView(views[v].(megabufferOffset := offset, lastAcquiredSequence := sequence), published, mega, free)
    ensures Cached(views[v := views[v].(megabufferOffset := offset, lastAcquiredSequence := sequence)], published, mega,
      free)
  {
    hide CachedView;
  }

  /** The views as a buffer takes them over that starts the given distance before theirs. */
  function Moved(views: map<nat, View>, shift: nat): map<nat, View> {
    map v | v in views :: views[v].(offset := views[v].offset + shift, lastAcquiredSequence := InitialSequenceNumber)
  }

  /** The views without the megabuffer copies of those listed. */
  function Forgotten(views: map<nat, View>, attached: set<nat>): map<nat, View> {
    map v | v in views :: if v in attached then views[v].(megabufferOffset := 0) else views[v]
  }

  // ---- the buffer

  /** A GPU dirty buffer traps every access, a clean one at least writes. */
  predicate TrapsEnough(dirty: DirtyState, trap: Protection) {
    && (dirty == GpuDirty ==> trap == ReadWrite)
    && (dirty == Clean ==> trap != Protection.None)
  }

  /** What a buffer that has been synchronised before demands. */
  function Demand(dirty: DirtyState): Protection {
    match dirty
    case CpuDirty => Protection.None
    case Clean => WriteOnly
    case GpuDirty => ReadWrite
  }

  /** Every handed out number is past the initial one and not ahead of the current one; the current one, if handed
      out, still stands for the contents unless the guest has written since. */
  ghost predicate HistoryHolds(published: History, sequence: nat, dirty: DirtyState, contents: seq<Byte>) {
    && sequence >= InitialSequenceNumber
    && (sequence == InitialSequenceNumber ==> dirty == CpuDirty)
    && (forall n :: n in published ==> InitialSequenceNumber < n <= sequence)
    && (dirty == GpuDirty ==> sequence !in published)
    && (dirty == Clean && sequence in published ==> published[sequence] == contents)
  }

  class Buffer {
    var mirror: seq<Byte> // the guest memory itself, through an untrapped mapping
    var backing: seq<Byte>
    var dirty: DirtyState
    var trap: Protection // what the trap of this buffer demands
    var sequenceNumber: nat
    var everHadInlineUpdate: bool
    var views: map<nat, View>
    ghost var published: History

    ghost predicate Valid()
      reads this
    {
      && |mirror| == |backing|
      && TrapsEnough(dirty, trap)
      && (dirty == Clean ==> mirror == backing)
      && HistoryHolds(published, sequenceNumber, dirty, mirror)
      && (forall v :: v in views ==> views[v].offset + views[v].size <= |mirror|)
    }

    /** What guest and GPU have agreed the buffer holds. */
    ghost function Contents(): seq<Byte>
      reads this
    {
      if dirty == GpuDirty then backing else mirror
    }

    /** The buffer demands neither more nor less than its state calls for. */
    predicate Exact()
      reads this
    {
      trap == Demand(dirty)
    }

    /** Only synchronisation has happened: the contents, the views and all handed out numbers still stand. */
    twostate predicate Synchronized()
      reads this
    {
      Contents() == old(Contents()) && |mirror| == old(|mirror|) && views == old(views) && published == old(published)
      && everHadInlineUpdate == old(everHadInlineUpdate)
    }

    constructor (guest: seq<Byte>, garbage: seq<Byte>)
      requires |guest| == |garbage|
      ensures Valid() && Contents() == guest && dirty == CpuDirty && trap == WriteOnly && views == map[]
      ensures published == map[]
      ensures sequenceNumber == InitialSequenceNumber && !everHadInlineUpdate
    {
      mirror, backing, dirty, trap := guest, garbage, CpuDirty, WriteOnly;
      sequenceNumber, everHadInlineUpdate, views, published := InitialSequenceNumber, false, map[], map[];
    }

    method SynchronizeHost(rwTrap: bool)
      requires Valid()
      modifies this
      ensures Valid() && Synchronized()
      ensures dirty == if old(dirty) == CpuDirty then (if rwTrap then GpuDirty else Clean) else old(dirty)
      ensures old(dirty) == CpuDirty ==>
        sequenceNumber == old(sequenceNumber) + 1 && backing == old(mirror) &&
        trap == if rwTrap then ReadWrite else WriteOnly
      ensures old(dirty) != CpuDirty ==> sequenceNumber == old(sequenceNumber) && trap == old(trap)
      ensures mirror == old(mirror)
      ensures old(Exact()) ==> Exact()
    {
      if dirty != CpuDirty {
        return;
      }
      sequenceNumber := sequenceNumber + 1;
      backing := mirror;
      if rwTrap {
        trap := ReadWrite;
        dirty := GpuDirty;
      } else {
        trap := WriteOnly;
        dirty := Clean;
      }
    }

    method SynchronizeGuest(skipTrap: bool, nonBlocking: bool, signalled: bool)
      requires Valid()
      modifies this
      ensures Valid() && Synchronized() && sequenceNumber == old(sequenceNumber)
      ensures dirty == if old(dirty) == GpuDirty && (!nonBlocking || signalled) then Clean else old(dirty)
      ensures trap == if old(dirty) == GpuDirty && dirty == Clean && !skipTrap then WriteOnly else old(trap)
      ensures mirror == if old(dirty) == GpuDirty && dirty == Clean then old(backing) else old(mirror)
      ensures old(Exact()) && !skipTrap ==> Exact()
    {
      if dirty != GpuDirty {
        return;
      }
      if nonBlocking && !signalled {
        return;
      }
      mirror := backing;
      if !skipTrap {
        trap := WriteOnly;
      }
      dirty := Clean;
    }

    /** Announces GPU writes; the buffer has to be synchronised to the GPU before. */
    method MarkGpuDirty()
      requires Valid() && dirty != CpuDirty
      modifies this
      ensures Valid() && Synchronized() && dirty == GpuDirty && trap == ReadWrite && mirror == old(mirror)
      ensures backing == old(backing)
      ensures sequenceNumber == if old(dirty) == GpuDirty then old(sequenceNumber) else old(sequenceNumber) + 1
    {
      if dirty == GpuDirty {
        return;
      }
      sequenceNumber := sequenceNumber + 1;
      trap := ReadWrite;
      dirty := GpuDirty;
    }

    /** The GPU writes to a buffer that was announced to it. */
    method GpuWrite(contents: seq<Byte>)
      requires Valid() && dirty == GpuDirty && |contents| == |backing|
      modifies this`backing
      ensures Valid() && Contents() == contents
    {
      backing := contents;
    }

    /** A fault on the buffer: both guest reads and writes take this callback, after which nothing is trapped. */
    method Fault()
      requires Valid()
      modifies this
      ensures Valid() && Synchronized() && dirty == CpuDirty && trap == Protection.None
    {
      SynchronizeGuest(true, false, true);
      dirty := CpuDirty;
      trap := Protection.None;
    }

    /** A guest write always reaches the contents, on top of anything the GPU had written, and leaves the buffer CPU
        dirty and untrapped. */
    method GuestWrite(offset: nat, data: seq<Byte>)
      requires Valid() && offset + |data| <= |mirror|
      modifies this
      ensures Valid() && dirty == CpuDirty && trap == Protection.None
      ensures Contents() == Common.Spliced(old(Contents()), offset, data)
      ensures views == old(views) && published == old(published) && everHadInlineUpdate == old(everHadInlineUpdate)
    {
      if trap != Protection.None {
        Fault();
      }
      mirror := Common.Spliced(mirror, offset, data);
    }

    /** A guest read sees the contents, including what the GPU has written.  One that is let through changes nothing,
        and one that is not leaves the buffer CPU dirty and untrapped. */
    method GuestRead(offset: nat, size: nat) returns (data: seq<Byte>)
      requires Valid() && offset + size <= |mirror|
      modifies this
      ensures old(trap) == ReadWrite ==> dirty == CpuDirty && trap == Protection.None
      ensures old(trap) != ReadWrite ==> dirty == old(dirty) && trap == old(trap)
      ensures old(trap) != ReadWrite ==> mirror == old(mirror) && backing == old(backing)
      ensures Valid() && Synchronized() && data == Contents()[offset..offset + size] && (old(Exact()) ==> Exact())
    {
      if trap == ReadWrite {
        Fault();
      }
      data := mirror[offset..offset + size];
    }

    method Read(offset: nat, size: nat) returns (data: seq<Byte>)
      requires Valid() && offset + size <= |mirror|
      modifies this
      ensures Valid() && Synchronized() && data == Contents()[offset..offset + size]
      ensures dirty == if old(dirty) == GpuDirty then Clean else old(dirty)
      ensures old(Exact()) ==> Exact()
    {
      if dirty == GpuDirty {
        SynchronizeGuest(false, false, true);
      }
      data := mirror[offset..offset + size];
    }

    /** An inline update reaches both sides; on a host immutable buffer the GPU performs the second copy itself. */
    method Write(data: seq<Byte>, offset: nat)
      requires Valid() && offset + |data| <= |mirror|
      modifies this
      ensures Valid() && dirty == Clean && everHadInlineUpdate
      ensures Contents() == Common.Spliced(old(Contents()), offset, data)
      ensures views == old(views) && published == old(published)
      ensures sequenceNumber == old(sequenceNumber) + if old(dirty) == CpuDirty then 2 else 1
      ensures old(Exact()) ==> Exact()
    {
      sequenceNumber := sequenceNumber + 1;
      everHadInlineUpdate := true;
      if dirty == CpuDirty {
        SynchronizeHost(false);
      } else if dirty == GpuDirty {
        SynchronizeGuest(false, false, true);
      }
      mirror := Common.Spliced(mirror, offset, data);
      backing := Common.Spliced(backing, offset, data);
    }

    /** Hands out the contents under a number.  A number that is handed out twice stands for the same contents. */
    method AcquireCurrentSequence(signalled: bool) returns (sequence: nat, span: seq<Byte>)
      requires Valid()
      modifies this
      ensures Valid() && Contents() == old(Contents()) && |mirror| == old(|mirror|) && views == old(views)
      ensures everHadInlineUpdate == old(everHadInlineUpdate)
      ensures sequence == 0 <==> old(dirty) == GpuDirty && !signalled
      ensures sequence == 0 ==> published == old(published) && mirror == old(mirror) && dirty == old(dirty)
      ensures sequence != 0 ==>
        && sequence == sequenceNumber == old(sequenceNumber) + (if old(dirty) == CpuDirty then 1 else 0)
        && dirty == Clean && sequence > InitialSequenceNumber && span == Contents() &&
          published == old(published)[sequence := span]
        && (sequence in old(published) ==> old(published)[sequence] == span)
      ensures Extends(old(published), published)
      ensures old(Exact()) ==> Exact()
    {
      SynchronizeGuest(false, true, signalled);
      if dirty == GpuDirty {
        return 0, [];
      }
      SynchronizeHost(false);
      published := published[sequenceNumber := mirror];
      return sequenceNumber, mirror;
    }

    /** A new view, with no copy in any megabuffer. */
    method AddView(v: nat, offset: nat, size: nat)
      requires Valid() && v !in views && offset + size <= |mirror|
      modifies this`views
      ensures Valid() && views == old(views)[v := View(offset, size, 0, 0)]
      ensures forall mega, free :: Cached(old(views), published, mega, free) ==> Cached(views, published, mega, free)
    {
      views := views[v := View(offset, size, 0, 0)];
    }

    /** A view taken over from a buffer that was merged into this one: it keeps its megabuffer offset, which may hold
        anything by now, but its sequence number is set back to the initial one. */
    method AdoptView(v: nat, view: View)
      requires Valid() && v !in views && view.offset + view.size <= |mirror|
      modifies this`views
      ensures Valid() && views == old(views)[v := view.(lastAcquiredSequence := InitialSequenceNumber)]
      ensures forall mega, free :: Cached(old(views), published, mega, free) ==> Cached(views, published, mega, free)
    {
      views := views[v := view.(lastAcquiredSequence := InitialSequenceNumber)];
    }

    /** All views of a buffer that is merged into this one, moved by the distance between the two. */
    method AdoptViews(from: map<nat, View>, shift: nat)
      requires Valid() && from.Keys !! views.Keys
      requires forall v :: v in from ==> from[v].offset + shift + from[v].size <= |mirror|
      modifies this`views
      ensures Valid() && views == old(views) + Moved(from, shift)
      ensures forall mega, free :: Cached(old(views), published, mega, free) ==> Cached(views, published, mega, free)
    {
      hide Cached, HistoryHolds, TrapsEnough;
      var left := from.Keys;
      while left != {}
        invariant left <= from.Keys && Valid()
        invariant forall v :: v in views <==> v in old(views) || (v in from && v !in left)
        invariant forall v :: v in old(views) ==> views[v] == old(views)[v]
        invariant forall v :: v in from && v !in left ==> views[v] == Moved(from, shift)[v]
        invariant forall mega, free :: Cached(old(views), published, mega, free) ==>
          Cached(views, published, mega, free)
      {
        var v :| v in left;
        AdoptView(v, from[v].(offset := from[v].offset + shift));
        left := left - {v};
      }
    }

    /** The executor has submitted its work: the copies of these views are given up. */
    method ForgetCopies(attached: set<nat>)
      requires Valid()
      modifies this`views
      ensures Valid() && views == Forgotten(old(views), attached)
    {
      views := Forgotten(views, attached);
    }

    /** The megabuffer copy of a view.  Whenever an offset is returned, be it cached or new, the megabuffer holds the
        current bytes of the view there.  A view that was copied under the current number, and only such a one, gets its
        old offset back without a copy.  Nothing that was in the megabuffer before is touched,
          so the copies of all other
        buffers stand as well. */
    method AcquireMegaBuffer(v: nat, mega: MegaBuffer, signalled: bool) returns (r: PushResult)
      requires Valid() && mega.Valid() && v in views && Cached(views, published, mega.backing, mega.free)
      modifies this, mega
      ensures Valid() && Contents() == old(Contents()) && views.Keys == old(views).Keys
      ensures v in views && views[v].offset == old(views)[v].offset && views[v].size == old(views)[v].size
      ensures r == Pushed(0) <==>
        !everHadInlineUpdate || views[v].size > MegaBufferingDisableThreshold || (old(dirty) == GpuDirty && !signalled)
      ensures forall w :: w in views && w != v ==> views[w] == old(views)[w]
      ensures everHadInlineUpdate == old(everHadInlineUpdate) && |mirror| == old(|mirror|)
      ensures dirty == if r == Pushed(0) then old(dirty) else Clean
      ensures r == Pushed(0) ==> mirror == old(mirror)
      ensures RoomTaken(r, old(views)[v].size, old(mega.free), |old(mega.backing)|, mega.free, |mega.backing|)
      ensures !r.Overrun? ==> mega.Valid() && Cached(views, published, mega.backing, mega.free) && mega.Grown()
      ensures !r.Pushed? ==> views == old(views)
      ensures r.Pushed? && r.offset != 0 ==>
        r.offset + views[v].size <= mega.free && IsCopy(mega.backing, r.offset, Contents(), views[v])
      ensures old(Exact()) ==> Exact()
      ensures r.Pushed? && r.offset != 0 ==>
        views[v].megabufferOffset == r.offset && views[v].lastAcquiredSequence == sequenceNumber
      ensures r != Pushed(0) ==> sequenceNumber == old(sequenceNumber) + if old(dirty) == CpuDirty then 1 else 0
      ensures var view := old(views)[v];
        r != Pushed(0) && view.megabufferOffset != 0 && view.lastAcquiredSequence == sequenceNumber ==>
        r == Pushed(view.megabufferOffset) && mega.free == old(mega.free) && mega.backing == old(mega.backing)
      ensures r.Pushed? && r.offset != 0 && mega.free == old(mega.free) && old(views)[v].size > 0 ==>
        old(views)[v].lastAcquiredSequence == sequenceNumber
    {
      hide Cached, CachedView, HistoryHolds, TrapsEnough, IsCopy;
      if !everHadInlineUpdate {
        return Pushed(0);
      }
      if views[v].size > MegaBufferingDisableThreshold {
        return Pushed(0);
      }
      ghost var was := published;
      var newSequence, span := AcquireCurrentSequence(signalled);
      CachedKept(views, was, published, mega.backing, mega.free, mega.backing, mega.free);
      if newSequence == 0 {
        return Pushed(0);
      }
      var view := views[v];
      if newSequence == view.lastAcquiredSequence && view.megabufferOffset != 0 {
        HitIsCopy(views, published, mega.backing, mega.free, v);
        return Pushed(view.megabufferOffset);
      }
      r := Copy(v, mega, newSequence, span);
    }

    method Copy(v: nat, mega: MegaBuffer, sequence: nat, span: seq<Byte>) returns (r: PushResult)
      requires Valid() && mega.Valid() && v in views && Cached(views, published, mega.backing, mega.free)
      requires sequence in published && published[sequence] == span && |span| == |mirror|
      modifies this`views, mega
      ensures Valid() && views.Keys == old(views).Keys
      ensures views[v].offset == old(views)[v].offset && views[v].size == old(views)[v].size
      ensures forall w :: w in views && w != v ==> views[w] == old(views)[w]
      ensures r != Pushed(0)
      ensures RoomTaken(r, old(views)[v].size, old(mega.free), |old(mega.backing)|, mega.free, |mega.backing|)
      ensures !r.Overrun? ==> mega.Valid() && Cached(views, published, mega.backing, mega.free) && mega.Grown()
      ensures !r.Pushed? ==> views == old(views)
      ensures r.Pushed? ==>
        && r.offset + views[v].size <= mega.free && IsCopy(mega.backing, r.offset, span, views[v])
        && views[v].megabufferOffset == r.offset && views[v].lastAcquiredSequence == sequence
        && mega.free == AlignUp(old(mega.free)) + views[v].size
    {
      hide Cached, HistoryHolds;
      var view := views[v];
      ghost var bytes, free := mega.backing, mega.free;
      r := mega.Push(span[view.offset..view.offset + view.size], true);
      if r.Pushed? {
        CachedKept(views, published, published, bytes, free, mega.backing, mega.free);
        CacheNew(views, published, mega.backing, mega.free, v, r.offset, sequence);
        views := views[v := view.(megabufferOffset := r.offset, lastAcquiredSequence := sequence)];
      }
    }
  }
}
