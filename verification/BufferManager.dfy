/** Tracking of guest buffers: lookups create buffers, and buffers that overlap a lookup are merged into one while
    views and delegates of the old buffers stay alive. */
module BufferManagers {
  import opened Paging
  import IntervalMaps

  type BufferId = nat
  type ViewId = nat
  type DelegateId = nat

  /** The storage of a view inside the buffer that owns it; it stays at its address when it changes owner. */
  datatype View = View(owner: BufferId, offset: int, size: int)

  /** What a holder of a view goes through: the buffer to lock and the view storage. */
  datatype Delegate = Delegate(buffer: BufferId, view: ViewId)

  type Guests = map<BufferId, Interval>
  type Views = map<ViewId, View>

  /** Tracked buffers are known, page aligned, not empty, and in address order without overlap. */
  ghost predicate Laid(buffers: seq<BufferId>, guest: Guests) {
    && (forall i :: 0 <= i < |buffers| ==>
      buffers[i] in guest && guest[buffers[i]].Aligned() && guest[buffers[i]].NonEmpty())
    && (forall i, j :: 0 <= i < j < |buffers| ==> guest[buffers[i]].end <= guest[buffers[j]].start)
  }

  /** The view is not empty and lies inside its owner. */
  ghost predicate Inside(v: View, guest: Guests) {
    v.owner in guest && 0 <= v.offset && 0 < v.size && v.offset + v.size <= guest[v.owner].end - guest[v.owner].start
  }

  /** The guest addresses of a view. */
  ghost function Range(v: View, guest: Guests): Interval {
    var base := if v.owner in guest then guest[v.owner].start else 0;
    Interval(base + v.offset, base + v.offset + v.size)
  }

  /** Equality of view storage as the view set of a buffer sees it. */
  predicate SameKey(v: View, w: View) { v.offset == w.offset && v.size == w.size }

  /** No buffer holds two equal views. */
  ghost predicate Unique(views: Views) {
    forall v, w :: v in views && w in views && v != w && views[v].owner == views[w].owner ==>
      !SameKey(views[v], views[w])
  }

  /** Every view lies inside its owner, which is tracked or under construction. */
  ghost predicate Owned(buffers: seq<BufferId>, guest: Guests, views: Views, pending: set<BufferId>) {
    forall v :: v in views ==> Inside(views[v], guest) && (views[v].owner in buffers || views[v].owner in pending)
  }

  /** Views of a buffer under construction are at addresses that no tracked buffer covers. */
  ghost predicate Apart(buffers: seq<BufferId>, guest: Guests, views: Views, pending: set<BufferId>) {
    forall v, b :: v in views && views[v].owner in pending && b in buffers && b in guest ==>
      !Range(views[v], guest).Overlaps(guest[b])
  }

  /** Every delegate points at a live view and at the buffer that owns it. */
  ghost predicate Linked(views: Views, delegates: map<DelegateId, Delegate>) {
    forall d :: d in delegates ==> delegates[d].view in views && delegates[d].buffer == views[delegates[d].view].owner
  }

  lemma LaidOrder(buffers: seq<BufferId>, guest: Guests, i: nat, j: nat)
    requires Laid(buffers, guest) && i < |buffers| && j < |buffers|
    ensures buffers[i] in guest && buffers[j] in guest && guest[buffers[i]].NonEmpty()
    ensures i < j ==> buffers[i] != buffers[j] && guest[buffers[i]].start < guest[buffers[j]].start
  {
    assert guest[buffers[j]].NonEmpty();
  }

  lemma LaidKnown(buffers: seq<BufferId>, guest: Guests)
    requires Laid(buffers, guest)
    ensures forall b :: b in buffers ==> b in guest && guest[b].NonEmpty() && guest[b].Aligned()
    ensures forall i :: 0 <= i < |buffers| ==> buffers[i] in guest
  {
  }

  lemma LaidFrom(buffers: seq<BufferId>, guest: Guests, i: nat, end: int)
    requires Laid(buffers, guest) && i < |buffers| && guest[buffers[i]].start >= end
    ensures forall j :: i <= j < |buffers| ==> buffers[j] in guest && guest[buffers[j]].start >= end
  {
    forall j | i <= j < |buffers| ensures buffers[j] in guest && guest[buffers[j]].start >= end {
      LaidOrder(buffers, guest, i, j);
    }
  }

  /** The buffers are distinct. */
  lemma LaidDistinct(buffers: seq<BufferId>, guest: Guests, i: nat)
    requires Laid(buffers, guest) && i < |buffers|
    ensures buffers[i] !in buffers[i + 1..]
  {
    forall j | i < j < |buffers| ensures buffers[i] != buffers[j] {
      LaidOrder(buffers, guest, i, j);
    }
  }

  /** No view or delegate was lost, and each still denotes the same guest addresses. */
  ghost predicate Kept(views: Views, guest: Guests, delegates: map<DelegateId, Delegate>, views': Views, guest': Guests,
                       delegates': map<DelegateId, Delegate>) {
    && (forall v :: v in views ==> v in views' && Range(views'[v], guest') == Range(views[v], guest))
    && (forall d :: d in delegates ==> d in delegates' && delegates'[d].view == delegates[d].view)
  }

  lemma LaidErase(buffers: seq<BufferId>, guest: Guests, i: nat)
    requires Laid(buffers, guest) && i < |buffers|
    ensures Laid(buffers[..i] + buffers[i + 1..], guest)
    ensures forall b :: b in buffers[..i] + buffers[i + 1..] <==> b in buffers && b != buffers[i]
  {
    var rest := buffers[..i] + buffers[i + 1..];
    forall k | 0 <= k < |rest|
      ensures rest[k] in guest && guest[rest[k]].Aligned() && guest[rest[k]].NonEmpty() && rest[k] != buffers[i]
    {
      ErasedIndex(buffers, i, k);
      LaidOrder(buffers, guest, if k < i then k else i, if k < i then i else k + 1);
    }
    forall k, l | 0 <= k < l < |rest| ensures guest[rest[k]].end <= guest[rest[l]].start {
      ErasedIndex(buffers, i, k);
      ErasedIndex(buffers, i, l);
    }
    assert buffers == buffers[..i] + [buffers[i]] + buffers[i + 1..];
  }

  lemma ErasedIndex(buffers: seq<BufferId>, i: nat, k: nat)
    requires i < |buffers| && k < |buffers| - 1
    ensures (buffers[..i] + buffers[i + 1..])[k] == if k < i then buffers[k] else buffers[k + 1]
  {
  }

  /** Inserting at the lower bound of its own end keeps the vector laid out, if the interval is free. */
  lemma LaidInsert(buffers: seq<BufferId>, guest: Guests, b: BufferId, at: nat)
    requires Laid(buffers, guest) && b in guest && guest[b].Aligned() && guest[b].NonEmpty() && at <= |buffers|
    requires forall i :: 0 <= i < |buffers| ==> !guest[buffers[i]].Overlaps(guest[b])
    requires at > 0 ==> guest[buffers[at - 1]].start < guest[b].end
    requires at < |buffers| ==> guest[buffers[at]].start >= guest[b].end
    ensures Laid(buffers[..at] + [b] + buffers[at..], guest)
  {
    var n := buffers[..at] + [b] + buffers[at..];
    forall i | 0 <= i < at ensures guest[buffers[i]].end <= guest[b].start {
      LaidOrder(buffers, guest, i, at - 1);
    }
    forall i | at <= i < |buffers| ensures guest[b].end <= guest[buffers[i]].start {
      LaidOrder(buffers, guest, at, i);
    }
    forall k | 0 <= k < |n| ensures n[k] in guest && guest[n[k]].Aligned() && guest[n[k]].NonEmpty() {
      InsertedIndex(buffers, at, b, k);
    }
    forall i, j | 0 <= i < j < |n| ensures guest[n[i]].end <= guest[n[j]].start {
      InsertedIndex(buffers, at, b, i);
      InsertedIndex(buffers, at, b, j);
    }
  }

  lemma InsertedIndex(buffers: seq<BufferId>, at: nat, b: BufferId, k: nat)
    requires at <= |buffers| && k <= |buffers|
    ensures (buffers[..at] + [b] + buffers[at..])[k] ==
      if k < at then buffers[k] else if k == at then b else buffers[k - 1]
  {
  }

  lemma NothingChanged(views: Views, guest: Guests, delegates: map<DelegateId, Delegate>)
    ensures Kept(views, guest, delegates, views, guest, delegates)
  {
  }

  lemma ViewAdded(buffers: seq<BufferId>, guest: Guests, views: Views, delegates: map<DelegateId, Delegate>, v: ViewId,
                  view: View)
    requires Unique(views) && Owned(buffers, guest, views, {}) && Linked(views, delegates)
    requires v !in views && view.owner in buffers && Inside(view, guest)
    requires forall u :: u in views ==> views[u] != view
    ensures Unique(views[v := view]) && Owned(buffers, guest, views[v := view], {})
    ensures Apart(buffers, guest, views[v := view], {})
    ensures Linked(views[v := view], delegates) && Kept(views, guest, delegates, views[v := view], guest, delegates)
  {
  }

  lemma DelegateAdded(views: Views, guest: Guests, delegates: map<DelegateId, Delegate>, d: DelegateId,
                      delegate: Delegate)
    requires Linked(views, delegates) && d !in delegates && delegate.view in views
    requires delegate.buffer == views[delegate.view].owner
    ensures Linked(views, delegates[d := delegate])
    ensures forall views0: Views, delegates0 :: Kept(views0, guest, delegates0, views, guest, delegates) ==>
      Kept(views0, guest, delegates0, views, guest, delegates[d := delegate])
  {
  }

  // ---- moving the views of a merged buffer

  /** The offsets of the views of buffer o, moved along. */
  function Shifted(views: Views, o: BufferId, delta: int): Views {
    map v | v in views :: if views[v].owner == o then views[v].(offset := views[v].offset + delta) else views[v]
  }

  predicate Taken(views: Views, n: BufferId, key: View) {
    exists u :: u in views && views[u].owner == n && SameKey(views[u], key)
  }

  /** A merge of view sets: a view that the target already holds an equal of would stay behind. */
  function Merged(views: Views, o: BufferId, n: BufferId): Views {
    map v | v in views :: if views[v].owner == o && !Taken(views, n, views[v]) then views[v].(owner := n) else views[v]
  }

  function Repointed(delegates: map<DelegateId, Delegate>, o: BufferId, n: BufferId): map<DelegateId, Delegate> {
    map d | d in delegates :: if delegates[d].buffer == o then delegates[d].(buffer := n) else delegates[d]
  }

  /** What the buffers involved in a merge satisfy. */
  ghost predicate Merging(buffers: seq<BufferId>, guest: Guests, views: Views, o: BufferId, n: BufferId) {
    && Laid(buffers, guest) && Unique(views) && Owned(buffers, guest, views, {n}) && Apart(buffers, guest, views, {n})
    && o in buffers && n in guest && n !in buffers
    && guest[n].start <= guest[o].start && guest[o].end <= guest[n].end
  }

  /** Where a view ends up when buffer o is merged into n. */
  function Destined(v: View, guest: Guests, o: BufferId, n: BufferId): View
    requires o in guest && n in guest
  {
    if v.owner == o then View(n, v.offset + (guest[o].start - guest[n].start), v.size) else v
  }

  /** Views that are not empty never collide when their buffers are disjoint. */
  lemma NoCollision(buffers: seq<BufferId>, guest: Guests, views: Views, o: BufferId, n: BufferId, u: ViewId, v: ViewId)
    requires Merging(buffers, guest, views, o, n) && o in guest
    requires u in views && views[u].owner == n && v in views && views[v].owner == o
    ensures !SameKey(views[u], Destined(views[v], guest, o, n))
  {
    assert Inside(views[v], guest);
    assert !Range(views[u], guest).Overlaps(guest[o]);
  }

  /** So the merge of the view sets leaves none behind. */
  lemma NothingStaysBehind(buffers: seq<BufferId>, guest: Guests, views: Views, o: BufferId, n: BufferId, v: ViewId)
    requires Merging(buffers, guest, views, o, n) && o in guest && v in views
    ensures var moved := Merged(Shifted(views, o, guest[o].start - guest[n].start), o, n);
      && v in moved && moved[v] == Destined(views[v], guest, o, n)
  {
    var delta := guest[o].start - guest[n].start;
    var shifted := Shifted(views, o, delta);
    if views[v].owner == o {
      forall u | u in shifted && shifted[u].owner == n ensures !SameKey(shifted[u], shifted[v]) {
        NoCollision(buffers, guest, views, o, n, u, v);
      }
    }
  }

  lemma DestinedKeepsRange(buffers: seq<BufferId>, guest: Guests, views: Views, o: BufferId, n: BufferId, v: ViewId)
    requires Merging(buffers, guest, views, o, n) && o in guest && v in views
    ensures var w := Destined(views[v], guest, o, n);
      Inside(w, guest) && Range(w, guest) == Range(views[v], guest) && w.owner != o &&
        (w.owner == n || w.owner in buffers)
  {
    assert Inside(views[v], guest);
  }

  lemma DestinedUnique(buffers: seq<BufferId>, guest: Guests, views: Views, o: BufferId, n: BufferId, v: ViewId,
                       w: ViewId)
    requires Merging(buffers, guest, views, o, n) && o in guest && v in views && w in views && v != w
    requires Destined(views[v], guest, o, n).owner == Destined(views[w], guest, o, n).owner
    ensures !SameKey(Destined(views[v], guest, o, n), Destined(views[w], guest, o, n))
  {
    if views[v].owner == views[w].owner {
      assert !SameKey(views[v], views[w]);
    } else if views[v].owner == o {
      NoCollision(buffers, guest, views, o, n, w, v);
    } else {
      NoCollision(buffers, guest, views, o, n, v, w);
    }
  }

  /** After the merge every view is owned, unique and at the address it had. */
  lemma MergeKeepsViews(buffers: seq<BufferId>, guest: Guests, views: Views, o: BufferId, n: BufferId, views': Views)
    requires Merging(buffers, guest, views, o, n) && o in guest && views'.Keys == views.Keys
    requires forall v :: v in views ==> views'[v] == Destined(views[v], guest, o, n)
    ensures Unique(views')
    ensures forall v :: v in views ==> Inside(views'[v], guest) && Range(views'[v], guest) == Range(views[v], guest)
    ensures forall v :: v in views ==> views'[v].owner != o && (views'[v].owner == n || views'[v].owner in buffers)
  {
    hide Merging, Destined, Inside, Range;
    forall v | v in views
      ensures Inside(views'[v], guest) && Range(views'[v], guest) == Range(views[v], guest)
      ensures views'[v].owner != o && (views'[v].owner == n || views'[v].owner in buffers)
    {
      DestinedKeepsRange(buffers, guest, views, o, n, v);
    }
    forall v, w | v in views' && w in views' && v != w && views'[v].owner == views'[w].owner
      ensures !SameKey(views'[v], views'[w])
    {
      DestinedUnique(buffers, guest, views, o, n, v, w);
    }
  }

  /** Views of the merged buffer are at addresses that no remaining buffer covers. */
  lemma MergeKeepsApart(buffers: seq<BufferId>, rest: seq<BufferId>, guest: Guests, views: Views, o: BufferId,
                        n: BufferId, views': Views)
    requires Merging(buffers, guest, views, o, n) && o in guest && views'.Keys == views.Keys
    requires forall b :: b in rest ==> b in buffers && b != o
    requires forall v :: v in views ==>
      && Range(views'[v], guest) == Range(views[v], guest)
      && (views'[v].owner == n ==> views[v].owner == n || views[v].owner == o)
    ensures Apart(rest, guest, views', {n})
  {
    forall v, b | v in views' && views'[v].owner in {n} && b in rest && b in guest
      ensures !Range(views'[v], guest).Overlaps(guest[b])
    {
      if views[v].owner == o {
        assert Inside(views[v], guest);
        LaidApart(buffers, guest, o, b);
      }
    }
  }

  lemma LaidApart(buffers: seq<BufferId>, guest: Guests, a: BufferId, b: BufferId)
    requires Laid(buffers, guest) && a in buffers && b in buffers && a != b
    ensures a in guest && b in guest && !guest[a].Overlaps(guest[b])
  {
    var i :| 0 <= i < |buffers| && buffers[i] == a;
    var j :| 0 <= j < |buffers| && buffers[j] == b;
  }

  /** The first tracked buffer that starts at the address or above. */
  method FirstFrom(buffers: seq<BufferId>, guest: Guests, address: int) returns (i: nat)
    requires Laid(buffers, guest)
    ensures i <= |buffers| && (i > 0 ==> buffers[i - 1] in guest && guest[buffers[i - 1]].start < address)
    ensures forall b :: b in buffers[i..] ==> b in guest && guest[b].start >= address
  {
    hide Laid;
    LaidKnown(buffers, guest);
    i := IntervalMaps.LowerBound(buffers, (b: BufferId) => if b in guest then guest[b].start else 0, address);
    if i < |buffers| {
      LaidFrom(buffers, guest, i, address);
    }
  }

  /** All tracked buffers that overlap the mapping, from the highest down. */
  method FindOverlaps(buffers: seq<BufferId>, guest: Guests, mapping: Interval) returns (overlaps: seq<BufferId>)
    requires Laid(buffers, guest)
    ensures forall b :: b in overlaps <==> b in buffers && guest[b].Overlaps(mapping)
    ensures forall i, j :: 0 <= i < j < |overlaps| ==> overlaps[i] != overlaps[j]
  {
    hide Laid;
    LaidKnown(buffers, guest);
    overlaps := [];
    var i := FirstFrom(buffers, guest, mapping.end);
    while i != 0 && guest[buffers[i - 1]].start <= mapping.end
      invariant 0 <= i <= |buffers|
      invariant i > 0 ==> guest[buffers[i - 1]].start < mapping.end
      invariant forall b :: b in overlaps <==> b in buffers[i..] && guest[b].Overlaps(mapping)
      invariant forall i, j :: 0 <= i < j < |overlaps| ==> overlaps[i] != overlaps[j]
    {
      i := i - 1;
      if i > 0 {
        LaidOrder(buffers, guest, i - 1, i);
      }
      assert buffers[i..] == [buffers[i]] + buffers[i + 1..];
      LaidDistinct(buffers, guest, i);
      if guest[buffers[i]].end > mapping.start {
        overlaps := overlaps + [buffers[i]];
      }
    }
    assert buffers[0..] == buffers;
  }

  /** The extents of a buffer that can hold the mapping and all overlaps. */
  method Hull(guest: Guests, mapping: Interval, overlaps: seq<BufferId>) returns (hull: Interval)
    requires forall b :: b in overlaps ==> b in guest && guest[b].Aligned() && guest[b].Overlaps(mapping)
    requires mapping.Aligned() && mapping.NonEmpty()
    ensures hull.Aligned() && hull.start <= mapping.start && mapping.end <= hull.end
    ensures forall b :: b in overlaps ==> hull.start <= guest[b].start && guest[b].end <= hull.end
    ensures forall other: Interval ::
      other.NonEmpty() && !other.Overlaps(mapping) && (forall b :: b in overlaps ==> !other.Overlaps(guest[b])) ==>
      !other.Overlaps(hull)
  {
    hull := mapping;
    for i := 0 to |overlaps|
      invariant hull.Aligned() && hull.start <= mapping.start && mapping.end <= hull.end
      invariant forall j :: 0 <= j < i ==> hull.start <= guest[overlaps[j]].start && guest[overlaps[j]].end <= hull.end
      invariant forall other: Interval ::
        other.NonEmpty() && !other.Overlaps(mapping) && (forall b :: b in overlaps ==> !other.Overlaps(guest[b])) ==>
        !other.Overlaps(hull)
    {
      var extents := guest[overlaps[i]];
      assert overlaps[i] in overlaps;
      if extents.start < hull.start {
        hull := hull.(start := extents.start);
      }
      if extents.end > hull.end {
        hull := hull.(end := extents.end);
      }
    }
  }

  /** What a lookup does: use a tracked buffer, or create one over the hull that replaces the overlaps. */
  datatype Choice = Reuse(b: BufferId) | Create(hull: Interval, overlaps: seq<BufferId>)

  /** The overlaps are exactly the tracked buffers that the hull touches, and it holds them and the mapping and nothing
      else. */
  ghost predicate Picked(buffers: seq<BufferId>, guest: Guests, mapping: Interval, hull: Interval,
                         overlaps: seq<BufferId>) {
    && hull.Aligned() && hull.NonEmpty() && hull.start <= mapping.start && mapping.end <= hull.end
    && (forall b :: b in overlaps ==> b in buffers && b in guest && guest[b].Overlaps(mapping))
    && (forall b :: b in overlaps && b in guest ==>
          guest[b].Overlaps(hull) && hull.start <= guest[b].start && guest[b].end <= hull.end)
    && (forall b :: b in buffers && b !in overlaps ==> b in guest && !guest[b].Overlaps(hull))
    && (forall i, j :: 0 <= i < j < |overlaps| ==> overlaps[i] != overlaps[j])
    && (forall a :: hull.Contains(a) ==> mapping.Contains(a) || CoveredBy(overlaps, guest, a))
  }

  /** The decision of a lookup: a buffer is used exactly if it holds the whole mapping. */
  method Choose(buffers: seq<BufferId>, guest: Guests, mapping: Interval) returns (choice: Choice)
    requires Laid(buffers, guest) && mapping.Aligned() && mapping.NonEmpty()
    ensures choice.Reuse? ==> choice.b in buffers
    ensures forall b :: b in buffers && Holds(guest, b, mapping) <==> choice == Reuse(b)
    ensures choice.Create? ==> Picked(buffers, guest, mapping, choice.hull, choice.overlaps)
  {
    hide Laid, CoveredBy;
    LaidKnown(buffers, guest);
    var overlaps := FindOverlaps(buffers, guest, mapping);
    HolderIsOnlyOverlap(buffers, guest, overlaps, mapping);
    if |overlaps| == 1 {
      var b := overlaps[0];
      assert b in overlaps;
      if guest[b].start <= mapping.start && guest[b].end >= mapping.end {
        return Reuse(b);
      }
    }
    var hull := Hull(guest, mapping, overlaps);
    OthersApart(buffers, guest, overlaps, mapping, hull);
    forall a | hull.Contains(a) ensures mapping.Contains(a) || CoveredBy(overlaps, guest, a) {
      HullCovered(guest, mapping, hull, overlaps, a);
    }
    return Create(hull, overlaps);
  }

  lemma HullCovered(guest: Guests, mapping: Interval, hull: Interval, overlaps: seq<BufferId>, a: int)
    requires forall b :: b in overlaps ==> b in guest
    requires forall other: Interval ::
      other.NonEmpty() && !other.Overlaps(mapping) && (forall b :: b in overlaps ==> !other.Overlaps(guest[b])) ==>
      !other.Overlaps(hull)
    requires hull.Contains(a)
    ensures mapping.Contains(a) || CoveredBy(overlaps, guest, a)
  {
    if !mapping.Contains(a) {
      var point := Interval(a, a + 1);
      assert point.NonEmpty() && point.Overlaps(hull) && !point.Overlaps(mapping);
      var o :| o in overlaps && point.Overlaps(guest[o]);
      assert guest[o].Contains(a);
    }
  }

  /** The vector once a new buffer has replaced those that it holds. */
  method Exchange(buffers: seq<BufferId>, guest: Guests, overlaps: seq<BufferId>, n: BufferId)
    returns (r: seq<BufferId>)
    requires Laid(buffers, guest) && n in guest && guest[n].Aligned() && guest[n].NonEmpty()
    requires forall i, j :: 0 <= i < j < |overlaps| ==> overlaps[i] != overlaps[j]
    requires forall b :: b in overlaps ==> b in buffers
    requires forall b :: b in buffers && b !in overlaps ==> b in guest && !guest[b].Overlaps(guest[n])
    ensures Laid(r, guest) && forall b :: b in r <==> b == n || (b in buffers && b !in overlaps)
  {
    hide Laid;
    r := buffers;
    for i := 0 to |overlaps|
      invariant Laid(r, guest) && forall b :: b in r <==> b in buffers && b !in overlaps[..i]
    {
      assert overlaps[i] in overlaps && overlaps[..i + 1] == overlaps[..i] + [overlaps[i]];
      var it :| 0 <= it < |r| && r[it] == overlaps[i];
      LaidErase(r, guest, it);
      r := r[..it] + r[it + 1..];
    }
    assert overlaps[..|overlaps|] == overlaps;
    LaidKnown(r, guest);
    var at := IntervalMaps.LowerBound(r, (b: BufferId) => if b in guest then guest[b].start else 0, guest[n].end);
    LaidInsert(r, guest, n, at);
    r := r[..at] + [n] + r[at..];
  }

  /** The layout depends only on where the tracked buffers lie. */
  lemma LaidElsewhere(buffers: seq<BufferId>, guest: Guests, guest': Guests)
    requires Laid(buffers, guest) && forall b :: b in buffers && b in guest ==> b in guest' && guest'[b] == guest[b]
    ensures Laid(buffers, guest')
  {
  }

  class BufferManager {
    var buffers: seq<BufferId>
    var guest: Guests
    var views: Views
    var delegates: map<DelegateId, Delegate>
    var nextId: nat

    /** Everything is in order, except that the buffer under construction, if any, is not tracked yet: its views are
        at addresses that no tracked buffer covers any more. */
    ghost predicate Consistent(pending: set<BufferId>)
      reads this
    {
      Laid(buffers, guest) && Unique(views) && Owned(buffers, guest, views, pending) &&
        Apart(buffers, guest, views, pending)
      && Linked(views, delegates) && Fresh()
    }

    ghost predicate Fresh()
      reads this
    {
      && (forall b :: b in guest ==> b < nextId)
      && (forall v :: v in views ==> v < nextId)
      && (forall d :: d in delegates ==> d < nextId)
    }

    ghost predicate Valid()
      reads this
    {
      Consistent({})
    }

    constructor ()
      ensures Valid() && buffers == [] && views == map[] && delegates == map[]
    {
      buffers, guest, views, delegates, nextId := [], map[], map[], map[], 0;
    }

    /** A cached or new view of a tracked buffer, and a delegate for it. */
    method GetView(b: BufferId, offset: int, size: int) returns (d: DelegateId)
      requires Valid() && b in buffers && 0 <= offset && 0 < size && offset + size <= guest[b].end - guest[b].start
      modifies this
      ensures Valid() && buffers == old(buffers) && guest == old(guest)
      ensures Kept(old(views), old(guest), old(delegates), views, guest, delegates)
      ensures d in delegates && d !in old(delegates) &&
        Range(views[delegates[d].view], guest) == Interval(guest[b].start + offset, guest[b].start + offset + size)
      ensures delegates[d].buffer == b
    {
      hide Laid, Unique, Owned, Apart, Linked, Kept;
      NothingChanged(views, guest, delegates);
      LaidKnown(buffers, guest);
      var wanted := View(b, offset, size);
      var v := nextId;
      if u :| u in views && views[u] == wanted {
        v := u;
      } else {
        ViewAdded(buffers, guest, views, delegates, v, wanted);
        views := views[v := wanted];
      }
      d := nextId;
      DelegateAdded(views, guest, delegates, d, Delegate(b, v));
      delegates := delegates[d := Delegate(b, v)];
      nextId := nextId + 1;
    }

    /** Takes one overlapping buffer out of the vector and hands its views and delegates to the new buffer. */
    method MergeOverlap(o: BufferId, n: BufferId)
      requires Consistent({n}) && o in buffers && n in guest && n !in buffers && o in guest
      requires guest[n].start <= guest[o].start && guest[o].end <= guest[n].end
      modifies this
      ensures Consistent({n}) && guest == old(guest) && nextId == old(nextId)
      ensures forall b :: b in buffers <==> b in old(buffers) && b != o
      ensures Kept(old(views), old(guest), old(delegates), views, guest, delegates)
    {
      hide Laid, Unique, Owned, Apart, Linked, Kept, Shifted, Merged, Repointed;
      ghost var was, before, links := buffers, views, delegates;
      var it :| 0 <= it < |buffers| && buffers[it] == o;
      LaidErase(buffers, guest, it);
      buffers := buffers[..it] + buffers[it + 1..];
      views := Shifted(views, o, guest[o].start - guest[n].start);
      views := Merged(views, o, n);
      delegates := Repointed(delegates, o, n);
      MergeStep(was, buffers, guest, before, links, o, n);
    }

    /** A buffer over the hull replaces all overlaps. */
    method Replace(hull: Interval, overlaps: seq<BufferId>) returns (n: BufferId)
      requires Valid() && hull.Aligned() && hull.NonEmpty()
      requires forall i, j :: 0 <= i < j < |overlaps| ==> overlaps[i] != overlaps[j]
      requires forall b :: b in overlaps ==>
        b in buffers && b in guest && hull.start <= guest[b].start && guest[b].end <= hull.end
      requires forall b :: b in buffers && b !in overlaps ==> b in guest && !guest[b].Overlaps(hull)
      modifies this
      ensures Valid() && n !in old(guest) && guest == old(guest)[n := hull]
      ensures forall b :: b in buffers <==> b == n || (b in old(buffers) && b !in overlaps)
      ensures Kept(old(views), old(guest), old(delegates), views, guest, delegates)
    {
      hide Laid, Unique, Owned, Apart, Linked, Kept;
      n := nextId;
      ghost var before := guest;
      LaidKnown(buffers, guest);
      guest := guest[n := hull];
      nextId := nextId + 1;
      Allocated(buffers, before, guest, views, delegates, n);
      for i := 0 to |overlaps|
        invariant Consistent({n}) && guest == old(guest)[n := hull] && n !in buffers && n !in old(guest)
        invariant forall b :: b in buffers <==> b in old(buffers) && b !in overlaps[..i]
        invariant Kept(old(views), old(guest), old(delegates), views, guest, delegates)
      {
        assert overlaps[i] in overlaps;
        assert overlaps[i] !in overlaps[..i];
        assert overlaps[..i + 1] == overlaps[..i] + [overlaps[i]];
        label L:
        MergeOverlap(overlaps[i], n);
        KeptTrans(old(views), old(guest), old(delegates), old@L(views), old@L(guest), old@L(delegates), views, guest,
          delegates);
      }
      assert overlaps[..|overlaps|] == overlaps;
      Track(n);
    }

    /** The new buffer takes its place in the vector. */
    method Track(n: BufferId)
      requires Consistent({n}) && n in guest && guest[n].Aligned() && guest[n].NonEmpty()
      requires forall b :: b in buffers ==> b in guest && !guest[b].Overlaps(guest[n])
      modifies this`buffers
      ensures Valid() && forall b :: b in buffers <==> b == n || b in old(buffers)
    {
      hide Laid, Unique, Owned, Apart, Linked;
      LaidKnown(buffers, guest);
      var g := guest;
      var at := IntervalMaps.LowerBound(buffers, (b: BufferId) => if b in g then g[b].start else 0, guest[n].end);
      LaidInsert(buffers, guest, n, at);
      Tracked(buffers, buffers[..at] + [n] + buffers[at..], guest, views, n);
      buffers := buffers[..at] + [n] + buffers[at..];
    }

    /** A view of exactly the requested guest range.  Tracked buffers stay in order, page aligned and disjoint, cover
        what they covered and the pages of the request and nothing else, and every view and delegate handed out
        before still denotes the same guest addresses. */
    method FindOrCreate(requested: Interval) returns (d: DelegateId)
      requires Valid() && requested.NonEmpty()
      modifies this
      ensures Valid() && Kept(old(views), old(guest), old(delegates), views, guest, delegates)
      ensures d in delegates && d !in old(delegates) && Range(views[delegates[d].view], guest) == requested
      ensures forall a :: CoveredBy(buffers, guest, a) <==>
        CoveredBy(old(buffers), old(guest), a) || requested.Align().Contains(a)
      ensures forall b :: b in old(buffers) && Holds(old(guest), b, requested.Align()) ==>
        buffers == old(buffers) && guest == old(guest) && delegates[d].buffer == b
    {
      hide Laid, Unique, Owned, Apart, Linked, Kept;
      var mapping := requested.Align();
      var offset, size := requested.start - mapping.start, requested.end - requested.start;
      LaidKnown(buffers, guest);
      var choice := Choose(buffers, guest, mapping);
      if choice.Reuse? {
        d := GetView(choice.b, mapping.start - guest[choice.b].start + offset, size);
        return;
      }
      label L:
      var n := Replace(choice.hull, choice.overlaps);
      CoverageOf(old@L(buffers), old@L(guest), buffers, guest, choice.overlaps, mapping, choice.hull, n);
      KeptKeys(old(views), old(guest), old(delegates), views, guest, delegates);
      label M:
      d := GetView(n, mapping.start - choice.hull.start + offset, size);
      KeptTrans(old(views), old(guest), old(delegates), old@M(views), old@M(guest), old@M(delegates), views, guest,
        delegates);
    }
  }

  /** The buffer holds the whole mapping. */
  ghost predicate Holds(guest: Guests, b: BufferId, mapping: Interval) {
    b in guest && guest[b].start <= mapping.start && mapping.end <= guest[b].end
  }

  /** A buffer that holds the whole mapping is the only one that overlaps it. */
  lemma HolderIsOnlyOverlap(buffers: seq<BufferId>, guest: Guests, overlaps: seq<BufferId>, mapping: Interval)
    requires Laid(buffers, guest) && mapping.NonEmpty()
    requires forall b :: b in overlaps <==> b in buffers && b in guest && guest[b].Overlaps(mapping)
    requires forall i, j :: 0 <= i < j < |overlaps| ==> overlaps[i] != overlaps[j]
    ensures forall b :: b in buffers && Holds(guest, b, mapping) ==> overlaps == [b]
  {
    forall b | b in buffers && Holds(guest, b, mapping) ensures overlaps == [b] {
      assert b in overlaps;
      assert |overlaps| > 1 ==> overlaps[0] != overlaps[1];
      forall i | 0 <= i < |overlaps| ensures overlaps[i] == b {
        assert overlaps[i] in overlaps;
        if overlaps[i] != b {
          LaidApart(buffers, guest, overlaps[i], b);
        }
      }
    }
  }

  /** Some tracked buffer covers the address. */
  ghost predicate CoveredBy(buffers: seq<BufferId>, guest: Guests, a: int) {
    exists b :: b in buffers && b in guest && guest[b].Contains(a)
  }

  lemma OthersApart(buffers: seq<BufferId>, guest: Guests, overlaps: seq<BufferId>, mapping: Interval, hull: Interval)
    requires Laid(buffers, guest)
    requires forall b :: b in overlaps <==> b in buffers && b in guest && guest[b].Overlaps(mapping)
    requires forall other: Interval ::
      other.NonEmpty() && !other.Overlaps(mapping) && (forall b :: b in overlaps ==> !other.Overlaps(guest[b])) ==>
      !other.Overlaps(hull)
    ensures forall b :: b in buffers && b !in overlaps ==> b in guest && !guest[b].Overlaps(hull)
  {
    LaidKnown(buffers, guest);
    forall b | b in buffers && b !in overlaps ensures !guest[b].Overlaps(hull) {
      forall o | o in overlaps ensures !guest[b].Overlaps(guest[o]) {
        LaidApart(buffers, guest, b, o);
      }
    }
  }

  /** The hull covers just what the mapping and the overlaps cover. */
  lemma CoverageOf(buffers: seq<BufferId>, guest: Guests, buffers': seq<BufferId>, guest': Guests,
                   overlaps: seq<BufferId>, mapping: Interval, hull: Interval, n: BufferId)
    requires n !in guest && guest' == guest[n := hull] && Picked(buffers, guest, mapping, hull, overlaps)
    requires forall b :: b in buffers' <==> b == n || (b in buffers && b !in overlaps)
    ensures forall a :: CoveredBy(buffers', guest', a) <==> CoveredBy(buffers, guest, a) || mapping.Contains(a)
  {
    forall a ensures CoveredBy(buffers', guest', a) <==> CoveredBy(buffers, guest, a) || mapping.Contains(a) {
      if b :| b in buffers && b in guest && guest[b].Contains(a) {
        assert b !in overlaps ==> b in buffers' && guest'[b].Contains(a);
        assert b in overlaps ==> guest'[n].Contains(a);
      }
      if mapping.Contains(a) {
        assert guest'[n].Contains(a);
      }
      if b :| b in buffers' && b in guest' && guest'[b].Contains(a) {
        if b != n {
          assert guest[b].Contains(a);
        }
      }
    }
  }

  /** Adding an untracked buffer changes nothing that exists. */
  lemma Allocated(buffers: seq<BufferId>, guest: Guests, guest': Guests, views: Views,
                  delegates: map<DelegateId, Delegate>, n: BufferId)
    requires Laid(buffers, guest) && Owned(buffers, guest, views, {}) && n !in guest && n in guest'
    requires guest' == guest[n := guest'[n]]
    ensures n !in buffers && Laid(buffers, guest') && Owned(buffers, guest', views, {n})
    ensures Apart(buffers, guest', views, {n})
    ensures Kept(views, guest, delegates, views, guest', delegates)
  {
    LaidKnown(buffers, guest);
    forall v | v in views
      ensures Inside(views[v], guest') && views[v].owner != n && Range(views[v], guest') == Range(views[v], guest)
    {
      assert Inside(views[v], guest);
    }
  }

  /** Once the new buffer is tracked, nothing is pending. */
  lemma Tracked(buffers: seq<BufferId>, buffers': seq<BufferId>, guest: Guests, views: Views, n: BufferId)
    requires Owned(buffers, guest, views, {n}) && n in buffers' && forall b :: b in buffers ==> b in buffers'
    ensures Owned(buffers', guest, views, {}) && Apart(buffers', guest, views, {})
  {
  }

  lemma KeptKeys(v0: Views, g0: Guests, d0: map<DelegateId, Delegate>, v1: Views, g1: Guests,
                 d1: map<DelegateId, Delegate>)
    requires Kept(v0, g0, d0, v1, g1, d1)
    ensures d0.Keys <= d1.Keys && v0.Keys <= v1.Keys
  {
  }

  lemma KeptTrans(v0: Views, g0: Guests, d0: map<DelegateId, Delegate>, v1: Views, g1: Guests,
                  d1: map<DelegateId, Delegate>, v2: Views, g2: Guests, d2: map<DelegateId, Delegate>)
    requires Kept(v0, g0, d0, v1, g1, d1) && Kept(v1, g1, d1, v2, g2, d2)
    ensures Kept(v0, g0, d0, v2, g2, d2)
  {
    hide Range;
  }

  /** Handing over the views and delegates of one buffer keeps everything in order and loses nothing. */
  lemma MergeStep(buffers: seq<BufferId>, rest: seq<BufferId>, guest: Guests, views: Views,
                  delegates: map<DelegateId, Delegate>, o: BufferId, n: BufferId)
    requires Merging(buffers, guest, views, o, n) && o in guest && Linked(views, delegates)
    requires forall b :: b in rest <==> b in buffers && b != o
    ensures
      var views', delegates' := Merged(Shifted(views, o, guest[o].start - guest[n].start), o, n),
        Repointed(delegates, o, n);
      && views'.Keys == views.Keys && delegates'.Keys == delegates.Keys
      && Unique(views') && Owned(rest, guest, views', {n}) && Apart(rest, guest, views', {n}) &&
        Linked(views', delegates')
      && Kept(views, guest, delegates, views', guest, delegates')
  {
    var views' := Merged(Shifted(views, o, guest[o].start - guest[n].start), o, n);
    assert views'.Keys == views.Keys;
    hide Unique, Owned, Apart, Linked, Kept, Inside, Range, Laid, Shifted, Merged;
    forall v | v in views ensures views'[v] == Destined(views[v], guest, o, n) {
      NothingStaysBehind(buffers, guest, views, o, n, v);
    }
    MergeKeepsViews(buffers, guest, views, o, n, views');
    MergeKeepsApart(buffers, rest, guest, views, o, n, views');
    MergeKeepsLinks(rest, guest, views, views', delegates, o, n);
  }

  lemma MergeKeepsLinks(rest: seq<BufferId>, guest: Guests, views: Views, views': Views,
                        delegates: map<DelegateId, Delegate>, o: BufferId, n: BufferId)
    requires Linked(views, delegates) && views'.Keys == views.Keys
    requires forall v :: v in views ==> Inside(views'[v], guest) && Range(views'[v], guest) == Range(views[v], guest)
    requires forall v :: v in views ==> views'[v].owner == (if views[v].owner == o then n else views[v].owner)
    requires forall v :: v in views ==> views'[v].owner == n || views'[v].owner in rest
    ensures Linked(views', Repointed(delegates, o, n)) && Owned(rest, guest, views', {n})
    ensures Kept(views, guest, delegates, views', guest, Repointed(delegates, o, n))
  {
  }
}
