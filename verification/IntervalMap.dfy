/** Groups of overlapping address intervals, each group carrying one value, with the page-aligned
    recursive lookup that the memory fault handler relies on. */
module IntervalMaps {
  import opened Paging

  /** Stands for the list iterator that identifies a group; iterators are never reused by this model. */
  type Handle = nat

  datatype Group<V> = Group(intervals: seq<Interval>, value: V)

  datatype Entry = Entry(span: Interval, group: Handle)

  /** std::lower_bound as the library computes it.  Nothing is assumed about the order of the elements,
      so only the two neighbours of the result are known. */
  method LowerBound<T>(s: seq<T>, key: T -> int, address: int) returns (r: nat)
    ensures r <= |s|
    ensures r > 0 ==> key(s[r - 1]) < address
    ensures r < |s| ==> key(s[r]) >= address
  {
    r := 0;
    var len := |s|;
    while len > 0
      invariant 0 <= r && 0 <= len && r + len <= |s|
      invariant r > 0 ==> key(s[r - 1]) < address
      invariant r + len < |s| ==> key(s[r + len]) >= address
    {
      var half := len / 2;
      if key(s[r + half]) < address {
        r, len := r + half + 1, len - half - 1;
      } else {
        len := half;
      }
    }
  }

  /** What the interval list of a query keeps although it is not sorted: members are non-empty and each
      starts before its successor ends. */
  ghost predicate Chained(list: seq<Interval>) {
    && (forall i :: 0 <= i < |list| ==> list[i].NonEmpty())
    && (forall i :: 0 < i < |list| ==> list[i - 1].start < list[i].end)
  }

  ghost predicate AllAligned(list: seq<Interval>) {
    forall i :: 0 <= i < |list| ==> list[i].Aligned()
  }

  /** Emplacing an interval at the lower bound of any address it spans or ends at. */
  method Place(list: seq<Interval>, address: int, iv: Interval) returns (r: seq<Interval>)
    requires Chained(list) && iv.NonEmpty() && iv.start <= address <= iv.end
    ensures Chained(r)
    ensures AllAligned(list) && iv.Aligned() ==> AllAligned(r)
    ensures forall x :: x in r <==> x in list || x == iv
  {
    var at := LowerBound(list, (x: Interval) => x.start, address);
    r := list[..at] + [iv] + list[at..];
  }

  ghost predicate SortedByStart(list: seq<Interval>) {
    forall i, j :: 0 <= i < j < |list| ==> list[i].start <= list[j].start
  }

  /** Among the first n members no two neighbours touch. */
  ghost predicate Separated(list: seq<Interval>, n: nat) {
    forall i :: 0 < i < n && i < |list| ==> list[i - 1].end < list[i].start
  }

  /** The hull of two intervals, which one coalescing step puts in place of both. */
  function Hull(x: Interval, y: Interval): Interval {
    Interval(if x.start > y.start then y.start else x.start, if x.end < y.end then y.end else x.end)
  }

  function MergeAt(list: seq<Interval>, i: nat): seq<Interval>
    requires i + 1 < |list|
  {
    list[..i] + [Hull(list[i], list[i + 1])] + list[i + 2..]
  }

  /** Merging two touching neighbours covers exactly what the two covered. */
  lemma MergeCovers(list: seq<Interval>, i: nat, a: int)
    requires Chained(list) && i + 1 < |list| && list[i].end >= list[i + 1].start
    ensures Covered(MergeAt(list, i), a) <==> Covered(list, a)
  {
    var merged := MergeAt(list, i);
    if Covered(list, a) {
      var k :| 0 <= k < |list| && list[k].Contains(a);
      var k' := if k <= i then k else k - 1;
      assert merged[k'].Contains(a);
    }
    if Covered(merged, a) {
      var k :| 0 <= k < |merged| && merged[k].Contains(a);
      if k < i {
        assert list[k].Contains(a);
      } else if k > i {
        assert list[k + 1].Contains(a);
      } else {
        assert list[i].Contains(a) || list[i + 1].Contains(a);
      }
    }
  }

  lemma MergeAtIndex(list: seq<Interval>, i: nat, k: nat)
    requires i + 1 < |list| && k < |list| - 1
    ensures |MergeAt(list, i)| == |list| - 1
    ensures MergeAt(list, i)[k] == if k < i then list[k] else if k == i then Hull(list[i], list[i + 1]) else list[k + 1]
  {
  }

  /** One coalescing step keeps the chain. */
  lemma MergeKeepsChain(list: seq<Interval>, i: nat)
    requires Chained(list) && i + 1 < |list| && list[i].end >= list[i + 1].start
    ensures Chained(MergeAt(list, i))
  {
    var m := MergeAt(list, i);
    forall k | 0 <= k < |m| ensures m[k].NonEmpty() {
      MergeAtIndex(list, i, k);
    }
    forall k | 0 < k < |m| ensures m[k - 1].start < m[k].end {
      MergeAtIndex(list, i, k);
      MergeAtIndex(list, i, k - 1);
    }
  }

  lemma MergeKeepsAligned(list: seq<Interval>, i: nat)
    requires i + 1 < |list| && AllAligned(list)
    ensures AllAligned(MergeAt(list, i))
  {
    var m := MergeAt(list, i);
    forall k | 0 <= k < |m| ensures m[k].Aligned() {
      MergeAtIndex(list, i, k);
    }
  }

  /** On a sorted list one step also keeps the order and the separated prefix. */
  lemma MergeKeepsSorted(list: seq<Interval>, i: nat)
    requires i + 1 < |list| && SortedByStart(list) && Separated(list, i + 1)
    ensures SortedByStart(MergeAt(list, i)) && Separated(MergeAt(list, i), i + 1)
  {
    var m := MergeAt(list, i);
    forall j, k | 0 <= j < k < |m| ensures m[j].start <= m[k].start {
      MergeAtIndex(list, i, j);
      MergeAtIndex(list, i, k);
    }
    forall k | 0 < k < i + 1 && k < |m| ensures m[k - 1].end < m[k].start {
      MergeAtIndex(list, i, k);
      MergeAtIndex(list, i, k - 1);
    }
  }

  /** The coalescing pass at the end of a query. */
  method Coalesce(list: seq<Interval>) returns (r: seq<Interval>)
    requires Chained(list)
    ensures Chained(r) && |r| <= |list|
    ensures AllAligned(list) ==> AllAligned(r)
    ensures forall a :: Covered(r, a) <==> Covered(list, a)
    ensures SortedByStart(list) ==> Separated(r, |r|)
  {
    r := list;
    var i := 0;
    while i < |r|
      invariant 0 <= i <= |r| <= |list|
      invariant Chained(r)
      invariant AllAligned(list) ==> AllAligned(r)
      invariant forall a :: Covered(r, a) <==> Covered(list, a)
      invariant SortedByStart(list) ==> SortedByStart(r) && Separated(r, i + 1)
      decreases |r| - i
    {
      if i + 1 < |r| && r[i].end >= r[i + 1].start {
        forall a ensures Covered(MergeAt(r, i), a) <==> Covered(r, a) {
          MergeCovers(r, i, a);
        }
        MergeKeepsChain(r, i);
        if AllAligned(list) { MergeKeepsAligned(r, i); }
        if SortedByStart(list) { MergeKeepsSorted(r, i); }
        r := MergeAt(r, i);
      } else {
        i := i + 1;
      }
    }
  }

  ghost predicate Sorted(entries: seq<Entry>) {
    forall i, j :: 0 <= i < j < |entries| ==> entries[i].span.start <= entries[j].span.start
  }

  /** Inserting at the lower bound of the entry's own start keeps the vector sorted. */
  lemma InsertKeepsSorted(entries: seq<Entry>, at: nat, e: Entry)
    requires Sorted(entries) && at <= |entries|
    requires at > 0 ==> entries[at - 1].span.start < e.span.start
    requires at < |entries| ==> entries[at].span.start >= e.span.start
    ensures Sorted(entries[..at] + [e] + entries[at..])
    ensures forall x :: x in entries[..at] + [e] + entries[at..] <==> x in entries || x == e
  {
  }

  lemma EraseKeepsSorted(entries: seq<Entry>, at: nat)
    requires Sorted(entries) && at < |entries|
    ensures Sorted(entries[..at] + entries[at + 1..])
    ensures forall x :: x in entries[..at] + entries[at + 1..] || x == entries[at] <==> x in entries
  {
    assert entries == entries[..at] + [entries[at]] + entries[at + 1..];
  }

  class IntervalMap<V> {
    var entries: seq<Entry>
    var groups: map<Handle, Group<V>>
    var nextHandle: Handle

    /** The entry vector is sorted by start and holds exactly the intervals of the live groups. */
    ghost predicate Valid()
      reads this
    {
      && Sorted(entries)
      && (forall i :: 0 <= i < |entries| ==> Listed(entries[i]) && entries[i].span.NonEmpty())
      && (forall h, k :: h in groups && k in groups[h].intervals ==> Entry(k, h) in entries)
      && (forall h :: h in groups ==> h < nextHandle)
    }

    ghost predicate Listed(e: Entry)
      reads this
    {
      e.group in groups && e.span in groups[e.group].intervals
    }

    /** Group h has an interval that overlaps iv. */
    ghost predicate Touches(h: Handle, iv: Interval)
      reads this
    {
      h in groups && exists k :: k in groups[h].intervals && k.Overlaps(iv)
    }

    /** No group other than h overlaps iv. */
    ghost predicate OnlyTouchedBy(h: Handle, iv: Interval)
      reads this
    {
      forall g :: Touches(g, iv) ==> g == h
    }

    constructor ()
      ensures Valid() && groups == map[]
    {
      entries, groups, nextHandle := [], map[], 0;
    }

    /** Insertion of a collection of spans under one fresh handle. */
    method Insert(intervals: seq<Interval>, value: V) returns (handle: Handle)
      requires Valid()
      requires forall k :: k in intervals ==> k.NonEmpty()
      modifies this
      ensures Valid()
      ensures handle !in old(groups) && groups == old(groups)[handle := Group(intervals, value)]
    {
      handle := nextHandle;
      nextHandle := nextHandle + 1;
      groups := groups[handle := Group(intervals, value)];
      for i := 0 to |intervals|
        invariant groups == old(groups)[handle := Group(intervals, value)] && nextHandle == handle + 1
        invariant Sorted(entries)
        invariant forall e :: e in entries <==> e in old(entries) || (e.group == handle && e.span in intervals[..i])
      {
        var at := LowerBound(entries, (e: Entry) => e.span.start, intervals[i].start);
        InsertKeepsSorted(entries, at, Entry(intervals[i], handle));
        entries := entries[..at] + [Entry(intervals[i], handle)] + entries[at..];
        assert intervals[..i + 1] == intervals[..i] + [intervals[i]];
      }
      assert intervals[..|intervals|] == intervals;
    }

    method Remove(handle: Handle)
      requires Valid() && handle in groups
      modifies this
      ensures Valid()
      ensures groups == old(groups) - {handle}
    {
      var i := 0;
      while i < |entries|
        invariant 0 <= i <= |entries|
        invariant groups == old(groups) && nextHandle == old(nextHandle)
        invariant Sorted(entries)
        invariant forall j :: 0 <= j < i ==> entries[j].group != handle
        invariant forall e :: e in entries ==> e in old(entries)
        invariant forall e :: e in old(entries) && e.group != handle ==> e in entries
        decreases |entries| - i
      {
        if entries[i].group == handle {
          EraseKeepsSorted(entries, i);
          entries := entries[..i] + entries[i + 1..];
        } else {
          i := i + 1;
        }
      }
      groups := groups - {handle};
    }

    /** Assignment through the reference that a lookup hands out. */
    method SetValue(handle: Handle, value: V)
      requires Valid() && handle in groups
      modifies this
      ensures Valid()
      ensures groups == old(groups)[handle := old(groups)[handle].(value := value)]
    {
      groups := groups[handle := groups[handle].(value := value)];
    }

    /** From the lower bound of the interval's end on, no entry overlaps it; before it, all start early enough. */
    lemma ScanStart(iv: Interval, i: nat)
      requires Valid() && i <= |entries|
      requires i > 0 ==> entries[i - 1].span.start < iv.end
      requires i < |entries| ==> entries[i].span.start >= iv.end
      ensures forall j :: i <= j < |entries| ==> entries[j].span.start >= iv.end && !entries[j].span.Overlaps(iv)
      ensures forall j :: 0 <= j < i ==> entries[j].span.start < iv.end
    {
    }

    lemma EntryTouches(i: nat, iv: Interval)
      requires Valid() && i < |entries| && entries[i].span.Overlaps(iv)
      ensures Touches(entries[i].group, iv) && Listed(entries[i]) && entries[i].span.NonEmpty()
    {
    }

    /** A scan that accounted for every overlapping entry accounted for every overlapping group. */
    lemma ScanComplete(iv: Interval, found: seq<Handle>)
      requires Valid()
      requires forall j :: 0 <= j < |entries| && entries[j].span.Overlaps(iv) ==> entries[j].group in found
      ensures forall h :: Touches(h, iv) ==> h in found
    {
      forall h | Touches(h, iv) ensures h in found {
        var k :| k in groups[h].intervals && k.Overlaps(iv);
        assert Entry(k, h) in entries;
      }
    }

    /** Every group overlapping the interval, each once. */
    method GetRange(iv: Interval) returns (r: seq<Handle>)
      requires Valid()
      ensures forall h :: h in r <==> Touches(h, iv)
      ensures forall i, j :: 0 <= i < j < |r| ==> r[i] != r[j]
    {
      r := [];
      var i := LowerBound(entries, (e: Entry) => e.span.start, iv.end);
      while i != 0 && entries[i - 1].span.start < iv.end
        invariant 0 <= i <= |entries|
        invariant forall h :: h in r ==> Touches(h, iv)
        invariant forall i, j :: 0 <= i < j < |r| ==> r[i] != r[j]
        invariant forall j :: i <= j < |entries| && entries[j].span.Overlaps(iv) ==> entries[j].group in r
      {
        i := i - 1;
        if entries[i].span.end > iv.start && entries[i].group !in r {
          r := r + [entries[i].group];
        }
      }
      forall h | Touches(h, iv) ensures h in r {
        var k :| k in groups[h].intervals && k.Overlaps(iv);
        assert Entry(k, h) in entries;
      }
    }

    /** No group besides g and h overlaps the interval. */
    method ExclusiveTo(iv: Interval, g: Handle, h: Handle) returns (exclusive: bool)
      requires Valid()
      ensures exclusive <==> forall x :: Touches(x, iv) ==> x == g || x == h
    {
      var i := LowerBound(entries, (e: Entry) => e.span.start, iv.end);
      while i != 0 && entries[i - 1].span.start < iv.end
        invariant 0 <= i <= |entries|
        invariant forall j :: i <= j < |entries| && entries[j].span.Overlaps(iv) ==>
          entries[j].group == g || entries[j].group == h
      {
        i := i - 1;
        if entries[i].span.end > iv.start && entries[i].group != g && entries[i].group != h {
          assert Touches(entries[i].group, iv);
          return false;
        }
      }
      forall x | Touches(x, iv) ensures x == g || x == h {
        var k :| k in groups[x].intervals && k.Overlaps(iv);
        assert Entry(k, x) in entries;
      }
      return true;
    }

    /** Every group that overlaps one of the intervals is among the handles. */
    ghost predicate Closed(query: seq<Handle>, list: seq<Interval>)
      reads this
    {
      forall iv, h :: iv in list && Touches(h, iv) ==> h in query
    }

    /** Group h owns the aligned interval iv. */
    ghost predicate Owns(h: Handle, iv: Interval)
      reads this
    {
      h in groups && exists k :: k in groups[h].intervals && k.Align() == iv
    }

    /** Every aligned interval of the group that no other group occupies is in the list. */
    ghost predicate Exhausted(h: Handle, list: seq<Interval>)
      reads this
    {
      forall iv :: Owns(h, iv) && OnlyTouchedBy(h, iv) ==> iv in list
    }

    /** Every aligned interval of the group is in the list. */
    ghost predicate Whole(h: Handle, list: seq<Interval>)
      reads this
    {
      forall iv :: Owns(h, iv) ==> iv in list
    }

    /** What a query in progress has established: the handles are live and distinct, and every collected
        interval is an aligned interval of a collected group whose other occupants are collected too. */
    ghost predicate QueryInv(query: seq<Handle>, list: seq<Interval>)
      reads this
    {
      && Chained(list) && AllAligned(list) && Closed(query, list)
      && (forall h :: h in query ==> h in groups)
      && (forall i, j :: 0 <= i < j < |query| ==> query[i] != query[j])
      && (forall iv :: iv in list ==> exists h :: h in query && Owns(h, iv))
    }

    /** Group h shares a page with an interval of group g. */
    ghost predicate Linked(g: Handle, h: Handle)
      reads this
    {
      exists iv :: Owns(g, iv) && Touches(h, iv)
    }

    /** Adding an interval that one collected group owns and only collected groups occupy. */
    method Collect(query: seq<Handle>, list: seq<Interval>, address: int, ghost owner: Handle, iv: Interval)
      returns (r: seq<Interval>)
      requires Valid() && QueryInv(query, list)
      requires iv.NonEmpty() && iv.Aligned() && iv.start <= address <= iv.end
      requires owner in query && Owns(owner, iv)
      requires forall h :: Touches(h, iv) ==> h in query
      ensures QueryInv(query, r) && forall x :: x in r <==> x in list || x == iv
    {
      r := Place(list, address, iv);
    }

    lemma QueryStarts()
      ensures QueryInv([], [])
    {
    }

    lemma QueryGrows(query: seq<Handle>, list: seq<Interval>, h: Handle)
      requires QueryInv(query, list) && h in groups && h !in query
      ensures QueryInv(query + [h], list)
    {
      var q := query + [h];
      forall iv | iv in list ensures exists g :: g in q && Owns(g, iv) {
        var g :| g in query && Owns(g, iv);
        assert g in q;
      }
    }

    lemma AlignedMember(h: Handle, k: Interval)
      requires Valid() && h in groups && k in groups[h].intervals
      ensures k.NonEmpty() && k.Align().NonEmpty() && Owns(h, k.Align())
    {
      assert Entry(k, h) in entries;
    }

    lemma ExhaustedGrows(query: seq<Handle>, list: seq<Interval>, more: seq<Interval>)
      requires forall x :: x in list ==> x in more
      ensures forall h :: h in query && Exhausted(h, list) ==> Exhausted(h, more)
    {
    }

    /** The intervals of a recursed group that only it and the group it was reached from occupy. */
    method CollectExclusive(origin: Handle, recursed: Handle, query: seq<Handle>, list: seq<Interval>)
      returns (r: seq<Interval>)
      requires Valid() && QueryInv(query, list) && origin in query && recursed in query
      ensures QueryInv(query, r) && forall x :: x in list ==> x in r
      ensures Exhausted(recursed, r)
    {
      hide QueryInv, Valid, Exhausted;
      QueryLive(query, list);
      r := list;
      var intervals := groups[recursed].intervals;
      for i := 0 to |intervals|
        invariant QueryInv(query, r) && forall x :: x in list ==> x in r
        invariant forall j :: 0 <= j < i && OnlyTouchedBy(recursed, intervals[j].Align()) ==> intervals[j].Align() in r
      {
        AlignedMember(recursed, intervals[i]);
        var aligned := intervals[i].Align();
        var exclusive := ExclusiveTo(aligned, recursed, origin);
        if exclusive {
          r := Collect(query, r, aligned.end, recursed, aligned);
        }
      }
      GroupExhausted(recursed, false, r);
    }

    lemma QueryLive(query: seq<Handle>, list: seq<Interval>)
      requires QueryInv(query, list)
      ensures forall h :: h in query ==> h in groups
    {
    }

    /** Cases 1 and 3 of the lookup: take a whole interval of the group together with everything on its
        pages and what those groups occupy exclusively. */
    method CollectWhole(g: Handle, aligned: Interval, query: seq<Handle>, list: seq<Interval>)
      returns (q: seq<Handle>, r: seq<Interval>)
      requires Valid() && QueryInv(query, list) && g in query
      requires aligned.NonEmpty() && aligned.Aligned() && Owns(g, aligned)
      ensures QueryInv(q, r) && forall h :: h in query ==> h in q
      ensures aligned in r && forall x :: x in list ==> x in r
      ensures forall h :: h in q ==> h in query || (Linked(g, h) && Exhausted(h, r))
      ensures forall h :: h in q <==> h in query || Touches(h, aligned)
    {
      hide QueryInv, Valid;
      q, r := query, list;
      var i := LowerBound(entries, (e: Entry) => e.span.start, aligned.end);
      ScanStart(aligned, i);
      while i != 0 && entries[i - 1].span.start < aligned.end
        invariant 0 <= i <= |entries|
        invariant QueryInv(q, r) && forall h :: h in query ==> h in q
        invariant forall x :: x in list ==> x in r
        invariant forall h :: h in q ==> h in query || (Linked(g, h) && Exhausted(h, r) && Touches(h, aligned))
        invariant forall j :: i <= j < |entries| && entries[j].span.Overlaps(aligned) ==> entries[j].group in q
      {
        i := i - 1;
        var recursed := entries[i].group;
        if entries[i].span.end > aligned.start && recursed != g && recursed !in q {
          EntryTouches(i, aligned);
          QueryGrows(q, r, recursed);
          q := q + [recursed];
          var more := CollectExclusive(g, recursed, q, r);
          ExhaustedGrows(q, r, more);
          r := more;
        }
      }
      ScanComplete(aligned, q);
      var whole := Collect(q, r, aligned.start, g, aligned);
      ExhaustedGrows(q, r, whole);
      r := whole;
    }

    /** Group h comes with the entry: it is the entry's own, or shares a page with one of the spans that is taken
        whole, which is that of the entry unless all of them are. */
    ghost predicate Draws(entry: Entry, whole: bool, spans: seq<Interval>, h: Handle)
      reads this
    {
      h == entry.group || exists k :: k in spans && (whole || k == entry.span) && Touches(h, k.Align())
    }

    /** Everything one overlapping entry contributes to the lookup. */
    method CollectGroup(entry: Entry, exclusiveEntry: bool, query: seq<Handle>, list: seq<Interval>)
      returns (q: seq<Handle>, r: seq<Interval>)
      requires Valid() && QueryInv(query, list) && Listed(entry) && entry.group !in query
      requires forall h :: h in query ==> Exhausted(h, list)
      ensures QueryInv(q, r) && entry.group in q && forall h :: h in query ==> h in q
      ensures entry.span.Align() in r && forall x :: x in list ==> x in r
      ensures forall h :: h in q ==> h in query || h == entry.group || Linked(entry.group, h)
      ensures forall h :: h in q ==> Exhausted(h, r)
      ensures exclusiveEntry ==> Whole(entry.group, r)
      ensures forall h :: h in q <==> h in query || Draws(entry, exclusiveEntry, groups[entry.group].intervals, h)
    {
      hide QueryInv, Valid, Exhausted, Whole, Linked, Draws;
      var g := entry.group;
      QueryGrows(query, list, g);
      q, r := query + [g], list;
      var intervals := groups[g].intervals;
      NothingDrawn(entry, exclusiveEntry);
      for i := 0 to |intervals|
        invariant QueryInv(q, r) && g in q && forall h :: h in query ==> h in q
        invariant entry.span in intervals[..i] ==> entry.span.Align() in r
        invariant forall x :: x in list ==> x in r
        invariant forall h :: h in q ==> h in query || h == g || Linked(g, h)
        invariant forall h :: h in q <==> h in query || Draws(entry, exclusiveEntry, intervals[..i], h)
        invariant forall h :: h in q && h != g ==> Exhausted(h, r)
        invariant forall j :: 0 <= j < i && (exclusiveEntry || OnlyTouchedBy(g, intervals[j].Align())) ==>
          intervals[j].Align() in r
      {
        AlignedMember(g, intervals[i]);
        var aligned := intervals[i].Align();
        ghost var before := r;
        if exclusiveEntry || intervals[i] == entry.span {
          q, r := CollectWhole(g, aligned, q, r);
        } else {
          var exclusive := ExclusiveTo(aligned, g, g);
          if exclusive {
            r := Collect(q, r, aligned.start, g, aligned);
          }
        }
        ExhaustedGrows(q, before, r);
        assert intervals[..i + 1] == intervals[..i] + [intervals[i]];
        DrawsMore(entry, exclusiveEntry, intervals[..i], intervals[i]);
      }
      assert intervals[..|intervals|] == intervals;
      GroupExhausted(g, exclusiveEntry, r);
    }

    lemma NothingDrawn(entry: Entry, whole: bool)
      ensures forall h :: Draws(entry, whole, [], h) <==> h == entry.group
    {
    }

    lemma DrawsMore(entry: Entry, whole: bool, spans: seq<Interval>, k: Interval)
      ensures forall h :: Draws(entry, whole, spans + [k], h) <==>
        Draws(entry, whole, spans, h) || ((whole || k == entry.span) && Touches(h, k.Align()))
    {
    }

    lemma GroupExhausted(h: Handle, whole: bool, list: seq<Interval>)
      requires h in groups
      requires var intervals := groups[h].intervals;
        forall j :: 0 <= j < |intervals| && (whole || OnlyTouchedBy(h, intervals[j].Align())) ==>
          intervals[j].Align() in list
      ensures Exhausted(h, list) && (whole ==> Whole(h, list))
    {
      var intervals := groups[h].intervals;
      forall iv | Owns(h, iv) && (whole || OnlyTouchedBy(h, iv)) ensures iv in list {
        var k :| k in intervals && k.Align() == iv;
        var j :| 0 <= j < |intervals| && intervals[j] == k;
      }
    }

    /** Group h occupies the interval, or shares a page with a group that does. */
    ghost predicate Reached(h: Handle, iv: Interval)
      reads this
    {
      Touches(h, iv) || exists g :: Touches(g, iv) && Linked(g, h)
    }

    /** No entry after the one at i overlaps the interval. */
    ghost predicate LastOn(i: int, iv: Interval)
      reads this
    {
      && 0 <= i < |entries| && entries[i].span.Overlaps(iv)
      && forall j :: i < j < |entries| ==> !entries[j].span.Overlaps(iv)
    }

    /** What a lookup of one page finds: the last entry on the page decides it. */
    ghost predicate FoundOn(h: Handle, iv: Interval)
      reads this
    {
      exists i :: LastOn(i, iv) && DrawnBy(i, Alone(iv), h)
    }

    ghost predicate DrawnBy(i: int, whole: bool, h: Handle)
      reads this
    {
      && 0 <= i < |entries| && entries[i].group in groups
      && Draws(entries[i], whole, groups[entries[i].group].intervals, h)
    }

    /** Every group on a page shares it with any entry on the page. */
    lemma PageDrawn(i: nat, iv: Interval, h: Handle)
      requires Valid() && i < |entries| && entries[i].span.Overlaps(iv) && Touches(h, iv)
      requires iv.Aligned() && iv.end == iv.start + PageSize
      ensures DrawnBy(i, Alone(iv), h)
    {
      var span := entries[i].span;
      var k :| k in groups[h].intervals && k.Overlaps(iv);
      assert span.Align().start <= iv.start && iv.end <= span.Align().end;
      assert Entry(k, h) in entries && k.Overlaps(span.Align());
      assert span in groups[entries[i].group].intervals && Touches(h, span.Align());
    }

    /** What a scan in progress has found: on one page, just what came with the first entry met. */
    ghost predicate FoundSoFar(query: seq<Handle>, last: int, iv: Interval)
      reads this
    {
      query != [] ==>
        LastOn(last, iv) && (iv.end == iv.start + PageSize ==> forall h :: h in query <==> DrawnBy(last, Alone(iv), h))
    }

    lemma NothingFound(last: int, iv: Interval)
      ensures FoundSoFar([], last, iv)
    {
    }

    lemma FoundMore(query: seq<Handle>, last: int, iv: Interval, i: nat, more: seq<Handle>)
      requires Valid() && iv.Aligned() && FoundSoFar(query, last, iv) && i < |entries|
      requires entries[i].span.Overlaps(iv) && entries[i].group !in query
      requires forall j :: i < j < |entries| && entries[j].span.Overlaps(iv) ==> entries[j].group in query
      requires forall h :: h in more <==> h in query || DrawnBy(i, Alone(iv), h)
      ensures FoundSoFar(more, if query == [] then i else last, iv)
    {
      hide Draws, Alone;
      EntryTouches(i, iv);
      if query != [] && iv.end == iv.start + PageSize {
        PageDrawn(last, iv, entries[i].group);
      }
    }

    lemma FoundAll(query: seq<Handle>, last: int, iv: Interval)
      requires FoundSoFar(query, last, iv) && iv.end == iv.start + PageSize
      requires forall j :: 0 <= j < |entries| && entries[j].span.Overlaps(iv) ==> entries[j].group in query
      ensures forall h :: h in query <==> FoundOn(h, iv)
    {
      hide DrawnBy, Alone;
    }

    /** At most one entry starts before the end of the interval. */
    ghost predicate Alone(iv: Interval)
      reads this
    {
      forall i :: 1 <= i < |entries| ==> entries[i].span.start >= iv.end
    }

    ghost predicate Hits(list: seq<Interval>, iv: Interval) {
      exists k :: k in list && k.Overlaps(iv)
    }

    /** The scan of the fault lookup over all entries that overlap the aligned interval. */
    method CollectAll(interval: Interval) returns (query: seq<Handle>, list: seq<Interval>)
      requires Valid() && interval.Aligned()
      ensures QueryInv(query, list)
      ensures forall h :: Touches(h, interval) ==> h in query
      ensures forall h :: h in query ==> Reached(h, interval)
      ensures query == [] ==> list == []
      ensures query != [] ==> Hits(list, interval)
      ensures forall h :: h in query ==> Exhausted(h, list)
      ensures Alone(interval) ==> forall h :: Touches(h, interval) ==> Whole(h, list)
      ensures interval.end == interval.start + PageSize ==> forall h :: h in query <==> FoundOn(h, interval)
    {
      hide QueryInv, Valid, Exhausted, Whole, Reached, Draws, FoundSoFar, FoundOn;
      query, list := [], [];
      QueryStarts();
      var i := LowerBound(entries, (e: Entry) => e.span.start, interval.end);
      ScanStart(interval, i);
      var exclusiveEntry := i == 0 || i == 1 || entries[i - 2].span.start >= interval.end;
      assert exclusiveEntry <==> Alone(interval);
      ghost var last := 0;
      NothingFound(last, interval);
      while i != 0 && entries[i - 1].span.start < interval.end
        invariant 0 <= i <= |entries|
        invariant QueryInv(query, list)
        invariant forall h :: h in query ==> Reached(h, interval)
        invariant forall j :: i <= j < |entries| && entries[j].span.Overlaps(interval) ==> entries[j].group in query
        invariant query == [] ==> list == []
        invariant query != [] ==> Hits(list, interval)
        invariant forall h :: h in query ==> Exhausted(h, list)
        invariant exclusiveEntry ==> i <= 1 && (i == 1 ==> query == [])
        invariant exclusiveEntry && query != [] ==> |entries| > 0 && Whole(entries[0].group, list)
        invariant FoundSoFar(query, last, interval)
      {
        i := i - 1;
        var entry := entries[i];
        if entry.span.end > interval.start && entry.group !in query {
          EntryTouches(i, interval);
          ghost var before := query;
          query, list := CollectGroup(entry, exclusiveEntry, query, list);
          FoundMore(before, last, interval, i, query);
          last := if before == [] then i else last;
          assert entry.span.Align() in list && entry.span.Align().Overlaps(interval);
          ReachedFrom(entry.group, interval, query);
        }
      }
      ScanComplete(interval, query);
      if Alone(interval) {
        AloneIsFirst(interval);
      }
      if interval.end == interval.start + PageSize {
        FoundAll(query, last, interval);
      }
    }

    lemma ReachedFrom(g: Handle, iv: Interval, query: seq<Handle>)
      requires Touches(g, iv)
      ensures Reached(g, iv) && forall h :: h in query && Linked(g, h) ==> Reached(h, iv)
    {
    }

    lemma AloneIsFirst(iv: Interval)
      requires Valid() && Alone(iv)
      ensures forall h :: Touches(h, iv) ==> |entries| > 0 && h == entries[0].group
    {
      forall h | Touches(h, iv) ensures |entries| > 0 && h == entries[0].group {
        var k :| k in groups[h].intervals && k.Overlaps(iv);
        assert Entry(k, h) in entries;
      }
    }

    /** The fault lookup.  It finds every group on the aligned interval and no group further away than one
        shared page; the intervals it returns are page aligned, reach into the lookup whenever any group
        does, are occupied by returned groups only, and hold no page that no returned group occupies.  Every
        interval that a returned group has to itself is opened with it, and a group that is alone in the lookup
        is opened as a whole. */
    method GetAlignedRecursiveRange(lookup: Interval) returns (query: seq<Handle>, list: seq<Interval>)
      requires Valid() && lookup.NonEmpty()
      ensures forall h :: Touches(h, lookup.Align()) ==> h in query
      ensures forall h :: h in query ==> h in groups && Reached(h, lookup.Align())
      ensures forall i, j :: 0 <= i < j < |query| ==> query[i] != query[j]
      ensures AllAligned(list) && Chained(list)
      ensures Closed(query, list)
      ensures lookup.Align().end == lookup.Align().start + PageSize ==>
        forall h :: h in query <==> FoundOn(h, lookup.Align())
      ensures query != [] ==> exists a :: lookup.Align().Contains(a) && Covered(list, a)
      ensures forall a :: Covered(list, a) ==> exists h, iv :: h in query && Owns(h, iv) && iv.Contains(a)
      ensures forall h, iv, a :: h in query && Owns(h, iv) && OnlyTouchedBy(h, iv) && iv.Contains(a) ==>
        Covered(list, a)
      ensures Alone(lookup.Align()) ==>
        forall h, iv, a :: Touches(h, lookup.Align()) && Owns(h, iv) && iv.Contains(a) ==> Covered(list, a)
    {
      var found;
      query, found := CollectAll(lookup.Align());
      list := Coalesce(found);
      CoalescedQuery(query, found, list, lookup.Align());
      CoalescedCovers(found, list);
    }

    lemma CoalescedCovers(found: seq<Interval>, list: seq<Interval>)
      requires forall a :: Covered(list, a) <==> Covered(found, a)
      ensures forall h, iv, a :: Exhausted(h, found) && Owns(h, iv) && OnlyTouchedBy(h, iv) && iv.Contains(a) ==>
        Covered(list, a)
      ensures forall h, iv, a :: Whole(h, found) && Owns(h, iv) && iv.Contains(a) ==> Covered(list, a)
    {
      forall iv, a | iv in found && iv.Contains(a) ensures Covered(list, a) {
        var i :| 0 <= i < |found| && found[i] == iv;
        assert found[i].Contains(a);
        assert Covered(found, a);
      }
    }

    /** What the collected list guaranteed, its coalesced form guarantees as well. */
    lemma CoalescedQuery(query: seq<Handle>, found: seq<Interval>, list: seq<Interval>, interval: Interval)
      requires Valid() && QueryInv(query, found) && interval.NonEmpty() && Chained(list)
      requires forall a :: Covered(list, a) <==> Covered(found, a)
      requires AllAligned(found) ==> AllAligned(list)
      ensures AllAligned(list) && Closed(query, list)
      ensures forall i, j :: 0 <= i < j < |query| ==> query[i] != query[j]
      ensures forall a :: Covered(list, a) ==> exists h, iv :: h in query && Owns(h, iv) && iv.Contains(a)
      ensures (exists k :: k in found && k.Overlaps(interval)) ==> exists a :: interval.Contains(a) && Covered(list, a)
    {
      forall iv, h | iv in list && Touches(h, iv) ensures h in query {
        var k :| k in groups[h].intervals && k.Overlaps(iv);
        assert Entry(k, h) in entries;
        var a := if k.start > iv.start then k.start else iv.start;
        var i :| 0 <= i < |list| && list[i] == iv;
        assert list[i].Contains(a);
        assert Covered(found, a);
        var j :| 0 <= j < |found| && found[j].Contains(a);
        assert k.Overlaps(found[j]);
        assert Touches(h, found[j]);
      }
      forall a | Covered(list, a) ensures exists h, iv :: h in query && Owns(h, iv) && iv.Contains(a) {
        assert Covered(found, a);
        var j :| 0 <= j < |found| && found[j].Contains(a);
        assert found[j] in found;
        var h :| h in query && Owns(h, found[j]);
      }
      if k :| k in found && k.Overlaps(interval) {
        var j :| 0 <= j < |found| && found[j] == k;
        var a := if k.start > interval.start then k.start else interval.start;
        assert found[j].Contains(a);
        assert Covered(list, a);
      }
    }
  }
}
