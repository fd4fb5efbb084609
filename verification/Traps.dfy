/** Memory traps: groups of guest regions each demand a protection level, and the host protection of
    every page is kept at least as strict as the strictest demand on it. */
module Traps {
  import opened Paging
  import opened IntervalMaps

  datatype Protection = None | WriteOnly | ReadWrite {
    function Rank(): (r: nat)
      ensures r <= 2
    {
      match this
      case None => 0
      case WriteOnly => 1
      case ReadWrite => 2
    }
  }

  /** Some region, once page aligned, holds page p. */
  ghost predicate OnPage(regions: seq<Interval>, p: int) {
    exists i :: 0 <= i < |regions| && regions[i].Align().Overlaps(Page(p))
  }

  /** Of the regions that hold page p, the one at k is the last. */
  ghost predicate Decides(regions: seq<Interval>, k: nat, p: int) {
    && k < |regions| && regions[k].Align().Overlaps(Page(p))
    && forall j :: k < j < |regions| ==> !regions[j].Align().Overlaps(Page(p))
  }

  class TrapManager {
    const trapMap: IntervalMap<Protection>

    /** The protection of each page as mprotect last set it: None allows every access, WriteOnly refuses
        writes, ReadWrite refuses every access. */
    var host: int -> Protection

    ghost predicate Valid()
      reads this, trapMap
    {
      trapMap.Valid() && forall p :: PageGuarded(p)
    }

    /** The host protection of page p is at least as strict as every demand on it. */
    ghost predicate PageGuarded(p: int)
      reads this, trapMap
    {
      forall h :: trapMap.Touches(h, Page(p)) ==> trapMap.groups[h].value.Rank() <= host(p).Rank()
    }

    /** No page is protected that no group is on. */
    ghost predicate Tidy()
      reads this, trapMap
    {
      forall p :: host(p) != None ==> Occupied(p)
    }

    ghost predicate Occupied(p: int)
      reads trapMap
    {
      exists h :: trapMap.Touches(h, Page(p))
    }

    /** Every page of the group is also one of another group. */
    ghost predicate Overlaid(handle: Handle)
      reads trapMap
    {
      forall p :: trapMap.Touches(handle, Page(p)) ==> exists g :: g != handle && trapMap.Touches(g, Page(p))
    }

    /** What a group demands of a page is enforced: reads fault where it traps reads, writes where it traps anything. */
    lemma DemandEnforced(h: Handle, p: int)
      requires Valid() && trapMap.Touches(h, Page(p))
      ensures trapMap.groups[h].value == ReadWrite ==> host(p) == ReadWrite
      ensures trapMap.groups[h].value != None ==> host(p) != None
    {
      assert PageGuarded(p);
    }

    /** The level is the least one that meets the floor and every demand on the region. */
    ghost predicate IsStrictest(level: Protection, region: Interval, floor: Protection)
      reads trapMap
    {
      && floor.Rank() <= level.Rank()
      && (forall h :: trapMap.Touches(h, region) ==> trapMap.groups[h].value.Rank() <= level.Rank())
      && (level == floor || exists h :: trapMap.Touches(h, region) && trapMap.groups[h].value == level)
    }

    constructor ()
      ensures Valid() && fresh(this) && fresh(trapMap) && trapMap.groups == map[]
      ensures Tidy() && forall p :: host(p) == None
    {
      trapMap := new IntervalMap<Protection>();
      host := p => None;
    }

    /** The level a region is reprotected to for a given floor. */
    method LevelFor(region: Interval, floor: Protection) returns (level: Protection)
      requires trapMap.Valid()
      ensures IsStrictest(level, region, floor)
    {
      if floor == ReadWrite {
        return ReadWrite; // nothing can demand more
      }
      var found := trapMap.GetRange(region);
      level := floor;
      for i := 0 to |found|
        invariant floor.Rank() <= level.Rank() < ReadWrite.Rank()
        invariant forall j :: 0 <= j < |found| ==> found[j] in found && trapMap.Touches(found[j], region)
        invariant forall j :: 0 <= j < i ==> trapMap.groups[found[j]].value.Rank() <= level.Rank()
        invariant level == floor || exists h :: trapMap.Touches(h, region) && trapMap.groups[h].value == level
      {
        var demand := trapMap.groups[found[i]].value;
        if demand == ReadWrite {
          return ReadWrite;
        }
        if demand.Rank() > level.Rank() {
          level := demand;
        }
      }
    }

    method Mprotect(region: Interval, level: Protection)
      requires region.Aligned()
      modifies this`host
      ensures forall p :: host(p) == if region.Overlaps(Page(p)) then level else old(host(p))
    {
      var was := host;
      host := p => if region.Overlaps(Page(p)) then level else was(p);
    }

    /** Page p keeps its level unless a region holds it; then it has exactly the strictest level demanded on the last
        region that holds it. */
    ghost predicate Reprotected(was: Protection, now: Protection, p: int, regions: seq<Interval>, floor: Protection)
      reads trapMap
    {
      if OnPage(regions, p)
      then exists k: nat :: Decides(regions, k, p) && IsStrictest(now, regions[k].Align(), floor)
      else now == was
    }

    lemma NothingReprotected(floor: Protection)
      ensures forall level, p :: Reprotected(level, level, p, [], floor)
    {
    }

    lemma ReprotectedMore(was: Protection, before: Protection, now: Protection, p: int, regions: seq<Interval>,
                          r: Interval, floor: Protection)
      requires Reprotected(was, before, p, regions, floor)
      requires if r.Align().Overlaps(Page(p)) then IsStrictest(now, r.Align(), floor) else now == before
      ensures Reprotected(was, now, p, regions + [r], floor)
    {
      hide IsStrictest;
      var more := regions + [r];
      if r.Align().Overlaps(Page(p)) {
        assert more[|regions|] == r;
        assert Decides(more, |regions|, p) && OnPage(more, p);
      } else if OnPage(regions, p) {
        var k: nat :| Decides(regions, k, p) && IsStrictest(before, regions[k].Align(), floor);
        assert more[k] == regions[k] && Decides(more, k, p) && OnPage(more, p);
      }
    }

    method ReprotectIntervals(regions: seq<Interval>, protection: Protection)
      requires trapMap.Valid()
      modifies this`host
      ensures forall p :: Reprotected(old(host(p)), host(p), p, regions, protection)
    {
      hide Reprotected, OnPage, IsStrictest, trapMap.Valid;
      NothingReprotected(protection);
      for i := 0 to |regions|
        invariant forall p :: Reprotected(old(host(p)), host(p), p, regions[..i], protection)
      {
        ghost var before := host;
        var region := regions[i].Align();
        var level := LevelFor(region, protection);
        Mprotect(region, level);
        assert regions[..i + 1] == regions[..i] + [regions[i]];
        forall p ensures Reprotected(old(host(p)), host(p), p, regions[..i + 1], protection) {
          ReprotectedMore(old(host(p)), before(p), host(p), p, regions[..i], regions[i], protection);
        }
      }
      assert regions[..|regions|] == regions;
    }

    /** A page inside an aligned region is guarded by the strictest level demanded on that region. */
    lemma StrictestGuards(p: int, region: Interval, floor: Protection)
      requires trapMap.Valid() && region.Aligned() && region.Overlaps(Page(p)) && IsStrictest(host(p), region, floor)
      ensures PageGuarded(p)
    {
      AlignedHoldsPage(region, p);
      forall h | trapMap.Touches(h, Page(p)) ensures trapMap.groups[h].value.Rank() <= host(p).Rank() {
        var k :| k in trapMap.groups[h].intervals && k.Overlaps(Page(p));
        assert k.Overlaps(region);
        assert trapMap.Touches(h, region);
      }
    }

    /** A group touches a page exactly when the page is among those of its intervals. */
    lemma TouchedIsOnPage(h: Handle, p: int)
      requires h in trapMap.groups
      ensures trapMap.Touches(h, Page(p)) <==> OnPage(trapMap.groups[h].intervals, p)
    {
      var regions := trapMap.groups[h].intervals;
      if trapMap.Touches(h, Page(p)) {
        var k :| k in regions && k.Overlaps(Page(p));
        var i :| 0 <= i < |regions| && regions[i] == k;
        AlignKeepsAlignedOverlap(k, Page(p));
        assert regions[i].Align().Overlaps(Page(p));
      }
      if OnPage(regions, p) {
        var i :| 0 <= i < |regions| && regions[i].Align().Overlaps(Page(p));
        AlignKeepsAlignedOverlap(regions[i], Page(p));
        assert regions[i] in regions;
      }
    }

    /** The pages of one group, where demands may have changed, are brought back under guard. */
    method ReprotectGroup(handle: Handle, protection: Protection)
      requires trapMap.Valid() && handle in trapMap.groups
      requires forall p :: !OnPage(trapMap.groups[handle].intervals, p) ==> PageGuarded(p)
      modifies this`host
      ensures Valid() && (old(Tidy()) ==> Tidy())
      ensures forall p :: Reprotected(old(host(p)), host(p), p, trapMap.groups[handle].intervals, protection)
    {
      hide trapMap.Touches, trapMap.Valid, OnPage, Decides, IsStrictest, Occupied, Reprotected;
      var regions := trapMap.groups[handle].intervals;
      ghost var was := host;
      ReprotectIntervals(regions, protection);
      forall p
        ensures PageGuarded(p)
        ensures if OnPage(regions, p) then Occupied(p) else host(p) == was(p)
      {
        PageReprotected(handle, was(p), p, protection);
      }
    }

    lemma PageReprotected(handle: Handle, was: Protection, p: int, protection: Protection)
      requires trapMap.Valid() && handle in trapMap.groups
      requires Reprotected(was, host(p), p, trapMap.groups[handle].intervals, protection)
      ensures var regions := trapMap.groups[handle].intervals;
        if OnPage(regions, p) then PageGuarded(p) && Occupied(p) else host(p) == was
    {
      hide trapMap.Touches, trapMap.Valid, OnPage, PageGuarded, IsStrictest;
      var regions := trapMap.groups[handle].intervals;
      if OnPage(regions, p) {
        TouchedIsOnPage(handle, p);
        var k: nat :| Decides(regions, k, p) && IsStrictest(host(p), regions[k].Align(), protection);
        StrictestGuards(p, regions[k].Align(), protection);
      }
    }

    method TrapRegions(regions: seq<Interval>, writeOnly: bool) returns (handle: Handle)
      requires Valid()
      requires forall k :: k in regions ==> k.NonEmpty()
      modifies this`host, trapMap
      ensures Valid() && handle !in old(trapMap.groups) && (old(Tidy()) ==> Tidy())
      ensures trapMap.groups ==
        old(trapMap.groups)[handle := Group(regions, if writeOnly then WriteOnly else ReadWrite)]
      ensures forall p :: Reprotected(old(host(p)), host(p), p, regions, if writeOnly then WriteOnly else ReadWrite)
    {
      var protection := if writeOnly then WriteOnly else ReadWrite;
      handle := trapMap.Insert(regions, protection);
      forall p | !OnPage(trapMap.groups[handle].intervals, p) ensures PageGuarded(p) {
        TouchedIsOnPage(handle, p);
        assert old(PageGuarded(p));
        assert forall h :: trapMap.Touches(h, Page(p)) ==> old(trapMap.Touches(h, Page(p)));
      }
      assert forall p :: old(Occupied(p)) ==> Occupied(p) by {
        assert forall h, iv :: old(trapMap.Touches(h, iv)) ==> trapMap.Touches(h, iv);
      }
      ReprotectGroup(handle, protection);
    }

    /** Changing the demand of one group leaves all pages that it does not touch guarded. */
    method SetDemand(handle: Handle, protection: Protection)
      requires Valid() && handle in trapMap.groups
      modifies trapMap
      ensures trapMap.Valid()
      ensures trapMap.groups == old(trapMap.groups)[handle := old(trapMap.groups)[handle].(value := protection)]
      ensures forall p :: !OnPage(trapMap.groups[handle].intervals, p) ==> PageGuarded(p)
      ensures protection == None ==> Valid()
      ensures forall h, iv :: trapMap.Touches(h, iv) <==> old(trapMap.Touches(h, iv))
      ensures old(Tidy()) ==> Tidy()
    {
      trapMap.SetValue(handle, protection);
      forall p ensures !OnPage(trapMap.groups[handle].intervals, p) || protection == None ==> PageGuarded(p) {
        TouchedIsOnPage(handle, p);
        assert old(PageGuarded(p));
        assert forall h :: trapMap.Touches(h, Page(p)) <==> old(trapMap.Touches(h, Page(p)));
      }
    }

    method RetrapRegions(handle: Handle, writeOnly: bool)
      requires Valid() && handle in trapMap.groups
      modifies this`host, trapMap
      ensures Valid() && (old(Tidy()) ==> Tidy())
      ensures var protection := if writeOnly then WriteOnly else ReadWrite;
        && trapMap.groups == old(trapMap.groups)[handle := old(trapMap.groups)[handle].(value := protection)]
        && forall p :: Reprotected(old(host(p)), host(p), p, trapMap.groups[handle].intervals, protection)
    {
      var protection := if writeOnly then WriteOnly else ReadWrite;
      SetDemand(handle, protection);
      ReprotectGroup(handle, protection);
    }

    method RemoveTrap(handle: Handle)
      requires Valid() && handle in trapMap.groups
      modifies this`host, trapMap
      ensures Valid() && (old(Tidy()) ==> Tidy())
      ensures trapMap.groups == old(trapMap.groups)[handle := old(trapMap.groups)[handle].(value := None)]
      ensures forall p :: Reprotected(old(host(p)), host(p), p, trapMap.groups[handle].intervals, None)
    {
      SetDemand(handle, None);
      ReprotectGroup(handle, None);
    }

    method DeleteTrap(handle: Handle)
      requires Valid() && handle in trapMap.groups
      modifies this`host, trapMap
      ensures Valid() && (old(Tidy() && Overlaid(handle)) ==> Tidy())
      ensures trapMap.groups == old(trapMap.groups) - {handle}
      ensures forall p :: Reprotected(old(host(p)), host(p), p, old(trapMap.groups)[handle].intervals, None)
    {
      hide trapMap.Touches, trapMap.Valid, OnPage, Occupied, Reprotected;
      SetDemand(handle, None);
      ReprotectGroup(handle, None);
      Forget(handle, old(host));
    }

    /** Deletion reprotects each region of a trap as a whole.  A page of the trap stays protected exactly if another
        group demands protection anywhere on the last region that holds the page. */
    lemma StrandedExactly(was: Protection, now: Protection, p: int, regions: seq<Interval>, k: nat)
      requires Reprotected(was, now, p, regions, None) && Decides(regions, k, p)
      ensures now != None <==> exists g :: trapMap.Touches(g, regions[k].Align()) && trapMap.groups[g].value != None
    {
      assert OnPage(regions, p);
      var j: nat :| Decides(regions, j, p) && IsStrictest(now, regions[j].Align(), None);
      assert j == k;
    }

    /** The strictest level is the one that bounds all demands and is one of them. */
    lemma StrictestIs(level: Protection, region: Interval, floor: Protection, top: Protection)
      requires IsStrictest(level, region, floor) && floor.Rank() <= top.Rank()
      requires forall h :: trapMap.Touches(h, region) ==> trapMap.groups[h].value.Rank() <= top.Rank()
      requires top == floor || exists h :: trapMap.Touches(h, region) && trapMap.groups[h].value == top
      ensures level == top
    {
    }

    /** Reprotection of one aligned region brings its pages to the strictest level demanded on it. */
    lemma OneRegion(was: Protection, now: Protection, p: int, region: Interval, floor: Protection)
      requires Reprotected(was, now, p, [region], floor) && region.Aligned()
      ensures if region.Overlaps(Page(p)) then IsStrictest(now, region, floor) else now == was
    {
      AlignedStays(region);
      assert OnPage([region], p) <==> region.Overlaps(Page(p)) by {
        assert [region][0] == region;
      }
    }

    /** Where one group alone is on a region, reprotection brings its pages to just the level it demands. */
    lemma SoleLevel(h: Handle, region: Interval, floor: Protection, was: Protection, now: Protection, p: int)
      requires Reprotected(was, now, p, [region], floor) && region.Aligned() && trapMap.OnlyTouchedBy(h, region)
      requires h in trapMap.groups ==> trapMap.groups[h].value.Rank() <= floor.Rank()
      ensures now == if region.Overlaps(Page(p)) then floor else was
    {
      AlignedStays(region);
      assert OnPage([region], p) <==> region.Overlaps(Page(p)) by {
        assert [region][0] == region;
      }
    }

    /** A group without a demand goes: nothing about the protection of pages changes. */
    method Forget(handle: Handle, ghost was: int -> Protection)
      requires Valid() && handle in trapMap.groups && trapMap.groups[handle].value == None
      requires forall p :: Reprotected(was(p), host(p), p, trapMap.groups[handle].intervals, None)
      modifies trapMap
      ensures Valid() && trapMap.groups == old(trapMap.groups) - {handle}
      ensures old(Tidy() && Overlaid(handle)) ==> Tidy()
      ensures forall p :: Reprotected(was(p), host(p), p, old(trapMap.groups)[handle].intervals, None)
    {
      hide trapMap.Touches, trapMap.Valid, OnPage;
      ghost var regions := trapMap.groups[handle].intervals;
      RemoveGroup(handle);
      forall p ensures PageGuarded(p) {
        assert old(PageGuarded(p));
      }
      forall p ensures Reprotected(was(p), host(p), p, regions, None) {
        assert old(Reprotected(was(p), host(p), p, regions, None));
        if OnPage(regions, p) {
          var k: nat :| Decides(regions, k, p) && old(IsStrictest(host(p), regions[k].Align(), None));
          assert IsStrictest(host(p), regions[k].Align(), None);
        }
      }
    }

    method RemoveGroup(handle: Handle)
      requires trapMap.Valid() && handle in trapMap.groups
      modifies trapMap
      ensures trapMap.Valid() && trapMap.groups == old(trapMap.groups) - {handle}
      ensures forall h, iv :: trapMap.Touches(h, iv) <==> h != handle && old(trapMap.Touches(h, iv))
      ensures forall h, iv :: trapMap.Touches(h, iv) ==> h in trapMap.groups
      ensures forall h, iv :: old(trapMap.Touches(h, iv)) ==> h in old(trapMap.groups)
    {
      hide trapMap.Valid;
      trapMap.Remove(handle);
    }

    /** Runs the write callback of every listed group that still demands protection, dropping its demand. */
    method RunCallbacks(query: seq<Handle>) returns (ran: seq<Handle>)
      requires Valid()
      requires forall h :: h in query ==> h in trapMap.groups
      modifies trapMap
      ensures Valid() && Dropped(old(trapMap.groups), query)
      ensures forall h, iv :: trapMap.Touches(h, iv) <==> old(trapMap.Touches(h, iv))
      ensures forall h :: h in ran <==> h in query && old(trapMap.groups)[h].value != None
      ensures forall i, j :: 0 <= i < j < |ran| ==> ran[i] != ran[j]
    {
      hide Valid;
      ran := [];
      for i := 0 to |query|
        invariant Valid() && Dropped(old(trapMap.groups), query[..i])
        invariant forall h :: h in query ==> h in old(trapMap.groups)
        invariant forall h :: h in ran <==> h in query[..i] && old(trapMap.groups)[h].value != None
        invariant forall i, j :: 0 <= i < j < |ran| ==> ran[i] != ran[j]
      {
        assert query[..i + 1] == query[..i] + [query[i]];
        if trapMap.groups[query[i]].value != None {
          ran := ran + [query[i]];
          SetDemand(query[i], None);
        }
      }
      assert query[..|query|] == query;
    }

    /** The groups are as they were, except that those listed demand nothing. */
    ghost predicate Dropped(was: map<Handle, Group<Protection>>, query: seq<Handle>)
      reads trapMap
    {
      && trapMap.groups.Keys == was.Keys
      && forall h :: h in was ==> trapMap.groups[h] == if h in query then was[h].(value := None) else was[h]
    }

    /** Opening pages on which nothing is demanded keeps every page guarded. */
    method Open(list: seq<Interval>)
      requires Valid() && AllAligned(list)
      requires forall p, h :: OpenedBy(list, p) && trapMap.Touches(h, Page(p)) ==> trapMap.groups[h].value == None
      modifies this`host
      ensures Valid()
      ensures forall p :: host(p) == if OpenedBy(list, p) then None else old(host(p))
    {
      for i := 0 to |list|
        invariant Valid()
        invariant forall p :: host(p) == if OpenedBy(list[..i], p) then None else old(host(p))
      {
        label L:
        Mprotect(list[i], None);
        assert list[i] in list;
        forall p ensures PageGuarded(p) {
          if list[i].Overlaps(Page(p)) {
            assert OpenedBy(list, p);
          } else {
            assert old@L(PageGuarded(p));
            assert forall h :: trapMap.Touches(h, Page(p)) ==> old@L(trapMap.Touches(h, Page(p)));
          }
        }
        assert list[..i + 1] == list[..i] + [list[i]];
      }
      assert list[..|list|] == list;
    }

    ghost predicate OpenedBy(list: seq<Interval>, p: int) {
      exists iv :: iv in list && iv.Overlaps(Page(p))
    }

    /** The fault lookup in terms of pages. */
    method FaultQuery(address: int) returns (query: seq<Handle>, list: seq<Interval>)
      requires Valid()
      ensures AllAligned(list)
      ensures forall p, h :: OpenedBy(list, p) && trapMap.Touches(h, Page(p)) ==> h in query
      ensures forall h :: h in query ==> h in trapMap.groups && trapMap.Reached(h, Page(address / PageSize))
      ensures forall h :: h in query <==> trapMap.FoundOn(h, Page(address / PageSize))
      ensures forall h :: trapMap.Touches(h, Page(address / PageSize)) ==> h in query
      ensures query == [] <==> forall h :: !trapMap.Touches(h, Page(address / PageSize))
      ensures query != [] ==> OpenedBy(list, address / PageSize)
      ensures forall i, j :: 0 <= i < j < |query| ==> query[i] != query[j]
      ensures forall p :: OpenedBy(list, p) ==>
        exists h :: trapMap.Reached(h, Page(address / PageSize)) && trapMap.Touches(h, Page(p))
      ensures forall h, p :: trapMap.FoundOn(h, Page(address / PageSize)) && HasToItself(h, p) ==> OpenedBy(list, p)
      ensures trapMap.Alone(Page(address / PageSize)) ==>
        forall h, p :: trapMap.Touches(h, Page(address / PageSize)) && trapMap.Touches(h, Page(p)) ==> OpenedBy(list, p)
    {
      hide trapMap.FoundOn, trapMap.Reached, trapMap.Closed, trapMap.Touches, trapMap.Alone, HasToItself;
      var lookup := Interval(address, address + 1);
      assert lookup.Align() == Page(address / PageSize);
      query, list := trapMap.GetAlignedRecursiveRange(lookup);
      if query != [] {
        assert query[0] in query;
        var a :| lookup.Align().Contains(a) && Covered(list, a);
        var i :| 0 <= i < |list| && list[i].Contains(a);
        assert list[i] in list && list[i].Overlaps(Page(address / PageSize));
      }
      forall p | OpenedBy(list, p)
        ensures exists h :: trapMap.Reached(h, Page(address / PageSize)) && trapMap.Touches(h, Page(p))
      {
        var h := OpenedIsReached(query, list, lookup.Align(), p);
      }
      OpenedIsFound(query, list);
      OpensOwn(query, list, lookup.Align());
    }

    lemma OpensOwn(query: seq<Handle>, list: seq<Interval>, lookup: Interval)
      requires forall h, iv, a ::
        h in query && trapMap.Owns(h, iv) && trapMap.OnlyTouchedBy(h, iv) && iv.Contains(a) ==> Covered(list, a)
      requires trapMap.Alone(lookup) ==>
        forall h, iv, a :: trapMap.Touches(h, lookup) && trapMap.Owns(h, iv) && iv.Contains(a) ==> Covered(list, a)
      ensures forall h, p :: h in query && HasToItself(h, p) ==> OpenedBy(list, p)
      ensures trapMap.Alone(lookup) ==>
        forall h, p :: trapMap.Touches(h, lookup) && trapMap.Touches(h, Page(p)) ==> OpenedBy(list, p)
    {
      hide trapMap.Touches, trapMap.OnlyTouchedBy, trapMap.Owns, OpenedBy, Covered;
      forall h, p | h in query && HasToItself(h, p) ensures OpenedBy(list, p) {
        var iv :| trapMap.Owns(h, iv) && trapMap.OnlyTouchedBy(h, iv) && iv.Overlaps(Page(p));
        CoveredIsOpened(h, iv, list, p);
      }
      if trapMap.Alone(lookup) {
        forall h, p | trapMap.Touches(h, lookup) && trapMap.Touches(h, Page(p)) ensures OpenedBy(list, p) {
          var iv := OwnedOnPage(h, p);
          CoveredIsOpened(h, iv, list, p);
        }
      }
    }

    /** The page lies in an interval of the group that no other group is on. */
    ghost predicate HasToItself(h: Handle, p: int)
      reads trapMap
    {
      exists iv :: trapMap.Owns(h, iv) && trapMap.OnlyTouchedBy(h, iv) && iv.Overlaps(Page(p))
    }

    lemma OwnedOnPage(h: Handle, p: int) returns (iv: Interval)
      requires trapMap.Touches(h, Page(p))
      ensures trapMap.Owns(h, iv) && iv.Overlaps(Page(p))
    {
      var k :| k in trapMap.groups[h].intervals && k.Overlaps(Page(p));
      AlignKeepsAlignedOverlap(k, Page(p));
      iv := k.Align();
    }

    lemma CoveredIsOpened(h: Handle, iv: Interval, list: seq<Interval>, p: int)
      requires trapMap.Owns(h, iv) && iv.Overlaps(Page(p))
      requires forall a :: iv.Contains(a) ==> Covered(list, a)
      ensures OpenedBy(list, p)
    {
      AlignedHoldsPage(iv, p);
      assert Covered(list, Page(p).start);
      var i :| 0 <= i < |list| && list[i].Contains(Page(p).start);
      assert list[i] in list;
    }

    lemma OpenedIsFound(query: seq<Handle>, list: seq<Interval>)
      requires AllAligned(list) && trapMap.Closed(query, list)
      ensures forall p, h :: OpenedBy(list, p) && trapMap.Touches(h, Page(p)) ==> h in query
    {
      forall p, h | OpenedBy(list, p) && trapMap.Touches(h, Page(p)) ensures h in query {
        var iv :| iv in list && iv.Overlaps(Page(p));
        AlignedHoldsPage(iv, p);
        var k :| k in trapMap.groups[h].intervals && k.Overlaps(Page(p));
        assert k.Overlaps(iv);
        assert trapMap.Touches(h, iv);
      }
    }

    /** A write fault.  It is handled exactly when some group occupies the faulting page, and the retried access then
        succeeds.  Callbacks run for exactly those groups that a lookup of the page finds and that still demand
        something.  All pages that a group found has to itself are opened, and all pages of a group that is alone.  A
        page is opened only when every group on it has run its callback or had no demand left, and only
        when it belongs to a group at most one shared page away from the fault. */
    method TrapHandler(address: int) returns (handled: bool, ran: seq<Handle>)
      requires Valid()
      modifies this`host, trapMap
      ensures Valid() && (old(Tidy()) ==> Tidy())
      ensures handled <==> exists h :: old(trapMap.Touches(h, Page(address / PageSize)))
      ensures handled ==> host(address / PageSize) == None
      ensures !handled ==> ran == [] && host == old(host)
      ensures Dropped(old(trapMap.groups), ran)
      ensures forall h :: h in ran <==>
        h in old(trapMap.groups) && old(trapMap.groups)[h].value != None &&
          old(trapMap.FoundOn(h, Page(address / PageSize)))
      ensures forall h :: h in ran ==> old(trapMap.Reached(h, Page(address / PageSize)))
      ensures forall h :: old(trapMap.Touches(h, Page(address / PageSize)) ==>
        trapMap.FoundOn(h, Page(address / PageSize)))
      ensures forall i, j :: 0 <= i < j < |ran| ==> ran[i] != ran[j]
      ensures forall p, h :: host(p) != old(host(p)) && old(trapMap.Touches(h, Page(p))) ==>
        h in ran || old(trapMap.groups)[h].value == None
      ensures forall p :: host(p) != old(host(p)) ==> host(p) == None
      ensures forall p :: host(p) != old(host(p)) ==>
        exists h :: old(trapMap.Reached(h, Page(address / PageSize)) && trapMap.Touches(h, Page(p)))
      ensures forall h, p :: old(trapMap.FoundOn(h, Page(address / PageSize)) && HasToItself(h, p)) ==> host(p) == None
      ensures old(trapMap.Alone(Page(address / PageSize))) ==> forall h, p ::
        old(trapMap.Touches(h, Page(address / PageSize)) && trapMap.Touches(h, Page(p))) ==> host(p) == None
    {
      hide Valid, OpenedBy, trapMap.Touches, trapMap.Reached, trapMap.FoundOn, trapMap.Alone, HasToItself;
      var query, list := FaultQuery(address);
      assert forall h, iv :: trapMap.Touches(h, iv) <==> old(trapMap.Touches(h, iv));
      if query == [] {
        return false, [];
      }
      ran := RunCallbacks(query);
      Open(list);
      handled := true;
    }

    /** The other branch of the handler, for a fault known to be a read: groups that trap reads run their callback and
        then trap writes only, and the pages are opened, for writing too unless some group was found that trapped
        writes only.  Groups whose demand has just been lowered are not counted among these, so that a page ends up
        guarded exactly if it is not opened for writing or no group on it trapped reads: the faulting page exactly if
        some group found with it trapped writes only or none on it trapped reads. */
    method ReadFault(address: int) returns (handled: bool, query: seq<Handle>, list: seq<Interval>)
      requires Valid()
      modifies this`host, trapMap
      ensures handled <==> exists h :: old(trapMap.Touches(h, Page(address / PageSize)))
      ensures !handled ==> Valid() && host == old(host) && trapMap.groups == old(trapMap.groups)
      ensures handled ==> host(address / PageSize) != ReadWrite && OpenedBy(list, address / PageSize)
      ensures forall h :: h in query ==> h in old(trapMap.groups) && old(trapMap.Reached(h, Page(address / PageSize)))
      ensures forall h :: h in query <==> old(trapMap.FoundOn(h, Page(address / PageSize)))
      ensures forall p, h :: OpenedBy(list, p) && old(trapMap.Touches(h, Page(p))) ==> h in query
      ensures handled ==> trapMap.Valid() && Lowered(old(trapMap.groups), query)
      ensures handled ==>
        forall p :: host(p) == if OpenedBy(list, p) then OpenLevel(old(trapMap.groups), query) else old(host(p))
      ensures handled ==> forall p :: PageGuarded(p) <==>
        !(OpenedBy(list, p) && OpenLevel(old(trapMap.groups), query) == None && old(ReadsTrapped(p)))
      ensures handled ==> (PageGuarded(address / PageSize) <==>
        old(WritesTrappedAround(address / PageSize)) || !old(ReadsTrapped(address / PageSize)))
    {
      hide OpenedBy, trapMap.Touches, trapMap.Reached, trapMap.FoundOn, trapMap.Valid, OpenLevel, Lowered;
      query, list := FaultQuery(address);
      assert forall h, iv :: trapMap.Touches(h, iv) <==> old(trapMap.Touches(h, iv));
      if query == [] {
        return false, query, list;
      }
      ghost var was, host0 := trapMap.groups, host;
      var level := LowerDemands(query);
      OpenTo(list, level);
      handled := true;
      forall p
        ensures PageGuarded(p) <==>
          !(OpenedBy(list, p) && OpenLevel(was, query) == None && old(ReadsTrapped(p)))
      {
        assert old(PageGuarded(p));
        GuardedExactly(was, query, list, host0(p), p);
      }
      assert OpenLevel(was, query) == None <==> !old(WritesTrappedAround(address / PageSize)) by {
        OpensForWriting(was, query);
      }
    }

    /** A group on the page traps reads. */
    ghost predicate ReadsTrapped(p: int)
      reads trapMap
    {
      exists h :: trapMap.Touches(h, Page(p)) && trapMap.groups[h].value == ReadWrite
    }

    /** A group that a fault on the page finds traps writes only. */
    ghost predicate WritesTrappedAround(p: int)
      reads trapMap
    {
      exists h :: h in trapMap.groups && trapMap.groups[h].value == WriteOnly && trapMap.FoundOn(h, Page(p))
    }

    lemma OpensForWriting(was: map<Handle, Group<Protection>>, query: seq<Handle>)
      ensures OpenLevel(was, query) == None <==> !exists h :: h in was && was[h].value == WriteOnly && h in query
    {
    }

    lemma GuardedExactly(was: map<Handle, Group<Protection>>, query: seq<Handle>, list: seq<Interval>,
                         before: Protection, p: int)
      requires Lowered(was, query) && host(p) == if OpenedBy(list, p) then OpenLevel(was, query) else before
      requires forall h :: trapMap.Touches(h, Page(p)) ==> h in was && was[h].value.Rank() <= before.Rank()
      requires OpenedBy(list, p) ==> forall h :: trapMap.Touches(h, Page(p)) ==> h in query
      ensures PageGuarded(p) <==>
        !(OpenedBy(list, p) && OpenLevel(was, query) == None &&
          exists h :: trapMap.Touches(h, Page(p)) && h in was && was[h].value == ReadWrite)
    {
      hide OpenedBy, trapMap.Touches;
    }

    /** The groups are as they were, except that those listed no longer trap reads. */
    ghost predicate Lowered(was: map<Handle, Group<Protection>>, query: seq<Handle>)
      reads trapMap
    {
      && trapMap.groups.Keys == was.Keys
      && forall h :: h in was ==> trapMap.groups[h] == if h in query && was[h].value == ReadWrite
        then was[h].(value := WriteOnly) else was[h]
    }

    /** The level for the opened pages, as the demands before the callbacks decide it. */
    ghost function OpenLevel(was: map<Handle, Group<Protection>>, query: seq<Handle>): Protection {
      if exists h :: h in query && h in was && was[h].value == WriteOnly then WriteOnly else None
    }

    /** Runs the read callback of every listed group that traps reads. */
    method LowerDemands(query: seq<Handle>) returns (level: Protection)
      requires trapMap.Valid() && forall h :: h in query ==> h in trapMap.groups
      requires forall i, j :: 0 <= i < j < |query| ==> query[i] != query[j]
      modifies trapMap
      ensures trapMap.Valid() && Lowered(old(trapMap.groups), query) && level == OpenLevel(old(trapMap.groups), query)
      ensures forall h, iv :: trapMap.Touches(h, iv) <==> old(trapMap.Touches(h, iv))
      ensures forall h, iv :: trapMap.Touches(h, iv) ==> h in trapMap.groups
      ensures trapMap.groups.Keys == old(trapMap.groups).Keys && level != ReadWrite
    {
      hide trapMap.Valid;
      var allNone := true;
      for i := 0 to |query|
        invariant trapMap.Valid() && Lowered(old(trapMap.groups), query[..i])
        invariant allNone <==>
          !exists h :: h in query[..i] && h in old(trapMap.groups) && old(trapMap.groups)[h].value == WriteOnly
      {
        assert query[..i + 1] == query[..i] + [query[i]];
        assert query[i] in query && query[i] !in query[..i];
        if trapMap.groups[query[i]].value != ReadWrite {
          allNone := allNone && trapMap.groups[query[i]].value == None;
        } else {
          trapMap.SetValue(query[i], WriteOnly);
        }
      }
      assert query[..|query|] == query;
      level := if allNone then None else WriteOnly;
    }

    method OpenTo(list: seq<Interval>, level: Protection)
      requires AllAligned(list)
      modifies this`host
      ensures forall p :: host(p) == if OpenedBy(list, p) then level else old(host(p))
    {
      for i := 0 to |list|
        invariant forall p :: host(p) == if OpenedBy(list[..i], p) then level else old(host(p))
      {
        Mprotect(list[i], level);
        assert list[..i + 1] == list[..i] + [list[i]];
      }
      assert list[..|list|] == list;
    }

    lemma OpenedIsReached(query: seq<Handle>, list: seq<Interval>, lookup: Interval, p: int) returns (h: Handle)
      requires trapMap.Valid() && AllAligned(list) && Chained(list) && OpenedBy(list, p)
      requires forall h :: h in query ==> trapMap.Reached(h, lookup)
      requires forall a :: Covered(list, a) ==> exists h, iv :: h in query && trapMap.Owns(h, iv) && iv.Contains(a)
      ensures trapMap.Reached(h, lookup) && trapMap.Touches(h, Page(p))
    {
      var iv :| iv in list && iv.Overlaps(Page(p));
      var i :| 0 <= i < |list| && list[i] == iv;
      AlignedHoldsPage(iv, p);
      assert list[i].Contains(Page(p).start);
      assert Covered(list, Page(p).start);
      var g, o :| g in query && trapMap.Owns(g, o) && o.Contains(Page(p).start);
      var k :| k in trapMap.groups[g].intervals && k.Align() == o;
      AlignKeepsAlignedOverlap(k, Page(p));
      h := g;
    }
  }

  /** Deleting a trap can leave a page protected that no group is on: a write there is a fault that nobody handles. */
  method DeletionStrands() returns (t: TrapManager, handled: bool)
    ensures t.host(0) != None && !handled
  {
    hide TrapManager.Valid, TrapManager.Reprotected, TrapManager.IsStrictest, TrapManager.Dropped;
    t := new TrapManager();
    var first := t.TrapRegions([Interval(0, 2 * PageSize)], true);
    var second := t.TrapRegions([Interval(PageSize, 2 * PageSize)], true);
    ghost var was := t.host;
    t.DeleteTrap(first);
    assert t.trapMap.groups == map[second := Group([Interval(PageSize, 2 * PageSize)], WriteOnly)];
    assert 0 / PageSize == 0 && forall h :: !t.trapMap.Touches(h, Page(0));
    assert Interval(0, 2 * PageSize).Align() == Interval(0, 2 * PageSize);
    assert Interval(PageSize, 2 * PageSize) in t.trapMap.groups[second].intervals;
    assert t.trapMap.Touches(second, Interval(0, 2 * PageSize).Align());
    t.StrandedExactly(was(0), t.host(0), 0, [Interval(0, 2 * PageSize)], 0);
    var ran;
    handled, ran := t.TrapHandler(0);
  }

  /** After a read fault on a page that one group traps, the guest can write to it although the group traps writes. */
  method ReadFaultExposes() returns (t: TrapManager, h: Handle)
    ensures h in t.trapMap.groups && t.trapMap.groups[h].value == WriteOnly && t.trapMap.Touches(h, Page(0))
    ensures t.host(0) == None
  {
    t := new TrapManager();
    h := t.TrapRegions([Interval(0, PageSize)], false);
    assert Interval(0, PageSize) in t.trapMap.groups[h].intervals;
    assert t.trapMap.Touches(h, Page(0));
    ghost var was := t.trapMap.groups;
    label L:
    var handled, query, list := t.ReadFault(0);
    assert 0 / PageSize == 0 && old@L(t.trapMap.Touches(h, Page(0)));
    assert h in query;
    assert t.OpenLevel(was, query) == None;
  }
}
