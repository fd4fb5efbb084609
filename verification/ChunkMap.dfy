/** The guest memory map: a vector of chunks that tiles the address space and is split, trimmed, extended
    and merged in place, proved to behave as a pointwise map from address to chunk properties. */
module ChunkMaps {
  import opened Common

  datatype Permission = Permission(r: bool, w: bool, x: bool)

  /** What a chunk says about its addresses; two chunks are compatible when these agree. */
  datatype Info = Info(permission: Permission, state: nat, attributes: nat)

  datatype Chunk = Chunk(ptr: int, size: int, info: Info) {
    function End(): int { ptr + size }

    predicate Contains(a: int) { ptr <= a < End() }

    predicate IsCompatible(other: Chunk) { other.info == info }
  }

  const StateUnmapped: nat := 0x00000000
  const StateHeap: nat := 0x037EBD05
  const StateReserved: nat := 0x00000010

  /** Chunks in order, each starting where the one before ends; chunks of size zero are allowed. */
  ghost predicate Tiles(s: seq<Chunk>, lo: int, hi: int) {
    && (forall i :: 0 <= i < |s| ==> s[i].size >= 0)
    && (forall i :: 0 < i < |s| ==> s[i].ptr == s[i - 1].End())
    && if s == [] then lo == hi else s[0].ptr == lo && s[|s| - 1].End() == hi
  }

  /** The reference meaning of a chunk list: the properties of an address, if any chunk holds it. */
  ghost function Lookup(s: seq<Chunk>, a: int): Option<Info> {
    if s == [] then None
    else if s[0].Contains(a) then Some(s[0].info)
    else Lookup(s[1..], a)
  }

  /** The pointwise update that inserting a chunk stands for. */
  ghost function Updated(chunk: Chunk, a: int, was: Option<Info>): Option<Info> {
    if chunk.Contains(a) then Some(chunk.info) else was
  }

  lemma {:induction false} LookupConcat(s: seq<Chunk>, t: seq<Chunk>, a: int)
    ensures Lookup(s + t, a) == if Lookup(s, a).Some? then Lookup(s, a) else Lookup(t, a)
  {
    if s == [] {
      assert s + t == t;
    } else {
      assert (s + t)[1..] == s[1..] + t;
      LookupConcat(s[1..], t, a);
    }
  }

  /** In a tiling, exactly the addresses between its ends have properties. */
  lemma {:induction false} LookupDefined(s: seq<Chunk>, lo: int, hi: int, a: int)
    requires Tiles(s, lo, hi)
    ensures lo <= hi
    ensures Lookup(s, a).Some? <==> lo <= a < hi
  {
    if s != [] {
      assert Tiles(s[1..], s[0].End(), hi);
      LookupDefined(s[1..], s[0].End(), hi, a);
    }
  }

  lemma {:induction false} TilesOrdered(s: seq<Chunk>, lo: int, hi: int, i: nat, j: nat)
    requires Tiles(s, lo, hi) && i < j < |s|
    ensures lo <= s[i].ptr <= s[i].End() <= s[j].ptr <= s[j].End() <= hi
    decreases j - i
  {
    TilesBounds(s, lo, hi, i);
    TilesBounds(s, lo, hi, j);
    if i + 1 < j {
      TilesOrdered(s, lo, hi, i + 1, j);
    }
  }

  lemma {:induction false} TilesBounds(s: seq<Chunk>, lo: int, hi: int, i: nat)
    requires Tiles(s, lo, hi) && i < |s|
    ensures lo <= s[i].ptr <= s[i].End() <= hi
  {
    TilesSplit(s, lo, hi, i);
    TilesSplit(s, lo, hi, i + 1);
    LookupDefined(s[..i], lo, s[i].ptr, 0);
    LookupDefined(s[i + 1..], s[i].End(), hi, 0);
  }

  lemma TilesSplit(s: seq<Chunk>, lo: int, hi: int, k: nat)
    requires Tiles(s, lo, hi) && k <= |s|
    ensures var mid := if k < |s| then s[k].ptr else hi; Tiles(s[..k], lo, mid) && Tiles(s[k..], mid, hi)
  {
  }

  lemma TilesJoin(s: seq<Chunk>, t: seq<Chunk>, lo: int, mid: int, hi: int)
    requires Tiles(s, lo, mid) && Tiles(t, mid, hi)
    ensures Tiles(s + t, lo, hi)
  {
  }

  /** std::upper_bound over s[from..]. */
  method UpperBound(s: seq<Chunk>, from: nat, key: Chunk -> int, address: int) returns (r: nat)
    requires from <= |s|
    ensures from <= r <= |s|
    ensures r > from ==> key(s[r - 1]) <= address
    ensures r < |s| ==> address < key(s[r])
  {
    r := from;
    var len := |s| - from;
    while len > 0
      invariant from <= r && 0 <= len && r + len <= |s|
      invariant r > from ==> key(s[r - 1]) <= address
      invariant r + len < |s| ==> address < key(s[r + len])
    {
      var half := len / 2;
      if address < key(s[r + half]) {
        len := half;
      } else {
        r, len := r + half + 1, len - half - 1;
      }
    }
  }

  /** Two tilings of the same range that agree at every address. */
  ghost predicate Same(s: seq<Chunk>, t: seq<Chunk>, lo: int, hi: int) {
    Tiles(s, lo, hi) && Tiles(t, lo, hi) && forall a :: Lookup(s, a) == Lookup(t, a)
  }

  lemma LookupConcat3(s: seq<Chunk>, t: seq<Chunk>, u: seq<Chunk>, a: int)
    ensures Lookup(s + t + u, a) ==
      if Lookup(s, a).Some? then Lookup(s, a) else if Lookup(t, a).Some? then Lookup(t, a) else Lookup(u, a)
  {
    LookupConcat(s + t, u, a);
    LookupConcat(s, t, a);
  }

  lemma TilesSplit3(s: seq<Chunk>, t: seq<Chunk>, u: seq<Chunk>, lo: int, hi: int) returns (x: int, y: int)
    requires Tiles(s + t + u, lo, hi)
    ensures Tiles(s, lo, x) && Tiles(t, x, y) && Tiles(u, y, hi)
  {
    var all := s + t + u;
    x := if |s| < |all| then all[|s|].ptr else hi;
    y := if |s| + |t| < |all| then all[|s| + |t|].ptr else hi;
    TilesSplit(all, lo, hi, |s|);
    assert all[..|s|] == s && all[|s|..] == t + u;
    TilesSplit(t + u, x, hi, |t|);
    assert (t + u)[..|t|] == t && (t + u)[|t|..] == u;
  }

  /** Replacing a middle part by one that means the same keeps the meaning of the whole. */
  lemma SameMiddle(left: seq<Chunk>, m: seq<Chunk>, n: seq<Chunk>, right: seq<Chunk>, lo: int, x: int, y: int, hi: int)
    requires Tiles(left, lo, x) && Same(m, n, x, y) && Tiles(right, y, hi)
    ensures Same(left + m + right, left + n + right, lo, hi)
  {
    TilesJoin(left, m, lo, x, y);
    TilesJoin(left + m, right, lo, y, hi);
    TilesJoin(left, n, lo, x, y);
    TilesJoin(left + n, right, lo, y, hi);
    forall a ensures Lookup(left + m + right, a) == Lookup(left + n + right, a) {
      LookupConcat3(left, m, right, a);
      LookupConcat3(left, n, right, a);
    }
  }

  /** Joining two adjacent compatible chunks changes nothing. */
  lemma MergeSame(left: seq<Chunk>, x: Chunk, y: Chunk, right: seq<Chunk>, lo: int, hi: int)
    requires Tiles(left + [x, y] + right, lo, hi) && x.info == y.info
    ensures Same(left + [x, y] + right, left + [Chunk(x.ptr, x.size + y.size, x.info)] + right, lo, hi)
  {
    var p, q := TilesSplit3(left, [x, y], right, lo, hi);
    var joined := [Chunk(x.ptr, x.size + y.size, x.info)];
    forall a ensures Lookup([x, y], a) == Lookup(joined, a) {
      LookupConcat([x], [y], a);
      assert [x] + [y] == [x, y];
    }
    SameMiddle(left, [x, y], joined, right, lo, p, q, hi);
  }

  /** Dropping a chunk of size zero changes nothing. */
  lemma DropSame(left: seq<Chunk>, x: Chunk, right: seq<Chunk>, lo: int, hi: int)
    requires Tiles(left + [x] + right, lo, hi) && x.size == 0
    ensures Same(left + [x] + right, left + right, lo, hi)
  {
    var p, q := TilesSplit3(left, [x], right, lo, hi);
    SameMiddle(left, [x], [], right, lo, p, q, hi);
    assert left + [] + right == left + right;
  }

  /** The lower neighbour cut at the new chunk, the chunk, and what is left of the lower neighbour beyond it. */
  function Cut(lower: Chunk, chunk: Chunk): seq<Chunk> {
    [Chunk(lower.ptr, chunk.ptr - lower.ptr, lower.info), chunk] +
    if lower.End() > chunk.End() then [Chunk(chunk.End(), lower.End() - chunk.End(), lower.info)] else []
  }

  /** The plain form of an insertion, without any merging. */
  function Plain(left: seq<Chunk>, lower: Chunk, chunk: Chunk, right: seq<Chunk>): seq<Chunk> {
    left + Cut(lower, chunk) + right
  }

  /** What erasing and trimming above the lower neighbour establishes. */
  ghost predicate Cleared(lower: Chunk, chunk: Chunk, above: seq<Chunk>, right: seq<Chunk>, hi: int) {
    if lower.End() > chunk.End()
    then right == above
    else Tiles(right, chunk.End(), Max(hi, chunk.End())) && forall a :: a >= chunk.End() ==>
      Lookup(right, a) == Lookup(above, a)
  }

  /** The plain form is the pointwise update. */
  lemma PlainUpdates(left: seq<Chunk>, lower: Chunk, chunk: Chunk, above: seq<Chunk>, right: seq<Chunk>, lo: int,
                     hi: int)
    requires Tiles(left + [lower] + above, lo, hi) && chunk.size >= 0 && lower.ptr <= chunk.ptr <= lower.End()
    requires Cleared(lower, chunk, above, right, hi)
    ensures Tiles(Plain(left, lower, chunk, right), lo, Max(hi, chunk.End()))
    ensures forall a ::
      Lookup(Plain(left, lower, chunk, right), a) == Updated(chunk, a, Lookup(left + [lower] + above, a))
  {
    hide Lookup;
    var x, y := TilesSplit3(left, [lower], above, lo, hi);
    LookupDefined(above, y, hi, 0);
    var middle := Cut(lower, chunk);
    var z := Max(lower.End(), chunk.End());
    assert Tiles(middle, x, z);
    TilesJoin(left, middle, lo, x, z);
    TilesJoin(left + middle, right, lo, z, Max(hi, chunk.End()));
    forall a ensures Lookup(left + middle + right, a) == Updated(chunk, a, Lookup(left + [lower] + above, a)) {
      LookupConcat3(left, middle, right, a);
      LookupConcat3(left, [lower], above, a);
      LookupDefined(left, lo, x, a);
      LookupDefined(middle, x, z, a);
      LookupDefined(above, y, hi, a);
      LookupDefined([lower], x, y, a);
      LookupCut(lower, chunk, a);
      if lower.End() <= chunk.End() {
        LookupDefined(right, chunk.End(), Max(hi, chunk.End()), a);
      }
    }
  }

  lemma LookupCut(lower: Chunk, chunk: Chunk, a: int)
    requires lower.ptr <= chunk.ptr <= lower.End() && chunk.size >= 0
    ensures a < chunk.ptr ==> Lookup(Cut(lower, chunk), a) == Lookup([lower], a)
    ensures chunk.Contains(a) ==> Lookup(Cut(lower, chunk), a) == Some(chunk.info)
    ensures chunk.End() <= a < lower.End() ==> Lookup(Cut(lower, chunk), a) == Some(lower.info)
    ensures lower.Contains(a) ==> Lookup([lower], a) == Some(lower.info)
  {
    var cut := Chunk(lower.ptr, chunk.ptr - lower.ptr, lower.info);
    var rest := if lower.End() > chunk.End() then [Chunk(chunk.End(), lower.End() - chunk.End(), lower.info)] else [];
    LookupConcat3([cut], [chunk], rest, a);
    assert [cut] + [chunk] + rest == Cut(lower, chunk);
  }

  /** The first chunk is cut to start at the given end, if it reaches below it. */
  function Trimmed(s: seq<Chunk>, end: int): seq<Chunk> {
    if s != [] && s[0].ptr < end then [Chunk(end, s[0].End() - end, s[0].info)] + s[1..] else s
  }

  lemma TrimmedTiles(s: seq<Chunk>, end: int, lo: int, hi: int)
    requires Tiles(s, lo, hi) && s != [] && lo <= end <= s[0].End()
    ensures Tiles(Trimmed(s, end), end, hi)
  {
    TilesSplit(s, lo, hi, 1);
    var head := Chunk(end, s[0].End() - end, s[0].info);
    var mid := if 1 < |s| then s[1].ptr else hi;
    assert Tiles([head], end, mid);
    TilesJoin([head], s[1..], end, mid, hi);
  }

  lemma TrimmedLookup(s: seq<Chunk>, end: int, a: int)
    requires s != [] && s[0].ptr <= end <= a
    ensures Lookup(Trimmed(s, end), a) == Lookup(s, a)
  {
    if s[0].ptr < end {
      assert Trimmed(s, end)[1..] == s[1..];
    }
  }

  /** The chunks from u to v end inside the new chunk and say nothing about addresses beyond it. */
  lemma ErasedLookup(c: seq<Chunk>, u: nat, v: nat, end: int, lo: int, hi: int, a: int)
    requires Tiles(c, lo, hi) && 0 < u <= v <= |c| && c[v - 1].End() <= end <= a
    ensures Lookup(c[u..], a) == Lookup(c[v..], a)
  {
    TilesSplit(c, lo, hi, v);
    TilesSplit(c[..v], lo, c[v - 1].End(), u);
    assert c[u..] == c[..v][u..] + c[v..];
    LookupConcat(c[..v][u..], c[v..], a);
    LookupDefined(c[..v][u..], c[u - 1].End(), c[v - 1].End(), a);
  }

  /** Erasing the chunks that end inside the new one and trimming the next one clears the space above. */
  lemma ClearAbove(c: seq<Chunk>, u: nat, v: nat, chunk: Chunk, lo: int, hi: int)
    requires Tiles(c, lo, hi) && 0 < u <= v <= |c|
    requires v > u ==> c[v - 1].End() <= chunk.End()
    requires v < |c| ==> chunk.End() < c[v].End()
    ensures c[u - 1].End() > chunk.End() ==> u == v
    ensures Cleared(c[u - 1], chunk, c[u..], Trimmed(c[v..], chunk.End()), hi)
  {
    hide Lookup;
    if c[u - 1].End() > chunk.End() {
      if u < v {
        TilesOrdered(c, lo, hi, u - 1, v - 1);
      }
    } else {
      var end := chunk.End();
      TilesSplit(c, lo, hi, v);
      if v < |c| {
        TilesBounds(c, lo, hi, v);
        TrimmedTiles(c[v..], end, c[v].ptr, hi);
      }
      forall a | a >= end ensures Lookup(Trimmed(c[v..], end), a) == Lookup(c[u..], a) {
        ErasedLookup(c, u, v, end, lo, hi, a);
        if v < |c| {
          TrimmedLookup(c[v..], end, a);
        }
      }
    }
  }

  // ---- where chunks start

  /** A chunk that is not empty starts at the address.  Together with the meaning of the list, this decides which chunk
      the guest sees at an address. */
  ghost predicate StartsAt(s: seq<Chunk>, a: int) {
    exists c :: c in s && c.ptr == a && c.size > 0
  }

  lemma StartsConcat(s: seq<Chunk>, t: seq<Chunk>, a: int)
    ensures StartsAt(s + t, a) <==> StartsAt(s, a) || StartsAt(t, a)
  {
    if c :| c in s + t && c.ptr == a && c.size > 0 {
      assert c in s || c in t;
    }
    if c :| c in s && c.ptr == a && c.size > 0 {
      assert c in s + t;
    }
    if c :| c in t && c.ptr == a && c.size > 0 {
      assert c in s + t;
    }
  }

  lemma Starts3(s: seq<Chunk>, t: seq<Chunk>, u: seq<Chunk>, a: int)
    ensures StartsAt(s + (t + u), a) <==> StartsAt(s, a) || StartsAt(t, a) || StartsAt(u, a)
  {
    StartsConcat(s, t + u, a);
    StartsConcat(t, u, a);
  }

  lemma StartsOne(c: Chunk, a: int)
    ensures StartsAt([c], a) <==> a == c.ptr && c.size > 0
  {
    assert c in [c];
  }

  lemma StartsWithin(s: seq<Chunk>, lo: int, hi: int, a: int)
    requires Tiles(s, lo, hi)
    ensures StartsAt(s, a) ==> lo <= a < hi
  {
    if c :| c in s && c.ptr == a && c.size > 0 {
      var i :| 0 <= i < |s| && s[i] == c;
      TilesBounds(s, lo, hi, i);
    }
  }

  /** Where chunks start when a chunk and the rest of its lower neighbour take that neighbour's place. */
  ghost predicate StartsReplaced(left: seq<Chunk>, chunk: Chunk, extension: Chunk, right: seq<Chunk>, now: seq<Chunk>)
    requires left != []
  {
    var joins := left[|left| - 1].info == chunk.info && left[|left| - 1].size > 0;
    forall a :: StartsAt(now, a) <==>
      || StartsAt(left, a) || (a == chunk.ptr && chunk.size > 0 && !joins)
      || StartsAt([extension], a) || StartsAt(right, a)
  }

  lemma BelowTouches(left: seq<Chunk>, rest: seq<Chunk>, lo: int, hi: int)
    requires left != [] && rest != [] && Tiles(left + rest, lo, hi)
    ensures left[|left| - 1].End() == rest[0].ptr && left[|left| - 1].size >= 0
  {
    var all := left + rest;
    assert all[|left| - 1] == left[|left| - 1] && all[|left|] == rest[0];
  }

  lemma ReplacedStarts(left: seq<Chunk>, chunk: Chunk, extension: Chunk, right: seq<Chunk>)
    requires left != [] && left[|left| - 1].info != chunk.info
    ensures StartsReplaced(left, chunk, extension, right, left + ([chunk, extension] + right))
  {
    hide StartsAt;
    assert [chunk, extension] + right == [chunk] + ([extension] + right);
    forall a
      ensures StartsAt(left + ([chunk, extension] + right), a) <==>
        StartsAt(left, a) || (a == chunk.ptr && chunk.size > 0) || StartsAt([extension], a) || StartsAt(right, a)
    {
      Starts3(left, [chunk], [extension] + right, a);
      StartsConcat([extension], right, a);
      StartsOne(chunk, a);
    }
  }

  lemma JoinedStarts(front: seq<Chunk>, below: Chunk, chunk: Chunk, extension: Chunk, right: seq<Chunk>, lo: int,
                     hi: int)
    requires Tiles(front + [below, chunk] + ([extension] + right), lo, hi) && below.info == chunk.info
    ensures var joined := Chunk(below.ptr, below.size + chunk.size, below.info);
      StartsReplaced(front + [below], chunk, extension, right, front + [joined] + ([extension] + right))
  {
    var all := front + [below, chunk] + ([extension] + right);
    assert all[|front|] == below && all[|front| + 1] == chunk;
    var joined := Chunk(below.ptr, below.size + chunk.size, below.info);
    hide StartsAt;
    assert front + [joined] + ([extension] + right) == front + ([joined] + ([extension] + right));
    forall a
      ensures StartsAt(front + [joined] + ([extension] + right), a) <==>
        StartsAt(front + [below], a) || (a == chunk.ptr && chunk.size > 0 && below.size == 0) ||
        StartsAt([extension], a) || StartsAt(right, a)
    {
      Starts3(front, [joined], [extension] + right, a);
      StartsConcat([extension], right, a);
      StartsConcat(front, [below], a);
      StartsOne(joined, a);
      StartsOne(below, a);
    }
  }

  lemma UpperTouches(left: seq<Chunk>, chunk: Chunk, right: seq<Chunk>, lo: int, hi: int)
    requires Tiles(left + [chunk] + right, lo, hi)
    ensures chunk.size >= 0 && (right != [] ==> right[0].ptr == chunk.End())
  {
    var all := left + [chunk] + right;
    assert all[|left|] == chunk;
    if right != [] {
      assert all[|left| + 1] == right[0];
    }
  }

  lemma JoinedAboveStarts(left: seq<Chunk>, chunk: Chunk, right: seq<Chunk>, lo: int, hi: int)
    requires Tiles(left + [chunk] + right, lo, hi) && right != [] && right[0].size > 0
    ensures var joined := Chunk(chunk.ptr, chunk.size + right[0].size, chunk.info);
      forall a :: StartsAt(left + [joined] + right[1..], a) <==>
        StartsAt(left, a) || a == chunk.ptr || (StartsAt(right, a) && a != chunk.End())
  {
    UpperTouches(left, chunk, right, lo, hi);
    var joined := Chunk(chunk.ptr, chunk.size + right[0].size, chunk.info);
    var all := left + [chunk] + right;
    TilesSplit(all, lo, hi, |left| + 2);
    assert all[|left| + 2..] == right[1..] && all[|left| + 1] == right[0];
    hide StartsAt;
    assert left + [joined] + right[1..] == left + ([joined] + right[1..]);
    assert right == [right[0]] + right[1..];
    forall a
      ensures StartsAt(left + [joined] + right[1..], a) <==>
        StartsAt(left, a) || a == chunk.ptr || (StartsAt(right, a) && a != chunk.End())
    {
      Starts3(left, [joined], right[1..], a);
      StartsOne(joined, a);
      StartsConcat([right[0]], right[1..], a);
      StartsOne(right[0], a);
      if |right| > 1 {
        assert all[|left| + 2] == right[1];
        StartsWithin(right[1..], right[1].ptr, hi, a);
      } else {
        StartsWithin(right[1..], hi, hi, a);
      }
    }
  }

  /** The chunk joins the one below the lower neighbour, whose place it takes, or the lower neighbour itself. */
  predicate JoinsBelow(left: seq<Chunk>, lower: Chunk, chunk: Chunk) {
    if lower.ptr == chunk.ptr
    then
      && lower.End() > chunk.End() && left != []
      && left[|left| - 1].info == chunk.info && left[|left| - 1].size > 0
    else chunk.ptr <= lower.End() <= chunk.End() && lower.info == chunk.info
  }

  /** The chunk joins the one above it, which starts with this. */
  predicate JoinsAbove(lower: Chunk, chunk: Chunk, above: Option<Info>) {
    && lower.End() <= chunk.End() && lower.info != chunk.info && above == Some(chunk.info)
    && !(lower.ptr == chunk.ptr && lower.size == chunk.size)
  }

  /** A chunk starts at the address after an insertion around the lower neighbour. */
  ghost predicate StartsAround(left: seq<Chunk>, lower: Chunk, chunk: Chunk, right: seq<Chunk>, a: int) {
    var above := if right == [] then None else Some(right[0].info);
    || StartsAt(left, a) || (a == lower.ptr && lower.ptr < chunk.ptr)
    || (a == chunk.ptr && (chunk.size > 0 || JoinsAbove(lower, chunk, above)) && !JoinsBelow(left, lower, chunk))
    || (a == chunk.End() && lower.End() > chunk.End())
    || (StartsAt(right, a) && !(a == chunk.End() && JoinsAbove(lower, chunk, above)))
  }

  /** The chunk at index i is the last that starts at or before the address. */
  predicate IsLower(s: seq<Chunk>, i: int, a: int) {
    0 <= i < |s| && s[i].ptr <= a && (i + 1 < |s| ==> a < s[i + 1].ptr)
  }

  /** A chunk starts at the address after an insertion, where chunk i was the lower neighbour: at its end unless the new
      chunk joins the one above, at its start unless it joins one below, nowhere inside, and elsewhere as before. */
  ghost predicate StartsAfter(s: seq<Chunk>, i: int, chunk: Chunk, hi: int, a: int)
    requires 0 <= i < |s|
  {
    if a == chunk.End() && a < hi then !JoinsAbove(s[i], chunk, Lookup(s, a))
    else if a == chunk.ptr then chunk.size > 0 && !JoinsBelow(s[..i], s[i], chunk)
    else !(chunk.ptr < a <= chunk.End()) && StartsAt(s, a)
  }

  /** What clearing leaves above the new chunk, if that reaches the end of its lower neighbour. */
  ghost predicate ClearedStarts(s: seq<Chunk>, i: int, chunk: Chunk, right: seq<Chunk>, hi: int)
    requires 0 <= i < |s|
  {
    if s[i].End() > chunk.End() then right == s[i + 1..]
    else
      && (right == [] <==> chunk.End() >= hi)
      && (right != [] ==> right[0].size > 0 && Lookup(s, chunk.End()) == Some(right[0].info))
      && forall a :: StartsAt(right, a) <==> (a == chunk.End() && a < hi) || (a > chunk.End() && StartsAt(s, a))
  }

  lemma ClearLeaves(s: seq<Chunk>, u: nat, v: nat, chunk: Chunk, lo: int, hi: int)
    requires Tiles(s, lo, hi) && 0 < u <= v <= |s| && chunk.size >= 0
    requires v > u ==> s[v - 1].End() <= chunk.End()
    requires v < |s| ==> chunk.End() < s[v].End()
    ensures ClearedStarts(s, u - 1, chunk, Trimmed(s[v..], chunk.End()), hi)
  {
    hide Lookup, StartsAt;
    if s[u - 1].End() > chunk.End() {
      if u < v {
        TilesOrdered(s, lo, hi, u - 1, v - 1);
      }
    } else {
      var end, right := chunk.End(), Trimmed(s[v..], chunk.End());
      TilesSplit(s, lo, hi, v);
      TilesBounds(s, lo, hi, v - 1);
      if v < |s| {
        TilesBounds(s, lo, hi, v);
        LookupAt(s, lo, hi, v, end);
      }
      forall a ensures StartsAt(right, a) <==> (a == end && a < hi) || (a > end && StartsAt(s, a)) {
        TrimmedStarts(s, v, end, lo, hi, a);
      }
    }
  }

  lemma TrimmedStarts(s: seq<Chunk>, v: nat, end: int, lo: int, hi: int, a: int)
    requires Tiles(s, lo, hi) && 0 < v <= |s| && s[v - 1].End() <= end && (v < |s| ==> end < s[v].End())
    ensures StartsAt(Trimmed(s[v..], end), a) <==> (a == end && a < hi) || (a > end && StartsAt(s, a))
  {
    TilesSplit(s, lo, hi, v);
    if v < |s| {
      TilesBounds(s, lo, hi, v);
      TrimmedHead(s[v..], s[v].ptr, hi, end, a);
    }
    hide StartsAt;
    assert s == s[..v] + s[v..];
    StartsConcat(s[..v], s[v..], a);
    StartsWithin(s[..v], lo, s[v - 1].End(), a);
    if v == |s| {
      StartsNowhere(a);
    }
  }

  lemma TrimmedHead(s: seq<Chunk>, lo: int, hi: int, end: int, a: int)
    requires s != [] && Tiles(s, lo, hi) && lo <= end < s[0].End()
    ensures StartsAt(Trimmed(s, end), a) <==> a == end || (a > end && StartsAt(s, a))
  {
    TilesSplit(s, lo, hi, 1);
    StartsWithin(s[1..], s[0].End(), hi, a);
    hide StartsAt, Tiles;
    var head := if s[0].ptr < end then Chunk(end, s[0].End() - end, s[0].info) else s[0];
    assert s == [s[0]] + s[1..] && Trimmed(s, end) == [head] + s[1..];
    StartsConcat([s[0]], s[1..], a);
    StartsConcat([head], s[1..], a);
    StartsOne(s[0], a);
    StartsOne(head, a);
  }

  lemma StartsNowhere(a: int)
    ensures !StartsAt([], a)
  {
  }

  /** An insertion around the lower neighbour, in terms of the chunks before it. */
  lemma StartsAfterwards(s: seq<Chunk>, i: nat, chunk: Chunk, right: seq<Chunk>, lo: int, hi: int, a: int)
    requires Tiles(s, lo, hi) && chunk.size >= 0 && IsLower(s, i, chunk.ptr) && chunk.ptr <= s[i].End()
    requires ClearedStarts(s, i, chunk, right, hi)
    ensures StartsAround(s[..i], s[i], chunk, right, a) <==> StartsAfter(s, i, chunk, hi, a)
  {
    StartsAroundChunk(s, lo, hi, i, a);
    hide StartsAt, Lookup, Tiles, Chunk.IsCompatible;
    if s[i].End() > chunk.End() {
      assert !JoinsAbove(s[i], chunk, if right == [] then None else Some(right[0].info));
    } else if right == [] {
      assert chunk.End() >= hi;
    }
  }

  lemma StartsAroundChunk(s: seq<Chunk>, lo: int, hi: int, i: nat, a: int)
    requires Tiles(s, lo, hi) && i < |s|
    ensures lo <= s[i].ptr <= s[i].End() <= hi
    ensures StartsAt(s, a) <==> StartsAt(s[..i], a) || (a == s[i].ptr && s[i].size > 0) || StartsAt(s[i + 1..], a)
    ensures StartsAt(s[..i], a) ==> a < s[i].ptr
    ensures StartsAt(s[i + 1..], a) ==> s[i].End() <= a < hi
  {
    hide StartsAt;
    TilesBounds(s, lo, hi, i);
    TilesSplit(s, lo, hi, i);
    TilesSplit(s, lo, hi, i + 1);
    assert s == s[..i] + ([s[i]] + s[i + 1..]);
    Starts3(s[..i], [s[i]], s[i + 1..], a);
    StartsOne(s[i], a);
    StartsWithin(s[..i], lo, s[i].ptr, a);
    StartsWithin(s[i + 1..], s[i].End(), hi, a);
  }

  /** Where chunks start now is where they start after the insertion. */
  ghost predicate StartsAreAfter(s: seq<Chunk>, chunk: Chunk, hi: int, now: seq<Chunk>) {
    forall i, a :: IsLower(s, i, chunk.ptr) ==> (StartsAt(now, a) <==> StartsAfter(s, i, chunk, hi, a))
  }

  lemma AroundIsAfter(s: seq<Chunk>, i: nat, chunk: Chunk, right: seq<Chunk>, lo: int, hi: int)
    requires Tiles(s, lo, hi) && chunk.size >= 0 && IsLower(s, i, chunk.ptr) && chunk.ptr <= s[i].End()
    requires ClearedStarts(s, i, chunk, right, hi)
    ensures forall now :: (forall a :: StartsAt(now, a) <==> StartsAround(s[..i], s[i], chunk, right, a)) ==>
      StartsAreAfter(s, chunk, hi, now)
  {
    hide StartsAt, StartsAround, StartsAfter, ClearedStarts;
    forall now, j, a | (forall b :: StartsAt(now, b) <==> StartsAround(s[..i], s[i], chunk, right, b)) &&
      IsLower(s, j, chunk.ptr)
      ensures StartsAt(now, a) <==> StartsAfter(s, j, chunk, hi, a)
    {
      LowerIsOne(s, i, j, chunk.ptr, lo, hi);
      StartsAfterwards(s, i, chunk, right, lo, hi, a);
    }
  }

  lemma LowerIsOne(s: seq<Chunk>, i: nat, j: int, a: int, lo: int, hi: int)
    requires Tiles(s, lo, hi) && IsLower(s, i, a) && IsLower(s, j, a)
    ensures i == j
  {
    if i < j {
      TilesUp(s, lo, hi, i + 1, j);
    } else if j < i {
      TilesUp(s, lo, hi, j + 1, i);
    }
  }

  lemma TilesUp(s: seq<Chunk>, lo: int, hi: int, i: nat, j: nat)
    requires Tiles(s, lo, hi) && i <= j < |s|
    ensures s[i].ptr <= s[j].ptr
  {
    if i < j {
      TilesOrdered(s, lo, hi, i, j);
    }
  }

  lemma BeyondStarts(s: seq<Chunk>, chunk: Chunk, lo: int, hi: int)
    requires s != [] && Tiles(s, lo, hi) && chunk.size >= 0 && hi < chunk.ptr
    ensures StartsAreAfter(s, chunk, hi, s + [chunk])
  {
    var last := |s| - 1;
    TilesBounds(s, lo, hi, last);
    hide StartsAt, Lookup;
    forall i, a | IsLower(s, i, chunk.ptr) ensures StartsAt(s + [chunk], a) <==> StartsAfter(s, i, chunk, hi, a) {
      LowerIsOne(s, last, i, chunk.ptr, lo, hi);
      StartsConcat(s, [chunk], a);
      StartsOne(chunk, a);
      StartsWithin(s, lo, hi, a);
    }
  }

  /** Inserted, rejected with an exception, or outside what the vector operations define. */
  datatype Outcome = Inserted | OutsideAddressSpace | StepsBeforeBegin

  lemma TilesLast(s: seq<Chunk>, lo: int, hi: int)
    requires s != [] && Tiles(s, lo, hi)
    ensures s[0].ptr == lo <= s[|s| - 1].End() == hi
  {
    TilesBounds(s, lo, hi, 0);
  }

  /** What the binary search for the chunk's start says about its lower neighbour. */
  lemma LowerFacts(c: seq<Chunk>, u: nat, ptr: int, lo: int, hi: int)
    requires c != [] && Tiles(c, lo, hi) && u <= |c| && ptr <= hi
    requires u > 0 ==> c[u - 1].ptr <= ptr
    requires u < |c| ==> ptr < c[u].ptr
    ensures u == 0 <==> ptr < lo
    ensures u > 0 ==> c[u - 1].ptr <= ptr <= c[u - 1].End()
    ensures u > 0 && ptr == lo && c[0].size > 0 ==> u == 1
    ensures c[0].ptr == lo
    ensures u > 1 && ptr == lo ==> c[0].size == 0
  {
    if u > 0 {
      TilesBounds(c, lo, hi, u - 1);
      if u > 1 {
        TilesOrdered(c, lo, hi, 0, u - 1);
      }
    }
  }

  class MemoryManager {
    var chunks: seq<Chunk>

    ghost predicate Valid(lo: int, hi: int)
      reads this
    {
      chunks != [] && Tiles(chunks, lo, hi)
    }

    /** The address space after initialisation: reserved below and above the application range. */
    constructor (spaceSize: int, base: int, baseSize: int)
      requires 0 <= base && 0 <= baseSize && base + baseSize <= spaceSize
      ensures Valid(0, spaceSize) && chunks[0].ptr == 0 && chunks[0].End() == base
      ensures forall a :: 0 <= a < spaceSize ==>
        Lookup(chunks, a) == Some(Info(Permission(false, false, false),
                                       if base <= a < base + baseSize then StateUnmapped else StateReserved, 0))
    {
      var reserved := Info(Permission(false, false, false), StateReserved, 0);
      var unmapped := Info(Permission(false, false, false), StateUnmapped, 0);
      var low := Chunk(0, base, reserved);
      var app := Chunk(base, baseSize, unmapped);
      var high := Chunk(base + baseSize, spaceSize - (base + baseSize), reserved);
      chunks := [low, app, high];
      new;
      forall a | 0 <= a < spaceSize
        ensures Lookup(chunks, a) == Some(if base <= a < base + baseSize then unmapped else reserved)
      {
        LookupConcat3([low], [app], [high], a);
        assert [low] + [app] + [high] == chunks;
      }
    }

    /** The chunk is already there; only its properties change. */
    method Overwrite(lower: nat, chunk: Chunk, ghost left: seq<Chunk>, ghost right: seq<Chunk>, ghost lo: int,
                     ghost hi: int)
      requires lower == |left| && lower < |chunks| && chunks == left + [chunks[lower]] + right
      requires chunks[lower].ptr == chunk.ptr && chunks[lower].size == chunk.size
      requires Tiles(Plain(left, chunks[lower], chunk, right), lo, hi)
      modifies this
      ensures chunks != [] && Same(Plain(left, old(chunks[lower]), chunk, right), chunks, lo, hi)
      ensures forall a :: StartsAt(chunks, a) <==> StartsAround(left, old(chunks[lower]), chunk, right, a)
    {
      ghost var was := chunks[lower];
      chunks := chunks[lower := Chunk(chunks[lower].ptr, chunks[lower].size, chunk.info)];
      ghost var cut := Chunk(was.ptr, 0, was.info);
      assert Plain(left, was, chunk, right) == left + [cut] + ([chunk] + right);
      DropSame(left, cut, [chunk] + right, lo, hi);
      assert chunks == left + ([chunk] + right);
      forall a ensures StartsAt(chunks, a) <==> StartsAround(left, was, chunk, right, a) {
        Starts3(left, [chunk], right, a);
        StartsOne(chunk, a);
      }
    }

    /** The chunk lies strictly inside the lower neighbour, which is split around it. */
    method SplitLower(lower: nat, chunk: Chunk, ghost left: seq<Chunk>, ghost right: seq<Chunk>, ghost lo: int,
                      ghost hi: int)
      returns (defined: bool)
      requires lower == |left| && lower < |chunks| && chunks == left + [chunks[lower]] + right
      requires chunks[lower].ptr <= chunk.ptr && chunks[lower].End() > chunk.End()
      requires Tiles(Plain(left, chunks[lower], chunk, right), lo, hi)
      modifies this
      ensures defined <==> lower > 0 || old(chunks[lower].ptr) < chunk.ptr
      ensures defined ==> chunks != [] && Same(Plain(left, old(chunks[lower]), chunk, right), chunks, lo, hi)
      ensures defined ==>
        forall a :: StartsAt(chunks, a) <==> StartsAround(left, old(chunks[lower]), chunk, right, a)
    {
      hide Lookup, Tiles, StartsAt;
      var upper := lower + 1;
      ghost var was := chunks[lower];
      ghost var cut := Chunk(was.ptr, chunk.ptr - was.ptr, was.info);
      var extension := Chunk(chunk.End(), chunks[lower].End() - chunk.End(), chunks[lower].info);
      chunks := chunks[lower := Chunk(chunks[lower].ptr, chunk.ptr - chunks[lower].ptr, chunks[lower].info)];
      if chunks[lower].size != 0 {
        chunks := chunks[..upper] + [extension] + chunks[upper..];
        chunks := chunks[..upper] + [chunk] + chunks[upper..];
        assert chunks == Plain(left, was, chunk, right);
        forall a ensures StartsAt(chunks, a) <==> StartsAround(left, was, chunk, right, a) {
          assert chunks == left + (([cut] + ([chunk] + [extension])) + right);
          Starts3(left, [cut] + ([chunk] + [extension]), right, a);
          Starts3([cut], [chunk], [extension], a);
          StartsOne(cut, a);
          StartsOne(chunk, a);
          StartsOne(extension, a);
        }
      } else {
        if lower == 0 {
          return false; // the code would look at the chunk before the first
        }
        assert Plain(left, was, chunk, right) == left + [cut] + ([chunk, extension] + right);
        DropSame(left, cut, [chunk, extension] + right, lo, hi);
        ReplaceLower(lower, chunk, extension, left, right, lo, hi);
        forall a ensures StartsAt(chunks, a) <==> StartsAround(left, was, chunk, right, a) {
          StartsOne(extension, a);
        }
      }
      return true;
    }

    /** Nothing of the lower neighbour is left in front; the chunk joins the one below it or takes its place. */
    method ReplaceLower(lower: nat, chunk: Chunk, extension: Chunk, ghost left: seq<Chunk>, ghost right: seq<Chunk>,
                        ghost lo: int, ghost hi: int)
      requires 0 < lower == |left| && lower < |chunks| && chunks == left + [chunks[lower]] + right
      requires Tiles(left + ([chunk, extension] + right), lo, hi)
      modifies this
      ensures chunks != [] && Same(left + ([chunk, extension] + right), chunks, lo, hi)
      ensures StartsReplaced(left, chunk, extension, right, chunks)
    {
      hide Lookup, Tiles, StartsReplaced;
      var upper := lower + 1;
      var lower2 := lower - 1;
      BelowTouches(left, [chunk, extension] + right, lo, hi);
      if chunk.IsCompatible(chunks[lower2]) && chunks[lower2].End() >= chunk.ptr {
        ghost var below := chunks[lower2];
        ghost var front := left[..lower2];
        assert left == front + [below];
        chunks := chunks[lower2 := Chunk(chunks[lower2].ptr, chunk.End() - chunks[lower2].ptr, chunks[lower2].info)];
        assert chunks[..lower] == front + [Chunk(below.ptr, below.size + chunk.size, below.info)];
        assert chunks[lower + 1..] == right;
        chunks := chunks[..lower] + chunks[lower + 1..];
        upper := lower;
        chunks := chunks[..upper] + [extension] + chunks[upper..];
        assert left + ([chunk, extension] + right) == front + [below, chunk] + ([extension] + right);
        MergeBelow(front, below, chunk, [extension] + right, lo, hi);
        assert chunks == front + [Chunk(below.ptr, below.size + chunk.size, below.info)] + ([extension] + right);
        JoinedStarts(front, below, chunk, extension, right, lo, hi);
      } else {
        chunks := chunks[lower := chunk];
        chunks := chunks[..upper] + [extension] + chunks[upper..];
        assert chunks == left + ([chunk, extension] + right);
        ReplacedStarts(left, chunk, extension, right);
      }
    }

    /** The chunk reaches the end of the lower neighbour or beyond; it is merged into a neighbour or inserted. */
    method MergeOrInsert(lower: nat, chunk: Chunk, ghost left: seq<Chunk>, ghost right: seq<Chunk>, ghost lo: int,
                         ghost hi: int)
      requires lower == |left| && lower < |chunks| && chunks == left + [chunks[lower]] + right
      requires chunks[lower].ptr <= chunk.ptr <= chunks[lower].End() <= chunk.End()
      requires Tiles(Plain(left, chunks[lower], chunk, right), lo, hi) && (right != [] ==> right[0].size > 0)
      requires !(chunks[lower].ptr == chunk.ptr && chunks[lower].size == chunk.size)
      modifies this
      ensures chunks != [] && Same(Plain(left, old(chunks[lower]), chunk, right), chunks, lo, hi)
      ensures forall a :: StartsAt(chunks, a) <==> StartsAround(left, old(chunks[lower]), chunk, right, a)
    {
      hide Lookup, Tiles, StartsAt;
      ghost var was := chunks[lower];
      ghost var cut := Chunk(was.ptr, chunk.ptr - was.ptr, was.info);
      assert Plain(left, was, chunk, right) == left + [cut, chunk] + right;
      if chunk.IsCompatible(chunks[lower]) && chunks[lower].End() >= chunk.ptr {
        chunks := chunks[lower := Chunk(chunks[lower].ptr, chunk.End() - chunks[lower].ptr, chunks[lower].info)];
        MergeSame(left, cut, chunk, right, lo, hi);
        assert chunks == left + [Chunk(was.ptr, cut.size + chunk.size, was.info)] + right;
        ghost var joined := Chunk(was.ptr, cut.size + chunk.size, was.info);
        assert chunks == left + ([joined] + right);
        forall a ensures StartsAt(chunks, a) <==> StartsAround(left, was, chunk, right, a) {
          Starts3(left, [joined], right, a);
          StartsOne(joined, a);
        }
      } else {
        if chunks[lower].End() > chunk.ptr {
          chunks := chunks[lower := Chunk(chunks[lower].ptr, chunk.ptr - chunks[lower].ptr, chunks[lower].info)];
        }
        assert chunks == left + [cut] + right;
        assert left + [cut, chunk] + right == (left + [cut]) + [chunk] + right;
        JoinUpperOrInsert(lower + 1, chunk, left + [cut], right, lo, hi);
        forall a ensures StartsAt(chunks, a) <==> StartsAround(left, was, chunk, right, a) {
          StartsConcat(left, [cut], a);
          StartsOne(cut, a);
        }
      }
    }

    /** The chunk joins the upper neighbour or is inserted before it. */
    method JoinUpperOrInsert(upper: nat, chunk: Chunk, ghost left: seq<Chunk>, ghost right: seq<Chunk>, ghost lo: int,
                             ghost hi: int)
      requires upper == |left| && chunks == left + right && Tiles(left + [chunk] + right, lo, hi)
      requires right != [] ==> right[0].size > 0
      modifies this
      ensures chunks != [] && Same(left + [chunk] + right, chunks, lo, hi)
      ensures var joins := right != [] && right[0].info == chunk.info;
        forall a :: StartsAt(chunks, a) <==>
          || StartsAt(left, a) || (a == chunk.ptr && (chunk.size > 0 || joins))
          || (StartsAt(right, a) && !(a == chunk.End() && joins))
    {
      hide Lookup, Tiles, StartsAt;
      UpperTouches(left, chunk, right, lo, hi);
      if upper < |chunks| && chunk.IsCompatible(chunks[upper]) && chunk.End() >= chunks[upper].ptr {
        assert left + [chunk] + right == left + [chunk, right[0]] + right[1..];
        chunks := chunks[upper := Chunk(chunk.ptr, chunk.size + chunks[upper].size, chunks[upper].info)];
        MergeSame(left, chunk, right[0], right[1..], lo, hi);
        assert chunks == left + [Chunk(chunk.ptr, chunk.size + right[0].size, chunk.info)] + right[1..];
        JoinedAboveStarts(left, chunk, right, lo, hi);
      } else {
        chunks := chunks[..upper] + [chunk] + chunks[upper..];
        assert chunks == left + ([chunk] + right) == left + [chunk] + right;
        forall a
          ensures StartsAt(chunks, a) <==> StartsAt(left, a) || (a == chunk.ptr && chunk.size > 0) || StartsAt(right, a)
        {
          Starts3(left, [chunk], right, a);
          StartsOne(chunk, a);
        }
      }
    }

    /** Erases the chunks from upper on that end inside the new chunk and trims the one after them. */
    method Clear(upper: nat, chunk: Chunk, ghost lo: int, ghost hi: int) returns (ghost right: seq<Chunk>)
      requires Valid(lo, hi) && 0 < upper <= |chunks| && chunk.size >= 0
      modifies this
      ensures chunks == old(chunks)[..upper] + right
      ensures Cleared(old(chunks)[upper - 1], chunk, old(chunks)[upper..], right, hi)
      ensures ClearedStarts(old(chunks), upper - 1, chunk, right, hi)
    {
      hide Lookup, Tiles, Cleared, ClearedStarts;
      var end := UpperBound(chunks, upper, (x: Chunk) => x.End(), chunk.End());
      ClearAbove(chunks, upper, end, chunk, lo, hi);
      ClearLeaves(chunks, upper, end, chunk, lo, hi);
      right := Trimmed(chunks[end..], chunk.End());
      chunks := chunks[..upper] + chunks[end..];
      if upper < |chunks| && chunks[upper].ptr < chunk.End() {
        var upperEnd := chunks[upper].End();
        chunks := chunks[upper := Chunk(chunk.End(), upperEnd - chunk.End(), chunks[upper].info)];
      }
    }

    /** Inserting a chunk is the pointwise update of the map, and keeps the chunks tiling the address space exactly if
        the chunk does not start past its end.
        The vector operations are undefined exactly when the chunk starts at the bottom of the address space
        and ends inside the first chunk. */
    method InsertChunk(chunk: Chunk, ghost lo: int, ghost hi: int) returns (outcome: Outcome)
      requires Valid(lo, hi) && chunk.size >= 0
      modifies this
      ensures outcome == OutsideAddressSpace <==> chunk.ptr < lo
      ensures outcome == StepsBeforeBegin <==> chunk.ptr == lo && chunk.End() < old(chunks)[0].End()
      ensures outcome == OutsideAddressSpace ==> chunks == old(chunks)
      ensures outcome == Inserted ==> (Valid(lo, Max(hi, chunk.End())) <==> chunk.ptr <= hi)
      ensures outcome == Inserted ==> forall a :: Lookup(chunks, a) == Updated(chunk, a, Lookup(old(chunks), a))
      ensures outcome == Inserted ==> StartsAreAfter(old(chunks), chunk, hi, chunks)
    {
      hide Lookup, Tiles, Cleared, Plain, StartsAreAfter;
      TilesLast(chunks, lo, hi);
      if chunks[|chunks| - 1].End() < chunk.ptr {
        InsertBeyond(chunk, lo, hi); // only the last branch below applies
        return Inserted;
      }
      outcome := InsertWithin(chunk, lo, hi);
    }

    /** Insertion of a chunk that starts past the end of the address space: nothing is erased or trimmed, none of the
        conditions on the last chunk holds, and the new one is appended behind a gap. */
    method InsertBeyond(chunk: Chunk, ghost lo: int, ghost hi: int)
      requires Valid(lo, hi) && chunk.size >= 0 && hi < chunk.ptr
      modifies this
      ensures chunks != [] && !Tiles(chunks, lo, Max(hi, chunk.End()))
      ensures forall a :: Lookup(chunks, a) == Updated(chunk, a, Lookup(old(chunks), a))
      ensures StartsAreAfter(old(chunks), chunk, hi, chunks)
    {
      BeyondStarts(chunks, chunk, lo, hi);
      hide StartsAt, StartsAreAfter;
      var upper := UpperBound(chunks, 0, (x: Chunk) => x.ptr, chunk.ptr);
      if upper < |chunks| {
        TilesBounds(chunks, lo, hi, upper);
        assert false;
      }
      var lower := upper - 1;
      TilesBounds(chunks, lo, hi, lower);
      assert chunks[lower].ptr != chunk.ptr && chunks[lower].End() == hi < chunk.ptr <= chunk.End();
      forall a ensures Lookup(chunks + [chunk], a) == Updated(chunk, a, Lookup(chunks, a)) {
        LookupConcat(chunks, [chunk], a);
        LookupDefined(chunks, lo, hi, a);
      }
      ghost var n := |chunks|;
      chunks := chunks + [chunk];
      assert chunks[n].ptr != chunks[n - 1].End();
    }

    method InsertWithin(chunk: Chunk, ghost lo: int, ghost hi: int) returns (outcome: Outcome)
      requires Valid(lo, hi) && chunk.size >= 0 && chunk.ptr <= hi
      modifies this
      ensures outcome == OutsideAddressSpace <==> chunk.ptr < lo
      ensures outcome == StepsBeforeBegin <==> chunk.ptr == lo && chunk.End() < old(chunks)[0].End()
      ensures outcome == OutsideAddressSpace ==> chunks == old(chunks)
      ensures outcome == Inserted ==> Valid(lo, Max(hi, chunk.End()))
      ensures outcome == Inserted ==> forall a :: Lookup(chunks, a) == Updated(chunk, a, Lookup(old(chunks), a))
      ensures outcome == Inserted ==> StartsAreAfter(old(chunks), chunk, hi, chunks)
    {
      hide Lookup, Tiles, Cleared, Plain, StartsAt, StartsAround, StartsAreAfter;
      ghost var c := chunks;
      var upper := UpperBound(chunks, 0, (x: Chunk) => x.ptr, chunk.ptr);
      LowerFacts(c, upper, chunk.ptr, lo, hi);
      if upper == 0 {
        return OutsideAddressSpace;
      }
      ghost var right := Clear(upper, chunk, lo, hi);
      var lower := upper - 1;
      ghost var left := c[..lower];
      assert chunks == left + [c[lower]] + right;
      assert c == left + [c[lower]] + c[upper..];
      PlainUpdates(left, c[lower], chunk, c[upper..], right, lo, hi);
      AroundIsAfter(c, lower, chunk, right, lo, hi);

      if chunks[lower].ptr == chunk.ptr && chunks[lower].size == chunk.size {
        Overwrite(lower, chunk, left, right, lo, Max(hi, chunk.End()));
      } else if chunks[lower].End() > chunk.End() {
        var defined := SplitLower(lower, chunk, left, right, lo, Max(hi, chunk.End()));
        if !defined {
          return StepsBeforeBegin;
        }
      } else {
        MergeOrInsert(lower, chunk, left, right, lo, Max(hi, chunk.End()));
      }
      return Inserted;
    }

    method Get(address: int, ghost lo: int, ghost hi: int) returns (r: Option<Chunk>)
      requires Valid(lo, hi)
      ensures r.Some? <==> lo <= address < hi
      ensures r.Some? ==>
        r.value in chunks && r.value.Contains(address) && Lookup(chunks, address) == Some(r.value.info)
      ensures r.Some? ==> StartsAt(chunks, r.value.ptr) && (r.value.End() < hi ==> StartsAt(chunks, r.value.End()))
      ensures r.Some? ==> forall a :: r.value.ptr < a < r.value.End() ==> !StartsAt(chunks, a)
    {
      var upper := UpperBound(chunks, 0, (x: Chunk) => x.ptr, address);
      if upper == 0 {
        return None;
      }
      var chunk := chunks[upper - 1];
      TilesBounds(chunks, lo, hi, upper - 1);
      if chunk.End() > address {
        LookupAt(chunks, lo, hi, upper - 1, address);
        Extent(chunks, lo, hi, upper - 1);
        return Some(chunk);
      }
      return None;
    }

    /** Heap bytes plus the fixed code region and main thread stack. */
    method GetUserMemoryUsage(codeSize: nat, stackSize: nat, ghost lo: int, ghost hi: int) returns (size: int)
      requires Valid(lo, hi)
      ensures size == |HeapAddresses(chunks, lo, hi)| + codeSize + stackSize
    {
      size := 0;
      for i := 0 to |chunks|
        invariant size == HeapBytes(chunks[..i])
      {
        HeapBytesSnoc(chunks[..i], chunks[i]);
        assert chunks[..i + 1] == chunks[..i] + [chunks[i]];
        if chunks[i].info.state == StateHeap {
          size := size + chunks[i].size;
        }
      }
      assert chunks[..|chunks|] == chunks;
      HeapBytesCountAddresses(chunks, lo, hi);
      size := size + codeSize + stackSize;
    }
  }

  /** The addresses whose state is Heap. */
  ghost function HeapAddresses(s: seq<Chunk>, lo: int, hi: int): set<int> {
    set a: int | lo <= a < hi && Lookup(s, a).Some? && Lookup(s, a).value.state == StateHeap
  }

  ghost function HeapBytes(s: seq<Chunk>): int {
    if s == [] then 0 else (if s[0].info.state == StateHeap then s[0].size else 0) + HeapBytes(s[1..])
  }

  lemma {:induction false} HeapBytesSnoc(s: seq<Chunk>, c: Chunk)
    ensures HeapBytes(s + [c]) == HeapBytes(s) + if c.info.state == StateHeap then c.size else 0
  {
    if s != [] {
      assert (s + [c])[1..] == s[1..] + [c];
      HeapBytesSnoc(s[1..], c);
    }
  }

  ghost function Range(lo: int, hi: int): (r: set<int>)
    requires lo <= hi
    ensures forall a :: a in r <==> lo <= a < hi
    ensures |r| == hi - lo
    decreases hi - lo
  {
    if lo == hi then {} else Range(lo, hi - 1) + {hi - 1}
  }

  /** The heap addresses of a tiling are those of its first chunk and those of the rest, which do not meet. */
  lemma HeapAddressesStep(s: seq<Chunk>, lo: int, hi: int, a: int)
    requires s != [] && Tiles(s, lo, hi)
    ensures s[0].End() <= hi && Tiles(s[1..], s[0].End(), hi)
    ensures a in HeapAddresses(s, lo, hi) <==>
      (lo <= a < s[0].End() && s[0].info.state == StateHeap) || a in HeapAddresses(s[1..], s[0].End(), hi)
  {
    TilesSplit(s, lo, hi, 1);
    LookupDefined(s[1..], s[0].End(), hi, a);
  }

  /** The sum over chunks counts every heap address exactly once. */
  lemma {:induction false} HeapBytesCountAddresses(s: seq<Chunk>, lo: int, hi: int)
    requires Tiles(s, lo, hi)
    ensures HeapBytes(s) == |HeapAddresses(s, lo, hi)|
  {
    hide Lookup;
    if s == [] {
      assert HeapAddresses(s, lo, hi) == {};
    } else {
      hide Tiles;
      var mid := s[0].End();
      HeapAddressesStep(s, lo, hi, 0);
      HeapBytesCountAddresses(s[1..], mid, hi);
      TilesBounds(s, lo, hi, 0);
      var head := if s[0].info.state == StateHeap then Range(s[0].ptr, mid) else {};
      var tail := HeapAddresses(s[1..], mid, hi);
      forall a ensures a in HeapAddresses(s, lo, hi) <==> a in head || a in tail {
        HeapAddressesStep(s, lo, hi, a);
        FirstStarts(s, lo, hi);
      }
      assert HeapAddresses(s, lo, hi) == head + tail;
      assert head !! tail;
    }
  }

  lemma FirstStarts(s: seq<Chunk>, lo: int, hi: int)
    requires s != [] && Tiles(s, lo, hi)
    ensures s[0].ptr == lo
  {
  }

  /** In a tiling, the chunk that holds an address decides its properties. */
  lemma LookupAt(s: seq<Chunk>, lo: int, hi: int, i: nat, a: int)
    requires Tiles(s, lo, hi) && i < |s| && s[i].Contains(a)
    ensures Lookup(s, a) == Some(s[i].info)
  {
    TilesSplit(s, lo, hi, i);
    LookupDefined(s[..i], lo, s[i].ptr, a);
    LookupConcat(s[..i], s[i..], a);
    assert s[..i] + s[i..] == s;
  }

  /** A chunk that is not empty reaches from one start to the next. */
  lemma Extent(s: seq<Chunk>, lo: int, hi: int, i: nat)
    requires Tiles(s, lo, hi) && i < |s| && s[i].size > 0
    ensures StartsAt(s, s[i].ptr) && (s[i].End() < hi ==> StartsAt(s, s[i].End()))
    ensures forall a :: s[i].ptr < a < s[i].End() ==> !StartsAt(s, a)
  {
    assert s[i] in s;
    forall c | c in s && c.size > 0 ensures !(s[i].ptr < c.ptr < s[i].End()) {
      var j :| 0 <= j < |s| && s[j] == c;
      if i < j {
        TilesOrdered(s, lo, hi, i, j);
      } else if j < i {
        TilesOrdered(s, lo, hi, j, i);
      }
    }
    TilesBounds(s, lo, hi, i);
    if s[i].End() < hi {
      var j := Holder(s, lo, hi, s[i].End());
      if j < i {
        TilesOrdered(s, lo, hi, j, i);
      } else if i < j {
        TilesOrdered(s, lo, hi, i, j);
      }
      assert s[j] in s;
    }
  }

  /** Meaning and starts decide the chunk at an address: two lists that agree in both show the same one. */
  lemma SameChunk(s: seq<Chunk>, t: seq<Chunk>, lo: int, hi: int, i: nat, j: nat, a: int)
    requires Same(s, t, lo, hi) && forall b :: StartsAt(s, b) <==> StartsAt(t, b)
    requires i < |s| && s[i].Contains(a) && j < |t| && t[j].Contains(a)
    ensures s[i] == t[j]
  {
    Extent(s, lo, hi, i);
    Extent(t, lo, hi, j);
    TilesBounds(s, lo, hi, i);
    TilesBounds(t, lo, hi, j);
    LookupAt(s, lo, hi, i, a);
    LookupAt(t, lo, hi, j, a);
    hide StartsAt, Lookup, Tiles;
    assert s[i].ptr == t[j].ptr && s[i].End() == t[j].End();
  }

  /** No chunk starts where the properties do not change, so that every chunk is as large as it can be. */
  ghost predicate Merged(s: seq<Chunk>, lo: int) {
    forall a :: a > lo && StartsAt(s, a) ==> Lookup(s, a - 1) != Lookup(s, a)
  }

  /** A seam is left at the start of the new chunk: it equals what is below, but lies inside the lower neighbour, or
      takes its place up to the end or beyond, or there is an empty chunk in between. */
  ghost predicate SeamBelow(s: seq<Chunk>, i: int, chunk: Chunk, lo: int)
    requires 0 <= i < |s|
  {
    && chunk.size > 0 && chunk.ptr > lo && Lookup(s, chunk.ptr - 1) == Some(chunk.info)
    && if s[i].ptr < chunk.ptr then s[i].End() > chunk.End()
       else s[i].End() <= chunk.End() || (i > 0 && s[i - 1].size == 0)
  }

  /** A seam is left at its end: it equals what is above, but lies inside the lower neighbour, or has joined that, or
      takes exactly its place. */
  ghost predicate SeamAbove(s: seq<Chunk>, i: int, chunk: Chunk, lo: int, hi: int)
    requires 0 <= i < |s|
  {
    && lo < chunk.End() < hi
    && Lookup(s, chunk.End()) == (if chunk.size > 0 then Some(chunk.info) else Lookup(s, chunk.End() - 1))
    && (s[i].End() > chunk.End() || s[i].info == chunk.info || (s[i].ptr == chunk.ptr && s[i].size == chunk.size))
  }

  lemma SeamsAre(s: seq<Chunk>, i: int, chunk: Chunk, lo: int, hi: int)
    requires Tiles(s, lo, hi) && chunk.size >= 0 && chunk.ptr >= lo && IsLower(s, i, chunk.ptr)
    ensures SeamBelow(s, i, chunk, lo) <==>
      && chunk.size > 0 && chunk.ptr > lo && Lookup(s, chunk.ptr - 1) == Some(chunk.info)
      && !JoinsBelow(s[..i], s[i], chunk)
    ensures SeamAbove(s, i, chunk, lo, hi) <==>
      && lo < chunk.End() < hi && !JoinsAbove(s[i], chunk, Lookup(s, chunk.End()))
      && Lookup(s, chunk.End()) == if chunk.size > 0 then Some(chunk.info) else Lookup(s, chunk.End() - 1)
  {
    TilesBounds(s, lo, hi, i);
    LookupDefined(s, lo, hi, chunk.ptr - 1);
    if s[i].Contains(chunk.ptr - 1) {
      LookupAt(s, lo, hi, i, chunk.ptr - 1);
    }
    if i > 0 && s[i - 1].Contains(chunk.ptr - 1) {
      LookupAt(s, lo, hi, i - 1, chunk.ptr - 1);
    }
    hide Lookup;
  }

  /** Insertions keep chunks as large as they can be exactly if they leave no seam.  They can: a chunk is joined to at
      most one neighbour, to none if it takes exactly the place of another chunk or lies inside one, and never to the
      one above if to the lower one. */
  lemma StaysMerged(s: seq<Chunk>, now: seq<Chunk>, i: int, chunk: Chunk, lo: int, hi: int)
    requires Tiles(s, lo, hi) && chunk.size >= 0 && chunk.ptr >= lo && IsLower(s, i, chunk.ptr) && Merged(s, lo)
    requires StartsAreAfter(s, chunk, hi, now) && forall a :: Lookup(now, a) == Updated(chunk, a, Lookup(s, a))
    ensures Merged(now, lo) <==> !SeamBelow(s, i, chunk, lo) && !SeamAbove(s, i, chunk, lo, hi)
  {
    SeamsAre(s, i, chunk, lo, hi);
    hide StartsAt, Lookup, Tiles, JoinsBelow, JoinsAbove, SeamBelow, SeamAbove;
    assert forall a :: StartsAt(now, a) <==> StartsAfter(s, i, chunk, hi, a);
    if SeamBelow(s, i, chunk, lo) {
      assert Lookup(now, chunk.ptr - 1) == Lookup(now, chunk.ptr);
      assert StartsAt(now, chunk.ptr);
    }
    if SeamAbove(s, i, chunk, lo, hi) {
      assert Lookup(now, chunk.End() - 1) == Lookup(now, chunk.End());
      assert StartsAt(now, chunk.End());
    }
    if !SeamBelow(s, i, chunk, lo) && !SeamAbove(s, i, chunk, lo, hi) {
      forall a | a > lo && StartsAt(now, a) ensures Lookup(now, a - 1) != Lookup(now, a) {
        assert StartsAfter(s, i, chunk, hi, a);
      }
    }
  }

  lemma {:induction false} Holder(s: seq<Chunk>, lo: int, hi: int, a: int) returns (i: nat)
    requires Tiles(s, lo, hi) && lo <= a < hi
    ensures i < |s| && s[i].Contains(a)
  {
    if s[0].Contains(a) {
      i := 0;
    } else {
      assert Tiles(s[1..], s[0].End(), hi);
      var j := Holder(s[1..], s[0].End(), hi, a);
      i := j + 1;
    }
  }

  lemma MergeBelow(left: seq<Chunk>, below: Chunk, chunk: Chunk, right: seq<Chunk>, lo: int, hi: int)
    requires Tiles(left + [below, chunk] + right, lo, hi) && below.info == chunk.info
    ensures below.End() == chunk.ptr
    ensures Same(left + [below, chunk] + right, left + [Chunk(below.ptr, below.size + chunk.size, below.info)] + right,
      lo, hi)
  {
    var all := left + [below, chunk] + right;
    assert all[|left|] == below && all[|left| + 1] == chunk;
    MergeSame(left, below, chunk, right, lo, hi);
  }

  /** Right after initialisation, an insertion at the bottom of the address space steps before the first element exactly
      when the chunk is smaller than the reserved one there. */
  method BottomInsert(spaceSize: int, base: int, baseSize: int, chunk: Chunk) returns (outcome: Outcome)
    requires 0 <= base && 0 <= baseSize && base + baseSize <= spaceSize && chunk.ptr == 0 && chunk.size >= 0
    ensures outcome == StepsBeforeBegin <==> chunk.size < base
    ensures outcome != OutsideAddressSpace
  {
    var m := new MemoryManager(spaceSize, base, baseSize);
    outcome := m.InsertChunk(chunk, 0, spaceSize);
  }
}
