/** Page arithmetic and half-open address intervals, shared by every component that works on guest memory. */
module Paging {

  const PageSize: int := 4096

  predicate IsAligned(x: int) { x % PageSize == 0 }

  function AlignDown(x: int): (r: int)
    ensures IsAligned(r) && r <= x < r + PageSize
  {
    x / PageSize * PageSize
  }

  function AlignUp(x: int): (r: int)
    ensures IsAligned(r) && x <= r < x + PageSize
  {
    (x + (PageSize - 1)) / PageSize * PageSize
  }

  datatype Interval = Interval(start: int, end: int) {

    predicate NonEmpty() { start < end }

    predicate Contains(a: int) { start <= a < end }

    /** The two half-open intervals share an address, provided both are non-empty. */
    predicate Overlaps(other: Interval) { start < other.end && end > other.start }

    predicate Aligned() { IsAligned(start) && IsAligned(end) }

    function Align(): (r: Interval)
      ensures r.Aligned() && r.start <= start && end <= r.end
      ensures NonEmpty() ==> r.NonEmpty()
    {
      Interval(AlignDown(start), AlignUp(end))
    }
  }

  /** The interval occupied by page number p. */
  function Page(p: int): (r: Interval)
    ensures r.NonEmpty() && r.Aligned()
  {
    Interval(p * PageSize, (p + 1) * PageSize)
  }

  /** Some member of the list contains address a. */
  predicate Covered(list: seq<Interval>, a: int) {
    exists i :: 0 <= i < |list| && list[i].Contains(a)
  }

  /** An aligned interval that shares an address with a page contains the whole page. */
  lemma AlignedHoldsPage(iv: Interval, p: int)
    requires iv.Aligned() && iv.Overlaps(Page(p))
    ensures iv.start <= Page(p).start && Page(p).end <= iv.end
  {
  }

  /** Alignment keeps overlap with anything that is itself page aligned. */
  lemma AlignKeepsAlignedOverlap(iv: Interval, aligned: Interval)
    requires aligned.Aligned()
    ensures iv.Align().Overlaps(aligned) <==> iv.Overlaps(aligned)
  {
  }

  lemma AlignedStays(iv: Interval)
    requires iv.Aligned()
    ensures iv.Align() == iv
  {
  }
}
