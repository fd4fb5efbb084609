/** A ring over a fixed array whose two positions may rest one past its end, refining a FIFO sequence. */
module CircularBuffers {
  import opened Common

  /** What the ring holds, oldest first. */
  function Ring<T>(s: seq<T>, start: nat, end: nat, empty: bool): seq<T>
    requires start <= |s| && end <= |s|
  {
    if empty then [] else if start < end then s[start..end] else s[start..] + s[..end]
  }

  lemma SplicedTwice<T>(into: seq<T>, first: seq<T>, second: seq<T>)
    requires |first| + |second| <= |into|
    ensures Spliced(Spliced(into, 0, first), |first|, second) == first + second + into[|first| + |second|..]
    ensures second == [] ==> Spliced(into, 0, first) == first + second + into[|first| + |second|..]
  {
    var half := Spliced(into, 0, first);
    assert half[..|first|] == first;
    assert half[|first| + |second|..] == into[|first| + |second|..];
  }

  method Memcpy<T>(dst: array<T>, to: nat, src: array<T>, from: nat, n: nat)
    requires dst != src && to + n <= dst.Length && from + n <= src.Length
    modifies dst
    ensures dst[..] == Spliced(old(dst[..]), to, src[..][from..from + n])
  {
    forall i | 0 <= i < n {
      dst[to + i] := src[from + i];
    }
  }

  /** The positions after a read of a ring that is not marked empty describe the rest of its contents, unless
      nothing was asked of a full ring with equal positions. */
  lemma ReadRefines<T>(s: seq<T>, start: nat, end: nat, start': nat, sizeEnd: nat, sizeBegin: nat, request: nat)
    requires start <= |s| && end <= |s|
    requires sizeEnd == Min(if start < end then end - start else |s| - start, request)
    requires sizeBegin == if start < end then 0 else Min(end, request - sizeEnd)
    requires start' == if sizeBegin != 0 then sizeBegin else start + sizeEnd
    ensures sizeEnd + sizeBegin == Min(|Ring(s, start, end, false)|, request)
    ensures start + sizeEnd <= |s|
    ensures Ring(s, start, end, false)[..sizeEnd + sizeBegin] == s[start..start + sizeEnd] + s[..sizeBegin]
    ensures var rest := Ring(s, start, end, false)[sizeEnd + sizeBegin..];
      && (request == 0 && start == end && |s| > 0 ==> rest == Ring(s, start, end, false) != [])
      && (!(request == 0 && start == end && |s| > 0) ==> Ring(s, start', end, start' == end) == rest)
  {
    var rest := Ring(s, start, end, false)[sizeEnd + sizeBegin..];
    if start < end {
      assert rest == s[start'..end];
    } else if sizeBegin != 0 {
      assert rest == s[start'..end];
    } else {
      assert rest == s[start'..] + s[..end];
    }
  }

  /** A read returns and removes the longest prefix that fits, unless it is one that forgets everything. */
  ghost predicate IsRead<T>(was: seq<T>, now: seq<T>, into: seq<T>, out: seq<T>, size: nat, forgets: bool) {
    && size == Min(|was|, |into|) && out == was[..size] + into[size..]
    && if forgets then now == [] && was != [] else now == was[size..]
  }

  lemma ReadNothing<T>(into: seq<T>)
    ensures IsRead([], [], into, into, 0, false)
  {
  }

  /** What a read of a ring that is not marked empty leaves in the buffer and in the ring. */
  lemma ReadLeaves<T>(s: seq<T>, start: nat, end: nat, start': nat, sizeEnd: nat, sizeBegin: nat, into: seq<T>,
                      out: seq<T>)
    requires start <= |s| && end <= |s|
    requires sizeEnd == Min(if start < end then end - start else |s| - start, |into|)
    requires sizeBegin == if start < end then 0 else Min(end, |into| - sizeEnd)
    requires start' == if sizeBegin != 0 then sizeBegin else start + sizeEnd
    requires start + sizeEnd <= |s| && sizeEnd + sizeBegin <= |into|
    requires out == s[start..start + sizeEnd] + s[..sizeBegin] + into[sizeEnd + sizeBegin..]
    ensures start' <= |s|
    ensures start' == if start + (sizeEnd + sizeBegin) <= |s| then start + (sizeEnd + sizeBegin)
                      else start + (sizeEnd + sizeBegin) - |s|
    ensures IsRead(Ring(s, start, end, false), Ring(s, start', end, start' == end), into, out, sizeEnd + sizeBegin,
      |into| == 0 && start == end && |s| > 0)
  {
    ReadRefines(s, start, end, start', sizeEnd, sizeBegin, |into|);
    RingEmpty(s, start', end);
    hide Ring;
  }

  lemma RingEmpty<T>(s: seq<T>, start: nat, end: nat)
    requires start <= |s| && end <= |s|
    ensures Ring(s, start, end, true) == []
  {
  }

  lemma RingFull<T>(s: seq<T>, start: nat, end: nat, empty: bool)
    requires start <= |s| && end <= |s|
    ensures start == end && !empty ==> |Ring(s, start, end, empty)| == |s|
  {
  }

  /** Writing behind the end of a ring that does not wrap. */
  lemma AppendStraight<T>(s: seq<T>, start: nat, end: nat, empty: bool, chunk: seq<T>)
    requires start <= end && end + |chunk| <= |s| && chunk != [] && (start == end ==> empty) && (empty ==> start == end)
    ensures Ring(Spliced(s, end, chunk), start, end + |chunk|, false) == Ring(s, start, end, empty) + chunk
  {
  }

  /** Writing into the gap of a ring that wraps; both positions move from the end of the array to its front. */
  lemma AppendWrapped<T>(s: seq<T>, start: nat, end: nat, empty: bool, at: nat, chunk: seq<T>)
    requires start <= |s| && end <= |s| && (empty ==> start == end) && chunk != []
    requires end == |s| || start > end
    requires at == if end == |s| then 0 else end
    requires |Ring(s, start, end, empty)| + |chunk| <= |s|
    ensures at + |chunk| <= start <= |s|
    ensures var start' := if start == |s| then 0 else start;
      var end' := if at + |chunk| == |s| then 0 else at + |chunk|;
      Ring(Spliced(s, at, chunk), start', end', false) == Ring(s, start, end, empty) + chunk
  {
    hide Ring, Spliced;
    RingWraps(s, start, end, empty, at, |chunk|);
    SplicedParts(s, at, chunk, start);
    RingAround(Spliced(s, at, chunk), start, at + |chunk|);
    assert s[start..] + (s[..at] + chunk) == s[start..] + s[..at] + chunk;
  }

  /** With room left, a ring that wraps or ends with the array is what follows its start and precedes its end. */
  lemma RingWraps<T>(s: seq<T>, start: nat, end: nat, empty: bool, at: nat, room: nat)
    requires start <= |s| && end <= |s| && (empty ==> start == end) && room > 0
    requires (end == |s| && at == 0) || (start > end && at == end)
    requires |Ring(s, start, end, empty)| + room <= |s|
    ensures at + room <= start && Ring(s, start, end, empty) == s[start..] + s[..at]
  {
    if start == end {
      RingFull(s, start, end, empty);
    }
  }

  lemma RingAround<T>(s: seq<T>, start: nat, end: nat)
    requires 0 < end <= start <= |s|
    ensures var start' := if start == |s| then 0 else start;
      var end' := if end == |s| then 0 else end;
      Ring(s, start', end', false) == s[start..] + s[..end]
  {
  }

  lemma SplicedParts<T>(s: seq<T>, at: nat, chunk: seq<T>, from: nat)
    requires at + |chunk| <= from <= |s|
    ensures Spliced(s, at, chunk)[from..] == s[from..]
    ensures Spliced(s, at, chunk)[..at + |chunk|] == s[..at] + chunk
  {
  }

  /** A position at the end of the array is moved to its front. */
  function Wrap(position: nat, length: nat): nat {
    if position == length then 0 else position
  }

  /** Where a ring starts and ends after an append that it has room for. */
  function AfterAppend(start: nat, end: nat, length: nat, size: nat): (nat, nat) {
    if size == 0 then (start, end)
    else if start <= end < length then (start, if end + size <= length then end + size else end + size - length)
    else (Wrap(start, length), Wrap(Wrap(end, length) + size, length))
  }

  lemma AfterNothing(start: nat, end: nat, length: nat)
    ensures AfterAppend(start, end, length, 0) == (start, end)
  {
  }

  class CircularBuffer<T(0)> {
    const data: array<T>
    var start: nat
    var end: nat
    var empty: bool

    ghost predicate Valid()
      reads this
    {
      start <= data.Length && end <= data.Length && (empty ==> start == end)
    }

    ghost function Contents(): seq<T>
      requires Valid()
      reads this, data
    {
      Ring(data[..], start, end, empty)
    }

    constructor (size: nat)
      ensures Valid() && fresh(data) && data.Length == size && Contents() == [] && start == end == 0
    {
      data := new T[size];
      start, end, empty := 0, 0, true;
    }

    /** The one state in which a read of nothing is not a no-op: full with both positions equal. */
    ghost predicate LosesOn(request: nat)
      reads this
    {
      request == 0 && start == end && !empty && data.Length > 0
    }

    /** Removes and returns the longest prefix that fits, except that an empty request against a ring that is
        full with equal positions forgets everything. */
    method Read(buffer: array<T>) returns (size: nat)
      requires Valid() && buffer != data
      modifies this, buffer
      ensures Valid() && data[..] == old(data[..]) && end == old(end)
      ensures start == if old(start) + size <= data.Length then old(start) + size else old(start) + size - data.Length
      ensures IsRead(old(Contents()), Contents(), old(buffer[..]), buffer[..], size, old(LosesOn(buffer.Length)))
    {
      hide Ring, IsRead;
      if empty {
        RingEmpty(data[..], start, end);
        ReadNothing(buffer[..]);
        return 0;
      }
      size := ReadSome(buffer);
    }

    method ReadSome(buffer: array<T>) returns (size: nat)
      requires Valid() && buffer != data && !empty
      modifies this, buffer
      ensures Valid() && data[..] == old(data[..]) && end == old(end)
      ensures start == if old(start) + size <= data.Length then old(start) + size else old(start) + size - data.Length
      ensures IsRead(old(Contents()), Contents(), old(buffer[..]), buffer[..], size, old(LosesOn(buffer.Length)))
    {
      hide Ring, IsRead, Min;
      var sizeEnd, sizeBegin := Sizes(buffer.Length);
      size := sizeBegin + sizeEnd;
      var next := if sizeBegin != 0 then sizeBegin else start + sizeEnd;
      ghost var s, into := data[..], buffer[..];
      CopyOut(buffer, sizeEnd, sizeBegin);
      assert data[..] == s;
      ReadLeaves(s, start, end, next, sizeEnd, sizeBegin, into, buffer[..]);
      start := next;
      if start == end {
        empty := true;
      }
    }

    /** How much of the part up to the end of the array and of the part at its front a read takes. */
    method Sizes(request: nat) returns (sizeEnd: nat, sizeBegin: nat)
      requires Valid()
      ensures sizeEnd == Min(if start < end then end - start else data.Length - start, request)
      ensures sizeBegin == if start < end then 0 else Min(end, request - sizeEnd)
      ensures start + sizeEnd <= data.Length && sizeBegin <= data.Length && sizeEnd + sizeBegin <= request
    {
      sizeEnd, sizeBegin := 0, 0;
      if start < end {
        sizeEnd := Min(end - start, request);
      } else {
        sizeEnd := Min(data.Length - start, request);
        sizeBegin := Min(end, request - sizeEnd);
      }
    }

    method CopyOut(buffer: array<T>, sizeEnd: nat, sizeBegin: nat)
      requires buffer != data && sizeEnd + sizeBegin <= buffer.Length
      requires start + sizeEnd <= data.Length && sizeBegin <= data.Length
      modifies buffer
      ensures buffer[..] == data[..][start..start + sizeEnd] + data[..][..sizeBegin] +
        old(buffer[..])[sizeEnd + sizeBegin..]
    {
      hide Spliced;
      ghost var s, into := data[..], buffer[..];
      ghost var first, second := s[start..start + sizeEnd], s[0..sizeBegin];
      SplicedTwice(into, first, second);
      Memcpy(buffer, 0, data, start, sizeEnd);
      assert data[..] == s && buffer[..] == Spliced(into, 0, first);
      if sizeBegin != 0 {
        Memcpy(buffer, sizeEnd, data, 0, sizeBegin);
        assert buffer[..] == Spliced(Spliced(into, 0, first), |first|, second);
      }
      assert data[..] == s && s[..sizeBegin] == second;
    }

    /** While the ring has room, appending concatenates. */
    method Append(buffer: array<T>)
      requires Valid() && buffer != data
      requires |Contents()| + buffer.Length <= data.Length
      modifies this, data
      ensures Valid() && Contents() == old(Contents()) + buffer[..]
      ensures (start, end) == AfterAppend(old(start), old(end), data.Length, buffer.Length)
    {
      hide Ring, AfterAppend;
      var pointer, size := 0, buffer.Length;
      while size != 0
        invariant 0 <= pointer && 0 <= size && pointer + size == buffer.Length
        invariant Valid() && Contents() == old(Contents()) + buffer[..pointer]
        invariant AfterAppend(start, end, data.Length, size) ==
          AfterAppend(old(start), old(end), data.Length, buffer.Length)
      {
        if start <= end && end != data.Length {
          var sizeEnd := AppendTail(buffer, pointer, size);
          assert buffer[..pointer] + buffer[..][pointer..pointer + sizeEnd] == buffer[..pointer + sizeEnd];
          pointer, size := pointer + sizeEnd, size - sizeEnd;
        } else {
          var written := AppendAround(buffer, pointer, size);
          assert buffer[..pointer] + buffer[..][pointer..pointer + written] == buffer[..pointer + written];
          pointer, size := pointer + written, size - written;
          AfterNothing(start, end, data.Length);
        }
        empty := false;
      }
      assert buffer[..pointer] == buffer[..];
      AfterNothing(start, end, data.Length);
    }

    /** One pass of the loop behind the end of the ring. */
    method AppendTail(buffer: array<T>, pointer: nat, size: nat) returns (sizeEnd: nat)
      requires Valid() && buffer != data && size > 0 && pointer + size <= buffer.Length
      requires start <= end && end != data.Length && |Contents()| + size <= data.Length
      modifies this`end, data
      ensures 0 < sizeEnd <= size && end <= data.Length && (sizeEnd < size ==> end == data.Length)
      ensures AfterAppend(start, end, data.Length, size - sizeEnd) ==
        AfterAppend(start, old(end), data.Length, size)
      ensures Ring(data[..], start, end, false) == old(Contents()) + buffer[..][pointer..pointer + sizeEnd]
    {
      sizeEnd := Min(data.Length - end, size);
      hide Ring, Spliced;
      RingFull(data[..], start, end, empty);
      AppendStraight(data[..], start, end, empty, buffer[..][pointer..pointer + sizeEnd]);
      Memcpy(data, end, buffer, pointer, sizeEnd);
      end := end + sizeEnd;
    }

    /** One pass of the loop in the gap in front of the start; past the start it would drop the oldest elements. */
    method AppendAround(buffer: array<T>, pointer: nat, size: nat) returns (written: nat)
      requires Valid() && buffer != data && size > 0 && pointer + size <= buffer.Length
      requires !(start <= end && end != data.Length) && |Contents()| + size <= data.Length
      modifies this`start, this`end, data
      ensures written == size && start <= data.Length && end <= data.Length
      ensures (start, end) == AfterAppend(old(start), old(end), data.Length, size)
      ensures Ring(data[..], start, end, false) == old(Contents()) + buffer[..][pointer..pointer + written]
    {
      hide Ring, Spliced;
      ghost var at := if end == data.Length then 0 else end;
      AppendWrapped(data[..], start, end, empty, at, buffer[..][pointer..pointer + size]);
      var sizePreStart := if end == data.Length then Min(start, size) else Min(start - end, size);
      var sizePostStart := Min(data.Length - start, size - sizePreStart);
      assert sizePreStart == size && sizePostStart == 0; // so the second copy of this pass has nothing to do
      Memcpy(data, if end == data.Length then 0 else end, buffer, pointer, sizePreStart);
      end := if end == data.Length then sizePreStart else end + sizePreStart;
      start := if start == data.Length then sizePostStart else start + sizePostStart;
      end := if end == data.Length then sizePostStart else end + sizePostStart;
      written := sizePreStart + sizePostStart;
    }
  }

  /** A ring filled after it has been emptied is full with equal positions, and a read of nothing then forgets all that
      it holds. */
  method EmptyReadForgets<T(0)>(buffer: array<T>) returns (ring: CircularBuffer<T>, ghost before: seq<T>)
    requires buffer.Length > 0
    modifies buffer
    ensures ring.Valid() && before == buffer[..] && ring.Contents() == []
  {
    hide Ring;
    ring := new CircularBuffer(buffer.Length);
    ring.Append(buffer);
    var size := ring.Read(buffer);
    ring.Append(buffer);
    before := ring.Contents();
    RingEmpty(ring.data[..], ring.start, ring.end);
    var none := new T[0];
    size := ring.Read(none);
  }
}
