/** Splitting a put or get between two segmented buffers into fragments, each of which lies inside one
    source segment and one destination segment.  The specification is a flat copy of bytes. */
module SegmentSplit {
  import opened Common

  /** A position in a segmented buffer: segment, offset into it, and bytes left in it. */
  datatype Cursor = Cursor(index: nat, offset: nat, remaining: nat)

  /** Whatever the code reads one element beyond its source and destination lists; never used. */
  datatype Past = Past(src: nat, dst: nat)

  datatype Fragment = Fragment(srcSeg: nat, srcOff: nat, dstSeg: nat, dstOff: nat, length: nat)

  /** The number of bytes in the segments before segment `i`. */
  function Before(sizes: seq<nat>, i: nat): nat
    requires i <= |sizes|
  {
    if i == 0 then 0 else Before(sizes, i - 1) + sizes[i - 1]
  }

  function Total(sizes: seq<nat>): nat {
    Before(sizes, |sizes|)
  }

  lemma {:induction false} BeforeGrows(sizes: seq<nat>, i: nat, j: nat)
    requires i <= j <= |sizes|
    ensures Before(sizes, i) <= Before(sizes, j)
    ensures i < j ==> Before(sizes, i) + sizes[i] <= Before(sizes, j)
    decreases j - i
  {
    if i < j {
      BeforeGrows(sizes, i, j - 1);
    }
  }

  // ----- finding the ends of the transfer -----

  /** The segment of flat position `offset`, searched from segment `i` on; a position between two
      segments belongs to the earlier one.  Past the end the search leaves its initial cursor. */
  function Locate(sizes: seq<nat>, i: nat, offset: nat): Cursor
    requires i <= |sizes|
    decreases |sizes| - i
  {
    if i == |sizes| then Cursor(0, offset, 0)
    else if offset > sizes[i] then Locate(sizes, i + 1, offset - sizes[i])
    else Cursor(i, offset, sizes[i] - offset)
  }

  /** The segment, from `i` on, in which `remaining` bytes counted from the start of segment `i` run
      out; none if the buffer is too short. */
  function LastSegment(sizes: seq<nat>, i: nat, remaining: nat): Option<nat>
    requires i <= |sizes|
    decreases |sizes| - i
  {
    if i == |sizes| then None
    else if remaining > sizes[i] then LastSegment(sizes, i + 1, remaining - sizes[i])
    else Some(i)
  }

  /** A cursor standing in a segment, or just past the last one with `past` as its bytes left. */
  predicate At(sizes: seq<nat>, c: Cursor, past: nat) {
    && c.index <= |sizes|
    && (c.index < |sizes| ==> c.offset <= sizes[c.index] && c.remaining == sizes[c.index] - c.offset)
    && (c.index == |sizes| ==> c.offset == 0 && c.remaining == past)
  }

  function Pos(sizes: seq<nat>, c: Cursor): nat
    requires c.index <= |sizes|
  {
    Before(sizes, c.index) + c.offset
  }

  lemma {:induction false} LocateFinds(sizes: seq<nat>, i: nat, offset: nat)
    requires i < |sizes| && Before(sizes, i) + offset <= Total(sizes)
    ensures var c := Locate(sizes, i, offset);
      && i <= c.index < |sizes| && c.offset <= sizes[c.index] && c.remaining == sizes[c.index] - c.offset
      && Pos(sizes, c) == Before(sizes, i) + offset
      && (c.index > i ==> c.offset > 0)
    decreases |sizes| - i
  {
    if offset > sizes[i] {
      assert Before(sizes, i + 1) == Before(sizes, i) + sizes[i];
      LocateFinds(sizes, i + 1, offset - sizes[i]);
    }
  }

  lemma {:induction false} LastSegmentFinds(sizes: seq<nat>, i: nat, remaining: nat)
    requires i < |sizes| && Before(sizes, i) + remaining <= Total(sizes)
    ensures LastSegment(sizes, i, remaining).Some?
    ensures var l := LastSegment(sizes, i, remaining).value;
      && i <= l < |sizes|
      && Before(sizes, i) + remaining <= Before(sizes, l + 1)
      && (l > i ==> Before(sizes, l) < Before(sizes, i) + remaining && sizes[l] > 0)
    decreases |sizes| - i
  {
    assert Before(sizes, i + 1) == Before(sizes, i) + sizes[i];
    if remaining > sizes[i] {
      LastSegmentFinds(sizes, i + 1, remaining - sizes[i]);
      var l := LastSegment(sizes, i, remaining).value;
      BeforeGrows(sizes, i + 1, l);
    }
  }

  /** Past the end of the buffer the search for an offset leaves what is over in its initial cursor. */
  lemma {:induction false} LocatePastEnd(sizes: seq<nat>, i: nat, offset: nat)
    requires i <= |sizes| && Before(sizes, i) + offset > Total(sizes)
    ensures Locate(sizes, i, offset) == Cursor(0, Before(sizes, i) + offset - Total(sizes), 0)
    decreases |sizes| - i
  {
    if i < |sizes| {
      assert Before(sizes, i + 1) == Before(sizes, i) + sizes[i];
      BeforeGrows(sizes, i + 1, |sizes|);
      LocatePastEnd(sizes, i + 1, offset - sizes[i]);
    }
  }

  /** There is no last segment exactly if the buffer is too short. */
  lemma {:induction false} LastSegmentIff(sizes: seq<nat>, i: nat, remaining: nat)
    requires i < |sizes|
    ensures LastSegment(sizes, i, remaining).Some? <==> Before(sizes, i) + remaining <= Total(sizes)
    decreases |sizes| - i
  {
    if Before(sizes, i) + remaining <= Total(sizes) {
      LastSegmentFinds(sizes, i, remaining);
    } else {
      assert Before(sizes, i + 1) == Before(sizes, i) + sizes[i];
      BeforeGrows(sizes, i + 1, |sizes|);
      if i + 1 < |sizes| {
        LastSegmentIff(sizes, i + 1, remaining - sizes[i]);
      }
    }
  }

  // ----- the walk over both segment lists -----

  function SizeAt(sizes: seq<nat>, i: nat, past: nat): nat {
    if i < |sizes| then sizes[i] else past
  }

  function NextSegment(sizes: seq<nat>, c: Cursor, past: nat): Cursor {
    Cursor(c.index + 1, 0, SizeAt(sizes, c.index + 1, past))
  }

  function Within(c: Cursor, n: nat): Cursor
    requires n <= c.remaining
  {
    Cursor(c.index, c.offset + n, c.remaining - n)
  }

  /** One round of the code's three-way branch on the bytes left in the two current segments. */
  function Advance(ss: seq<nat>, ds: seq<nat>, s: Cursor, d: Cursor, past: Past): (Cursor, Cursor) {
    if s.remaining < d.remaining then (NextSegment(ss, s, past.src), Within(d, s.remaining))
    else if s.remaining == d.remaining then (NextSegment(ss, s, past.src), NextSegment(ds, d, past.dst))
    else (Within(s, d.remaining), NextSegment(ds, d, past.dst))
  }

  function FragmentAt(s: Cursor, d: Cursor): Fragment {
    Fragment(s.index, s.offset, d.index, d.offset, if s.remaining <= d.remaining then s.remaining else d.remaining)
  }

  /** The walk can go on: the source cursor has not passed `last`, and what is left of the source up
      to the end of `last` fits into what is left of the destination. */
  predicate Ready(ss: seq<nat>, ds: seq<nat>, s: Cursor, d: Cursor, last: nat, past: Past) {
    && At(ss, s, past.src) && At(ds, d, past.dst)
    && last < |ss| && s.index <= last + 1
    && (s.index < last ==> ss[last] > 0)
    && (s.index <= last ==>
          d.index < |ds| && Before(ss, last + 1) - Pos(ss, s) <= Total(ds) - Pos(ds, d))
  }

  function Steps(ds: seq<nat>, s: Cursor, d: Cursor, last: nat): int {
    (last + 1 - s.index) + (|ds| - d.index)
  }

  lemma AdvanceStaysReady(ss: seq<nat>, ds: seq<nat>, s: Cursor, d: Cursor, last: nat, past: Past)
    requires Ready(ss, ds, s, d, last, past) && s.index <= last
    ensures var (s', d') := Advance(ss, ds, s, d, past);
      && Ready(ss, ds, s', d', last, past)
      && 0 <= Steps(ds, s', d', last) < Steps(ds, s, d, last)
      && Pos(ss, s') == Pos(ss, s) + FragmentAt(s, d).length
      && Pos(ds, d') == Pos(ds, d) + FragmentAt(s, d).length
      && (s'.index == s.index + 1 <==> s.remaining <= d.remaining)
      && (d'.index == d.index + 1 <==> d.remaining <= s.remaining)
  {
    var (s', d') := Advance(ss, ds, s, d, past);
    assert Before(ss, s.index + 1) == Before(ss, s.index) + ss[s.index];
    assert Before(ds, d.index + 1) == Before(ds, d.index) + ds[d.index];
    BeforeGrows(ss, s'.index, last + 1);
    if s'.index <= last {
      BeforeGrows(ss, s'.index, last);
    }
  }

  /** The fragments that the emitting loop produces. */
  function Walk(ss: seq<nat>, ds: seq<nat>, s: Cursor, d: Cursor, last: nat, past: Past): seq<Fragment>
    requires Ready(ss, ds, s, d, last, past)
    decreases Steps(ds, s, d, last)
  {
    if s.index > last then []
    else
      AdvanceStaysReady(ss, ds, s, d, last, past);
      var (s', d') := Advance(ss, ds, s, d, past);
      [FragmentAt(s, d)] + Walk(ss, ds, s', d', last, past)
  }

  /** At most one fragment per source segment used and per destination segment left, less one. */
  lemma {:induction false} WalkLength(ss: seq<nat>, ds: seq<nat>, s: Cursor, d: Cursor, last: nat, past: Past)
    requires Ready(ss, ds, s, d, last, past) && s.index <= last
    ensures 1 <= |Walk(ss, ds, s, d, last, past)| <= (last - s.index + 1) + (|ds| - d.index) - 1
    decreases Steps(ds, s, d, last)
  {
    AdvanceStaysReady(ss, ds, s, d, last, past);
    var (s', d') := Advance(ss, ds, s, d, past);
    if s'.index <= last {
      WalkLength(ss, ds, s', d', last, past);
    }
  }

  // ----- consecutive fragments -----

  predicate Inside(ss: seq<nat>, ds: seq<nat>, f: Fragment) {
    && f.srcSeg < |ss| && f.srcOff + f.length <= ss[f.srcSeg]
    && f.dstSeg < |ds| && f.dstOff + f.length <= ds[f.dstSeg]
  }

  function SrcFlat(ss: seq<nat>, f: Fragment): nat
    requires f.srcSeg < |ss|
  {
    Before(ss, f.srcSeg) + f.srcOff
  }

  function DstFlat(ds: seq<nat>, f: Fragment): nat
    requires f.dstSeg < |ds|
  {
    Before(ds, f.dstSeg) + f.dstOff
  }

  /** The fragments cover the flat source range from `a` to `end`, and a flat destination range from
      `b` on, in order, with neither gap nor overlap. */
  predicate Chain(ss: seq<nat>, ds: seq<nat>, fs: seq<Fragment>, a: nat, b: nat, end: nat) {
    if fs == [] then a == end
    else
      && Inside(ss, ds, fs[0]) && SrcFlat(ss, fs[0]) == a && DstFlat(ds, fs[0]) == b
      && Chain(ss, ds, fs[1..], a + fs[0].length, b + fs[0].length, end)
  }

  lemma {:induction false} WalkIsChain(ss: seq<nat>, ds: seq<nat>, s: Cursor, d: Cursor, last: nat, past: Past)
    requires Ready(ss, ds, s, d, last, past)
    requires s.index == last + 1 ==> s.offset == 0
    ensures Chain(ss, ds, Walk(ss, ds, s, d, last, past), Pos(ss, s), Pos(ds, d), Before(ss, last + 1))
    decreases Steps(ds, s, d, last)
  {
    if s.index <= last {
      AdvanceStaysReady(ss, ds, s, d, last, past);
      var (s', d') := Advance(ss, ds, s, d, past);
      WalkIsChain(ss, ds, s', d', last, past);
      assert Walk(ss, ds, s, d, last, past)[1..] == Walk(ss, ds, s', d', last, past);
    }
  }

  // ----- one fragment for every end of a segment -----

  predicate AllPositive(sizes: seq<nat>) {
    forall i | 0 <= i < |sizes| :: sizes[i] > 0
  }

  /** A segment ends at flat position `p`. */
  predicate EndsAt(sizes: seq<nat>, p: int) {
    exists i :: 0 < i <= |sizes| && Before(sizes, i) == p
  }

  /** The flat source positions behind `a` and up to `end` at which a segment of the source or, `shift` positions
      further on, of the destination ends. */
  function EndsBehind(ss: seq<nat>, ds: seq<nat>, a: int, end: int, shift: int): set<int> {
    set p | a < p <= end && (EndsAt(ss, p) || EndsAt(ds, p + shift))
  }

  /** The same, with an end at `a` itself. */
  function EndsFrom(ss: seq<nat>, ds: seq<nat>, a: int, end: int, shift: int): set<int> {
    set p | a <= p <= end && (EndsAt(ss, p) || EndsAt(ds, p + shift))
  }

  /** Between a position in a segment and that segment's end no segment ends. */
  lemma NoEndInside(sizes: seq<nat>, i: nat, p: int)
    requires i < |sizes| && Before(sizes, i) < p
    ensures p < Before(sizes, i + 1) ==> !EndsAt(sizes, p)
    ensures p == Before(sizes, i + 1) ==> EndsAt(sizes, p)
    ensures Before(sizes, i + 1) == Before(sizes, i) + sizes[i]
  {
    forall j | 0 < j <= |sizes|
      ensures Before(sizes, j) <= Before(sizes, i) || Before(sizes, j) >= Before(sizes, i + 1)
    {
      if j <= i {
        BeforeGrows(sizes, j, i);
      } else {
        BeforeGrows(sizes, i + 1, j);
      }
    }
  }

  /** In a walk with bytes left on both sides the first end behind the source cursor is that of the fragment. */
  lemma FirstEnd(ss: seq<nat>, ds: seq<nat>, s: Cursor, d: Cursor, end: int, p: int)
    requires s.index < |ss| && s.offset + s.remaining == ss[s.index]
    requires d.index < |ds| && d.offset + d.remaining == ds[d.index]
    requires Pos(ss, s) < p <= Pos(ss, s) + FragmentAt(s, d).length
    ensures EndsAt(ss, p) || EndsAt(ds, p + Pos(ds, d) - Pos(ss, s)) <==> p == Pos(ss, s) + FragmentAt(s, d).length
  {
    NoEndInside(ss, s.index, p);
    NoEndInside(ds, d.index, p + Pos(ds, d) - Pos(ss, s));
  }

  predicate BytesLeft(s: Cursor, d: Cursor) {
    s.remaining > 0 && d.remaining > 0
  }

  lemma AdvanceLeavesBytes(ss: seq<nat>, ds: seq<nat>, s: Cursor, d: Cursor, last: nat, past: Past)
    requires Ready(ss, ds, s, d, last, past) && s.index <= last && AllPositive(ss) && AllPositive(ds)
    ensures var (s', d') := Advance(ss, ds, s, d, past);
      s'.index <= last ==> BytesLeft(s', d')
  {
    AdvanceStaysReady(ss, ds, s, d, last, past);
  }

  lemma OneEndLess(ss: seq<nat>, ds: seq<nat>, a: int, m: int, end: int, shift: int)
    requires a < m <= end
    requires forall p | a < p <= m :: EndsAt(ss, p) || EndsAt(ds, p + shift) <==> p == m
    ensures EndsBehind(ss, ds, a, end, shift) == {m} + EndsBehind(ss, ds, m, end, shift)
    ensures |EndsBehind(ss, ds, a, end, shift)| == 1 + |EndsBehind(ss, ds, m, end, shift)|
  {
    var after, rest := EndsBehind(ss, ds, a, end, shift), EndsBehind(ss, ds, m, end, shift);
    assert m in after by {
      assert EndsAt(ss, m) || EndsAt(ds, m + shift);
    }
    assert after == {m} + rest;
    assert m !in rest;
  }

  /** The ends that a walk still has to meet. */
  function EndsAhead(ss: seq<nat>, ds: seq<nat>, s: Cursor, d: Cursor, last: nat): set<int>
    requires s.index <= |ss| && d.index <= |ds| && last < |ss|
  {
    EndsBehind(ss, ds, Pos(ss, s), Before(ss, last + 1), Pos(ds, d) - Pos(ss, s))
  }

  lemma FragmentMeetsOneEnd(ss: seq<nat>, ds: seq<nat>, s: Cursor, d: Cursor, last: nat, past: Past)
    requires Ready(ss, ds, s, d, last, past) && s.index <= last && BytesLeft(s, d)
    ensures var (s', d') := Advance(ss, ds, s, d, past);
      && s'.index <= |ss| && d'.index <= |ds|
      && |EndsAhead(ss, ds, s, d, last)| == 1 + |EndsAhead(ss, ds, s', d', last)|
  {
    var a, end, shift := Pos(ss, s), Before(ss, last + 1), Pos(ds, d) - Pos(ss, s);
    AdvanceStaysReady(ss, ds, s, d, last, past);
    FragmentEndsInRange(ss, s, d, last);
    var m := a + FragmentAt(s, d).length;
    forall p | a < p <= m
      ensures EndsAt(ss, p) || EndsAt(ds, p + shift) <==> p == m
    {
      FirstEnd(ss, ds, s, d, end, p);
    }
    OneEndLess(ss, ds, a, m, end, shift);
  }

  lemma WalkStep(ss: seq<nat>, ds: seq<nat>, s: Cursor, d: Cursor, last: nat, past: Past)
    requires Ready(ss, ds, s, d, last, past) && s.index <= last
    ensures var (s', d') := Advance(ss, ds, s, d, past);
      && Ready(ss, ds, s', d', last, past) && 0 <= Steps(ds, s', d', last) < Steps(ds, s, d, last)
      && (s'.index == last + 1 ==> s'.offset == 0)
      && Walk(ss, ds, s, d, last, past) == [FragmentAt(s, d)] + Walk(ss, ds, s', d', last, past)
  {
    AdvanceStaysReady(ss, ds, s, d, last, past);
  }

  predicate NoneEmpty(fs: seq<Fragment>) {
    forall k | 0 <= k < |fs| :: fs[k].length > 0
  }

  /** A walk with bytes left on both sides emits one fragment for every end of a segment, and none is empty. */
  lemma {:induction false} WalkMeetsEnds(ss: seq<nat>, ds: seq<nat>, s: Cursor, d: Cursor, last: nat, past: Past)
    requires Ready(ss, ds, s, d, last, past) && AllPositive(ss) && AllPositive(ds)
    requires if s.index <= last then BytesLeft(s, d) else s.offset == 0
    ensures |Walk(ss, ds, s, d, last, past)| == |EndsAhead(ss, ds, s, d, last)|
    ensures NoneEmpty(Walk(ss, ds, s, d, last, past))
    decreases Steps(ds, s, d, last)
  {
    if s.index > last {
      assert EndsAhead(ss, ds, s, d, last) == {};
    } else {
      WalkStep(ss, ds, s, d, last, past);
      AdvanceLeavesBytes(ss, ds, s, d, last, past);
      FragmentMeetsOneEnd(ss, ds, s, d, last, past);
      var (s', d') := Advance(ss, ds, s, d, past);
      WalkMeetsEnds(ss, ds, s', d', last, past);
    }
  }

  lemma FragmentEndsInRange(ss: seq<nat>, s: Cursor, d: Cursor, last: nat)
    requires s.index <= last < |ss| && s.offset + s.remaining == ss[s.index]
    ensures Pos(ss, s) + FragmentAt(s, d).length <= Before(ss, last + 1)
  {
    assert Before(ss, s.index + 1) == Before(ss, s.index) + ss[s.index];
    BeforeGrows(ss, s.index + 1, last + 1);
  }

  /** A cursor as the search leaves it: at a position between two segments, in the earlier one. */
  predicate Located(sizes: seq<nat>, c: Cursor) {
    c.index < |sizes| && c.offset + c.remaining == sizes[c.index] && (c.index > 0 ==> c.offset > 0)
  }

  lemma AtAnEndIff(sizes: seq<nat>, c: Cursor)
    requires Located(sizes, c) && AllPositive(sizes)
    ensures EndsAt(sizes, Pos(sizes, c)) <==> c.remaining == 0
  {
    if c.offset > 0 {
      NoEndInside(sizes, c.index, Pos(sizes, c));
    } else {
      forall i | 0 < i <= |sizes|
        ensures Before(sizes, i) > 0
      {
        BeforeGrows(sizes, 0, i);
      }
    }
  }

  lemma EndAtStart(ss: seq<nat>, ds: seq<nat>, a: int, end: int, shift: int)
    requires a <= end
    ensures var here := EndsAt(ss, a) || EndsAt(ds, a + shift);
      |EndsFrom(ss, ds, a, end, shift)| == |EndsBehind(ss, ds, a, end, shift)| + if here then 1 else 0
  {
    var all, rest := EndsFrom(ss, ds, a, end, shift), EndsBehind(ss, ds, a, end, shift);
    if EndsAt(ss, a) || EndsAt(ds, a + shift) {
      assert all == {a} + rest && a !in rest;
    } else {
      assert all == rest;
    }
  }

  /** From the cursors that the searches find, the fragments are as many as the ends of segments in the range moved,
      one at its beginning included; that one, and no other, makes an empty fragment. */
  lemma WalkMeetsAllEnds(ss: seq<nat>, ds: seq<nat>, s: Cursor, d: Cursor, last: nat, past: Past)
    requires Ready(ss, ds, s, d, last, past) && s.index <= last && AllPositive(ss) && AllPositive(ds)
    requires Located(ss, s) && Located(ds, d)
    ensures var walk, a, b := Walk(ss, ds, s, d, last, past), Pos(ss, s), Pos(ds, d);
      && |walk| == |EndsFrom(ss, ds, a, Before(ss, last + 1), b - a)|
      && forall k | 0 <= k < |walk| :: walk[k].length == 0 <==> k == 0 && (EndsAt(ss, a) || EndsAt(ds, b))
  {
    var a, end, shift := Pos(ss, s), Before(ss, last + 1), Pos(ds, d) - Pos(ss, s);
    AtAnEndIff(ss, s);
    AtAnEndIff(ds, d);
    FragmentEndsInRange(ss, s, d, last);
    EndAtStart(ss, ds, a, end, shift);
    if BytesLeft(s, d) {
      WalkMeetsEnds(ss, ds, s, d, last, past);
    } else {
      AdvanceStaysReady(ss, ds, s, d, last, past);
      WalkStep(ss, ds, s, d, last, past);
      AdvanceLeavesBytes(ss, ds, s, d, last, past);
      var (s', d') := Advance(ss, ds, s, d, past);
      WalkMeetsEnds(ss, ds, s', d', last, past);
    }
  }

  // ----- the loops -----

  /** Where a flat offset falls. */
  method FindSegment(sizes: seq<nat>, offset: nat) returns (c: Cursor)
    ensures c == Locate(sizes, 0, offset)
    ensures |sizes| > 0 && offset <= Total(sizes) ==>
      c.index < |sizes| && Pos(sizes, c) == offset && c.offset + c.remaining == sizes[c.index]
    ensures offset > Total(sizes) ==> c == Cursor(0, offset - Total(sizes), 0)
  {
    if offset > Total(sizes) {
      LocatePastEnd(sizes, 0, offset);
    } else if |sizes| > 0 {
      LocateFinds(sizes, 0, offset);
    }
    var off := offset;
    for i := 0 to |sizes|
      invariant Locate(sizes, i, off) == Locate(sizes, 0, offset)
    {
      if off > sizes[i] {
        off := off - sizes[i];
      } else {
        return Cursor(i, off, sizes[i] - off);
      }
    }
    c := Cursor(0, off, 0);
  }

  /** The last segment to use.  The bytes counted are those from the start of segment `first`. */
  method FindLast(sizes: seq<nat>, first: nat, length: nat) returns (last: Option<nat>)
    requires first < |sizes|
    ensures last == LastSegment(sizes, first, length)
    ensures last == None <==> Before(sizes, first) + length > Total(sizes)
    ensures Before(sizes, first) + length <= Total(sizes) ==>
      && last.Some? && first <= last.value < |sizes|
      && Before(sizes, first) + length <= Before(sizes, last.value + 1)
      && (first < last.value ==> Before(sizes, last.value) < Before(sizes, first) + length)
  {
    LastSegmentIff(sizes, first, length);
    if Before(sizes, first) + length <= Total(sizes) {
      LastSegmentFinds(sizes, first, length);
    }
    var remaining := length;
    for i := first to |sizes|
      invariant LastSegment(sizes, i, remaining) == LastSegment(sizes, first, length)
    {
      if remaining > sizes[i] {
        remaining := remaining - sizes[i];
      } else {
        return Some(i);
      }
    }
    last := None;
  }

  /** The counting pass. */
  method CountFragments(ss: seq<nat>, ds: seq<nat>, s0: Cursor, d0: Cursor, last: nat, past: Past)
    returns (count: nat)
    requires Ready(ss, ds, s0, d0, last, past)
    ensures count == |Walk(ss, ds, s0, d0, last, past)|
  {
    var s, d := s0, d0;
    count := 0;
    while s.index <= last
      invariant Ready(ss, ds, s, d, last, past)
      invariant count + |Walk(ss, ds, s, d, last, past)| == |Walk(ss, ds, s0, d0, last, past)|
      decreases Steps(ds, s, d, last)
    {
      AdvanceStaysReady(ss, ds, s, d, last, past);
      ghost var next := Advance(ss, ds, s, d, past);
      count := count + 1;
      if s.remaining < d.remaining {
        s, d := NextSegment(ss, s, past.src), Within(d, s.remaining);
      } else if s.remaining == d.remaining {
        s, d := NextSegment(ss, s, past.src), NextSegment(ds, d, past.dst);
      } else {
        s, d := Within(s, d.remaining), NextSegment(ds, d, past.dst);
      }
      assert (s, d) == next;
    }
  }

  /** The flat end of the source range that is transferred: the end of the last segment used. */
  function EndOf(ss: seq<nat>, offset: nat, length: nat): nat
    requires |ss| > 0 && offset + length <= Total(ss)
  {
    LocateFinds(ss, 0, offset);
    var c := Locate(ss, 0, offset);
    LastSegmentFinds(ss, c.index, length);
    Before(ss, LastSegment(ss, c.index, length).value + 1)
  }

  lemma EndBounds(ss: seq<nat>, offset: nat, length: nat)
    requires |ss| > 0 && offset + length <= Total(ss)
    ensures offset <= EndOf(ss, offset, length) <= Total(ss)
  {
    LocateFinds(ss, 0, offset);
    var c := Locate(ss, 0, offset);
    LastSegmentFinds(ss, c.index, length);
    var l := LastSegment(ss, c.index, length).value;
    assert Before(ss, c.index + 1) == Before(ss, c.index) + ss[c.index];
    BeforeGrows(ss, c.index + 1, l + 1);
    BeforeGrows(ss, l + 1, |ss|);
  }

  /** The emitting pass: it fills exactly the `count` entries that the counting pass allowed for. */
  method EmitFragments(ss: seq<nat>, ds: seq<nat>, s0: Cursor, d0: Cursor, last: nat, count: nat, past: Past)
    returns (fragments: seq<Fragment>)
    requires Ready(ss, ds, s0, d0, last, past) && count == |Walk(ss, ds, s0, d0, last, past)|
    ensures fragments == Walk(ss, ds, s0, d0, last, past)
  {
    var s, d := s0, d0;
    var sges := new Fragment[count];
    var i := 0;
    ghost var all := Walk(ss, ds, s, d, last, past);
    while s.index <= last
      invariant Ready(ss, ds, s, d, last, past)
      invariant i + |Walk(ss, ds, s, d, last, past)| == count == sges.Length
      invariant sges[..i] + Walk(ss, ds, s, d, last, past) == all
      decreases Steps(ds, s, d, last)
    {
      AdvanceStaysReady(ss, ds, s, d, last, past);
      ghost var next := Advance(ss, ds, s, d, past);
      ghost var done, rest := sges[..i], Walk(ss, ds, s, d, last, past);
      sges[i] := FragmentAt(s, d);
      if s.remaining < d.remaining {
        s, d := NextSegment(ss, s, past.src), Within(d, s.remaining);
      } else if s.remaining == d.remaining {
        s, d := NextSegment(ss, s, past.src), NextSegment(ds, d, past.dst);
      } else {
        s, d := Within(s, d.remaining), NextSegment(ds, d, past.dst);
      }
      i := i + 1;
      assert (s, d) == next;
      assert rest == [rest[0]] + Walk(ss, ds, s, d, last, past);
      assert sges[..i] == done + [rest[0]];
      ConcatAssociates(done, [rest[0]], Walk(ss, ds, s, d, last, past));
    }
    fragments := sges[..i];
  }

  /** Both searches and both passes: the fragments are consecutive from the two offsets up to the end of
      the last source segment used. */
  method Split(ss: seq<nat>, ds: seq<nat>, srcOffset: nat, length: nat, dstOffset: nat, past: Past)
    returns (fragments: seq<Fragment>)
    requires |ss| > 0 && srcOffset + length <= Total(ss) && |ds| > 0
    requires dstOffset + (EndOf(ss, srcOffset, length) - srcOffset) <= Total(ds)
    ensures Chain(ss, ds, fragments, srcOffset, dstOffset, EndOf(ss, srcOffset, length))
    ensures 1 <= |fragments| < |ss| + |ds|
    ensures AllPositive(ss) && AllPositive(ds) ==>
      && |fragments| == |EndsFrom(ss, ds, srcOffset, EndOf(ss, srcOffset, length), dstOffset - srcOffset)|
      && forall k | 0 <= k < |fragments| ::
           fragments[k].length == 0 <==> k == 0 && (EndsAt(ss, srcOffset) || EndsAt(ds, dstOffset))
  {
    var s := FindSegment(ss, srcOffset);
    var l := FindLast(ss, s.index, length);
    var last := l.value;
    LastSegmentFinds(ss, s.index, length);
    EndBounds(ss, srcOffset, length);
    var d := FindSegment(ds, dstOffset);
    WalkIsChain(ss, ds, s, d, last, past);
    WalkLength(ss, ds, s, d, last, past);
    if AllPositive(ss) && AllPositive(ds) {
      LocateFinds(ss, 0, srcOffset);
      LocateFinds(ds, 0, dstOffset);
      WalkMeetsAllEnds(ss, ds, s, d, last, past);
    }
    var count := CountFragments(ss, ds, s, d, last, past);
    fragments := EmitFragments(ss, ds, s, d, last, count, past);
  }

  // ----- when the transfer is exactly as long as was asked -----

  predicate EndsSegment(ss: seq<nat>, e: nat, pos: nat) {
    e < |ss| && Before(ss, e + 1) == pos
  }

  /** The last segment is looked for without regard to the offset into the first one, so that exactly
      `length` bytes move if and only if the range ends with a segment which is the first one used or
      is longer than the bytes skipped in the first one. */
  lemma TransferIsExactIff(ss: seq<nat>, offset: nat, length: nat)
    requires |ss| > 0 && offset + length <= Total(ss)
    ensures var c := Locate(ss, 0, offset);
      EndOf(ss, offset, length) - offset == length <==>
        exists e: nat :: c.index <= e && EndsSegment(ss, e, offset + length) && (e == c.index || c.offset < ss[e])
  {
    LocateFinds(ss, 0, offset);
    var c := Locate(ss, 0, offset);
    LastSegmentFinds(ss, c.index, length);
    var l := LastSegment(ss, c.index, length).value;
    assert Before(ss, l + 1) == Before(ss, l) + ss[l];
    assert EndOf(ss, offset, length) - offset == length ==> EndsSegment(ss, l, offset + length);
    assert Before(ss, c.index + 1) == Before(ss, c.index) + ss[c.index];
    forall e: nat | c.index <= e && EndsSegment(ss, e, offset + length) && (e == c.index || c.offset < ss[e])
      ensures e == l
    {
      assert Before(ss, e + 1) == Before(ss, e) + ss[e];
      if e < l {
        BeforeGrows(ss, e + 1, l);
      } else if l < e {
        BeforeGrows(ss, l + 1, e);
      }
    }
  }

  /** From offset zero, exactly the requested bytes move if and only if they end with a segment. */
  lemma WholeSegmentsAreExact(ss: seq<nat>, length: nat)
    requires |ss| > 0 && length <= Total(ss)
    ensures EndOf(ss, 0, length) == length <==> exists e: nat :: EndsSegment(ss, e, length)
  {
    LocateFinds(ss, 0, 0);
    LastSegmentFinds(ss, 0, length);
    var l := LastSegment(ss, 0, length).value;
    assert EndOf(ss, 0, length) == length ==> EndsSegment(ss, l, length);
    forall e: nat | EndsSegment(ss, e, length)
      ensures Before(ss, l + 1) == length
    {
      if e < l {
        BeforeGrows(ss, e + 1, l);
      } else {
        BeforeGrows(ss, l + 1, e + 1);
      }
    }
  }

  /** Two segments of four bytes: asking for the second one moves nothing; asking for three bytes moves
      four. */
  lemma InexactTransfers(ss: seq<nat>)
    requires ss == [4, 4]
    ensures Total(ss) == 8 && EndOf(ss, 4, 4) == 4 && EndOf(ss, 0, 3) == 4
  {
    assert Before(ss, 1) == 4;
    assert Locate(ss, 0, 4) == Cursor(0, 4, 0);
    assert Locate(ss, 0, 0) == Cursor(0, 0, 4);
  }

  // ----- what the fragments do to memory -----

  type Buffer = seq<seq<byte>>

  function Sizes(b: Buffer): (r: seq<nat>)
    ensures |r| == |b| && forall i | 0 <= i < |r| :: r[i] == |b[i]|
  {
    seq(|b|, i requires 0 <= i < |b| => |b[i]|)
  }

  /** The bytes of the first `n` segments, one segment after the other. */
  function Flat(b: Buffer, n: nat): seq<byte>
    requires n <= |b|
  {
    if n == 0 then [] else Flat(b, n - 1) + b[n - 1]
  }

  /** The whole buffer as one flat sequence. */
  function Bytes(b: Buffer): seq<byte> {
    Flat(b, |b|)
  }

  lemma {:induction false} FlatLength(b: Buffer, n: nat)
    requires n <= |b|
    ensures |Flat(b, n)| == Before(Sizes(b), n)
  {
    if n > 0 {
      FlatLength(b, n - 1);
    }
  }

  lemma SliceLeft(x: seq<byte>, y: seq<byte>, at: nat, m: nat)
    requires at + m <= |x|
    ensures (x + y)[at..at + m] == x[at..at + m]
  {
  }

  lemma SliceRight(x: seq<byte>, y: seq<byte>, off: nat, m: nat)
    requires off + m <= |y|
    ensures (x + y)[|x| + off..|x| + off + m] == y[off..off + m]
  {
  }

  /** A piece of segment `i` is found in the flat buffer behind all the bytes of earlier segments. */
  lemma {:induction false} FlatPiece(b: Buffer, n: nat, i: nat, off: nat, m: nat)
    requires i < n <= |b| && off + m <= |b[i]|
    ensures Before(Sizes(b), i) + off + m <= |Flat(b, n)|
    ensures Flat(b, n)[Before(Sizes(b), i) + off..Before(Sizes(b), i) + off + m] == b[i][off..off + m]
  {
    FlatLength(b, n - 1);
    if i < n - 1 {
      FlatPiece(b, n - 1, i, off, m);
      SliceLeft(Flat(b, n - 1), b[n - 1], Before(Sizes(b), i) + off, m);
    } else {
      SliceRight(Flat(b, n - 1), b[n - 1], off, m);
    }
  }

  /** `base` with `piece` written over it from position `at` on. */
  function Overwrite(base: seq<byte>, at: nat, piece: seq<byte>): (r: seq<byte>)
    requires at + |piece| <= |base|
    ensures |r| == |base|
  {
    base[..at] + piece + base[at + |piece|..]
  }

  function WritePiece(b: Buffer, i: nat, off: nat, piece: seq<byte>): (r: Buffer)
    requires i < |b| && off + |piece| <= |b[i]|
    ensures Sizes(r) == Sizes(b)
  {
    b[i := Overwrite(b[i], off, piece)]
  }

  function Perform(src: Buffer, dst: Buffer, f: Fragment): (r: Buffer)
    requires Inside(Sizes(src), Sizes(dst), f)
    ensures Sizes(r) == Sizes(dst)
  {
    WritePiece(dst, f.dstSeg, f.dstOff, src[f.srcSeg][f.srcOff..f.srcOff + f.length])
  }

  lemma OverwriteLeft(x: seq<byte>, y: seq<byte>, at: nat, piece: seq<byte>)
    requires at + |piece| <= |x|
    ensures Overwrite(x + y, at, piece) == Overwrite(x, at, piece) + y
  {
    assert (x + y)[..at] == x[..at];
    assert (x + y)[at + |piece|..] == x[at + |piece|..] + y;
  }

  lemma OverwriteRight(x: seq<byte>, y: seq<byte>, off: nat, piece: seq<byte>)
    requires off + |piece| <= |y|
    ensures Overwrite(x + y, |x| + off, piece) == x + Overwrite(y, off, piece)
  {
    assert (x + y)[..|x| + off] == x + y[..off];
    assert (x + y)[|x| + off + |piece|..] == y[off + |piece|..];
  }

  lemma {:induction false} FlatUntouched(b: Buffer, n: nat, i: nat, off: nat, piece: seq<byte>)
    requires n <= i < |b| && off + |piece| <= |b[i]|
    ensures Flat(WritePiece(b, i, off, piece), n) == Flat(b, n)
  {
    if n > 0 {
      FlatUntouched(b, n - 1, i, off, piece);
    }
  }

  /** On the flat view a piece is written behind all the bytes of earlier segments. */
  lemma {:induction false} FlatWrite(b: Buffer, n: nat, i: nat, off: nat, piece: seq<byte>)
    requires i < n <= |b| && off + |piece| <= |b[i]|
    ensures Before(Sizes(b), i) + off + |piece| <= |Flat(b, n)|
    ensures Flat(WritePiece(b, i, off, piece), n) == Overwrite(Flat(b, n), Before(Sizes(b), i) + off, piece)
  {
    FlatLength(b, n - 1);
    if i < n - 1 {
      FlatWrite(b, n - 1, i, off, piece);
      OverwriteLeft(Flat(b, n - 1), b[n - 1], Before(Sizes(b), i) + off, piece);
    } else {
      FlatUntouched(b, n - 1, i, off, piece);
      OverwriteRight(Flat(b, n - 1), b[i], off, piece);
    }
  }

  // ----- performing all the fragments, in any order -----

  /** A fragment that moves source position `a + k` to destination position `b + k`, within the source
      range up to `end`. */
  predicate Aligned(ss: seq<nat>, ds: seq<nat>, f: Fragment, a: nat, b: nat, end: nat) {
    && Inside(ss, ds, f)
    && a <= SrcFlat(ss, f) && SrcFlat(ss, f) + f.length <= end
    && DstFlat(ds, f) == SrcFlat(ss, f) - a + b
  }

  predicate Hits(ds: seq<nat>, f: Fragment, p: nat) {
    f.dstSeg < |ds| && DstFlat(ds, f) <= p < DstFlat(ds, f) + f.length
  }

  predicate Covered(ds: seq<nat>, fs: seq<Fragment>, p: nat) {
    exists f :: f in fs && Hits(ds, f, p)
  }

  predicate AllInside(ss: seq<nat>, ds: seq<nat>, fs: seq<Fragment>) {
    forall f | f in fs :: Inside(ss, ds, f)
  }

  predicate AllAligned(ss: seq<nat>, ds: seq<nat>, fs: seq<Fragment>, a: nat, b: nat, end: nat)
    ensures AllAligned(ss, ds, fs, a, b, end) ==> AllInside(ss, ds, fs)
  {
    forall f | f in fs :: Aligned(ss, ds, f, a, b, end)
  }

  function PerformAll(src: Buffer, dst: Buffer, fs: seq<Fragment>): (r: Buffer)
    requires AllInside(Sizes(src), Sizes(dst), fs)
    ensures Sizes(r) == Sizes(dst)
    decreases |fs|
  {
    if fs == [] then dst
    else PerformAll(src, Perform(src, dst, fs[0]), fs[1..])
  }

  /** One fragment, byte by byte. */
  lemma PerformAt(src: Buffer, dst: Buffer, f: Fragment, p: nat)
    requires Inside(Sizes(src), Sizes(dst), f) && p < |Bytes(dst)|
    ensures |Bytes(Perform(src, dst, f))| == |Bytes(dst)|
    ensures var k := p - DstFlat(Sizes(dst), f) + SrcFlat(Sizes(src), f);
      if Hits(Sizes(dst), f, p) then 0 <= k < |Bytes(src)| && Bytes(Perform(src, dst, f))[p] == Bytes(src)[k]
      else Bytes(Perform(src, dst, f))[p] == Bytes(dst)[p]
  {
    var piece := src[f.srcSeg][f.srcOff..f.srcOff + f.length];
    FlatPiece(src, |src|, f.srcSeg, f.srcOff, f.length);
    FlatWrite(dst, |dst|, f.dstSeg, f.dstOff, piece);
    OverwriteAt(Bytes(dst), DstFlat(Sizes(dst), f), piece, Bytes(src), SrcFlat(Sizes(src), f), p);
  }

  lemma OverwriteAt(base: seq<byte>, at: nat, piece: seq<byte>, src: seq<byte>, from: nat, p: nat)
    requires at + |piece| <= |base| && from + |piece| <= |src| && p < |base| && src[from..from + |piece|] == piece
    ensures Overwrite(base, at, piece)[p] == if at <= p < at + |piece| then src[p - at + from] else base[p]
  {
  }

  lemma CoveredCons(ds: seq<nat>, fs: seq<Fragment>, p: nat)
    requires fs != []
    ensures Covered(ds, fs, p) <==> Hits(ds, fs[0], p) || Covered(ds, fs[1..], p)
  {
    assert fs == [fs[0]] + fs[1..];
    if Covered(ds, fs[1..], p) {
      var f :| f in fs[1..] && Hits(ds, f, p);
      assert f in fs;
    }
    assert fs[0] in fs;
  }

  lemma AlignedTail(ss: seq<nat>, ds: seq<nat>, fs: seq<Fragment>, a: nat, b: nat, end: nat)
    requires AllAligned(ss, ds, fs, a, b, end) && fs != []
    ensures Aligned(ss, ds, fs[0], a, b, end) && AllAligned(ss, ds, fs[1..], a, b, end)
  {
    assert fs[0] in fs && forall f | f in fs[1..] :: f in fs;
  }

  /** Whatever the order, a position some fragment hits gets its source byte; the others keep theirs. */
  lemma {:induction false} PerformAllAt(src: Buffer, dst: Buffer, fs: seq<Fragment>, a: nat, b: nat, end: nat, p: nat)
    requires AllAligned(Sizes(src), Sizes(dst), fs, a, b, end) && p < |Bytes(dst)|
    ensures |Bytes(PerformAll(src, dst, fs))| == |Bytes(dst)|
    ensures var r := Bytes(PerformAll(src, dst, fs));
      if Covered(Sizes(dst), fs, p) then b <= p && p - b + a < |Bytes(src)| && r[p] == Bytes(src)[p - b + a]
      else r[p] == Bytes(dst)[p]
    decreases |fs|
  {
    if fs != [] {
      AlignedTail(Sizes(src), Sizes(dst), fs, a, b, end);
      CoveredCons(Sizes(dst), fs, p);
      PerformAt(src, dst, fs[0], p);
      PerformAllAt(src, Perform(src, dst, fs[0]), fs[1..], a, b, end, p);
    }
  }

  /** Consecutive fragments are aligned and hit every position of the destination range, and no other. */
  lemma {:induction false} ChainCovers(ss: seq<nat>, ds: seq<nat>, fs: seq<Fragment>, a: nat, b: nat, end: nat)
    requires Chain(ss, ds, fs, a, b, end)
    ensures a <= end
    ensures AllAligned(ss, ds, fs, a, b, end)
    ensures forall p: nat :: b <= p < b + (end - a) <==> Covered(ds, fs, p)
    decreases |fs|
  {
    if fs != [] {
      var n := fs[0].length;
      var rest := fs[1..];
      assert fs == [fs[0]] + rest;
      ChainCovers(ss, ds, rest, a + n, b + n, end);
      forall f | f in fs
        ensures Aligned(ss, ds, f, a, b, end)
      {
        assert f == fs[0] || (f in rest && Aligned(ss, ds, f, a + n, b + n, end));
      }
      forall p: nat
        ensures Covered(ds, fs, p) <==> Hits(ds, fs[0], p) || Covered(ds, rest, p)
      {
        CoveredCons(ds, fs, p);
      }
    }
  }

  lemma SameFragments(xs: seq<Fragment>, ys: seq<Fragment>)
    requires multiset(xs) == multiset(ys)
    ensures forall f :: f in xs <==> f in ys
  {
    forall f: Fragment
      ensures f in xs <==> f in ys
    {
      assert f in multiset(xs) <==> f in multiset(ys);
    }
  }

  lemma IsOverwrite(base: seq<byte>, at: nat, from: seq<byte>, a: nat, end: nat, r: seq<byte>)
    requires a <= end <= |from| && at + (end - a) <= |base| == |r|
    requires forall p: nat | p < |base| :: r[p] == if at <= p < at + (end - a) then from[p - at + a] else base[p]
    ensures r == Overwrite(base, at, from[a..end])
  {
    var want := Overwrite(base, at, from[a..end]);
    assert forall p: nat | p < |base| :: r[p] == want[p];
  }

  /** Performing consecutive fragments in any order copies one flat range to one flat range. */
  lemma AnyOrderIsFlatCopy(src: Buffer, dst: Buffer, fs: seq<Fragment>, order: seq<Fragment>, a: nat, b: nat, end: nat)
    requires Chain(Sizes(src), Sizes(dst), fs, a, b, end) && end <= Total(Sizes(src))
    requires multiset(order) == multiset(fs) && b + (end - a) <= Total(Sizes(dst))
    ensures a <= end && |Bytes(src)| == Total(Sizes(src)) && |Bytes(dst)| == Total(Sizes(dst))
    ensures AllInside(Sizes(src), Sizes(dst), order)
    ensures Bytes(PerformAll(src, dst, order)) == Overwrite(Bytes(dst), b, Bytes(src)[a..end])
  {
    var ss, ds := Sizes(src), Sizes(dst);
    ChainCovers(ss, ds, fs, a, b, end);
    SameFragments(order, fs);
    assert AllAligned(ss, ds, order, a, b, end);
    FlatLength(src, |src|);
    FlatLength(dst, |dst|);
    var r := PerformAll(src, dst, order);
    FlatLength(r, |r|);
    forall p: nat | p < |Bytes(dst)|
      ensures Bytes(r)[p] == if b <= p < b + (end - a) then Bytes(src)[p - b + a] else Bytes(dst)[p]
    {
      assert Covered(ds, order, p) <==> Covered(ds, fs, p);
      PerformAllAt(src, dst, order, a, b, end, p);
    }
    IsOverwrite(Bytes(dst), b, Bytes(src), a, end, Bytes(r));
  }
}
