/** Taking busy stretches of minutes out of open windows, and what is left. */
module Intervals {
  import opened Ranges

  /** A half-open stretch of minutes. */
  datatype Span = Span(lo: int, hi: int)

  // ---------------------------------------------------------------- the arithmetic, on spans

  /** One segment with one busy stretch taken out. */
  function Cut(seg: Span, busy: Span): seq<Span> {
    if busy.hi <= seg.lo || busy.lo >= seg.hi then [seg]
    else (if busy.lo > seg.lo then [Span(seg.lo, busy.lo)] else []) + (if busy.hi < seg.hi then [Span(busy.hi, seg.hi)] else [])
  }

  function CutEach(segments: seq<Span>, busy: Span): seq<Span> {
    if segments == [] then [] else CutEach(segments[..|segments| - 1], busy) + Cut(segments[|segments| - 1], busy)
  }

  /** One window with every busy stretch taken out, in turn. */
  function CutAll(window: Span, busy: seq<Span>): seq<Span> {
    if busy == [] then [window] else CutEach(CutAll(window, busy[..|busy| - 1]), busy[|busy| - 1])
  }

  function NonEmpty(spans: seq<Span>): seq<Span> {
    if spans == [] then []
    else NonEmpty(spans[..|spans| - 1]) + if spans[|spans| - 1].lo < spans[|spans| - 1].hi then [spans[|spans| - 1]] else []
  }

  function Free(open: seq<Span>, busy: seq<Span>): seq<Span> {
    if open == [] then [] else Free(open[..|open| - 1], busy) + NonEmpty(CutAll(open[|open| - 1], NonEmpty(busy)))
  }

  lemma FreeSnoc(open: seq<Span>, o: Span, busy: seq<Span>)
    ensures Free(open + [o], busy) == Free(open, busy) + NonEmpty(CutAll(o, NonEmpty(busy)))
  {
    var all := open + [o];
    assert all[..|all| - 1] == open && all[|all| - 1] == o;
  }

  // ---------------------------------------------------------------- what the arithmetic means

  ghost predicate Within(spans: seq<Span>, m: int) {
    exists s | s in spans :: s.lo <= m < s.hi
  }

  ghost predicate AllReal(spans: seq<Span>) {
    forall s | s in spans :: s.lo < s.hi
  }

  /** One stretch inside another. */
  predicate Covers(window: Span, slot: Span) {
    window.lo <= slot.lo && slot.hi <= window.hi
  }

  ghost predicate Covered(spans: seq<Span>, slot: Span) {
    exists s | s in spans :: Covers(s, slot)
  }

  predicate Overlaps(a: Span, b: Span) {
    a.lo < b.hi && b.lo < a.hi
  }

  ghost predicate Clear(busy: seq<Span>, slot: Span) {
    forall b | b in busy && b.lo < b.hi :: !Overlaps(b, slot)
  }

  lemma {:induction false} NonEmptyIs(spans: seq<Span>, s: Span)
    ensures s in NonEmpty(spans) <==> s in spans && s.lo < s.hi
  {
    if spans != [] {
      NonEmptyIs(spans[..|spans| - 1], s);
      assert spans == spans[..|spans| - 1] + [spans[|spans| - 1]];
    }
  }

  /** A real slot fits in one piece of a cut exactly when it fits in what was cut, clear of the busy stretch. */
  lemma {:induction false} CutEachCovers(segments: seq<Span>, busy: Span, slot: Span)
    requires slot.lo < slot.hi && busy.lo < busy.hi
    ensures Covered(CutEach(segments, busy), slot) <==> Covered(segments, slot) && !Overlaps(busy, slot)
  {
    if segments != [] {
      var before, last := segments[..|segments| - 1], segments[|segments| - 1];
      CutEachCovers(before, busy, slot);
      CoveredCat(before, [last], slot);
      CoveredCat(CutEach(before, busy), Cut(last, busy), slot);
      CutCovers(last, busy, slot);
      assert segments == before + [last];
    }
  }

  lemma CutCovers(seg: Span, busy: Span, slot: Span)
    requires slot.lo < slot.hi && busy.lo < busy.hi
    ensures Covered(Cut(seg, busy), slot) <==> Covered([seg], slot) && !Overlaps(busy, slot)
  {
    assert Covered([seg], slot) <==> Covers(seg, slot);
    if Covers(seg, slot) && !Overlaps(busy, slot) {
      if slot.hi <= busy.lo {
        assert seg in Cut(seg, busy) || Span(seg.lo, busy.lo) in Cut(seg, busy);
      } else {
        assert seg in Cut(seg, busy) || Span(busy.hi, seg.hi) in Cut(seg, busy);
      }
    }
  }

  lemma CoveredCat(first: seq<Span>, second: seq<Span>, slot: Span)
    ensures Covered(first + second, slot) <==> Covered(first, slot) || Covered(second, slot)
  {
    if Covered(first, slot) {
      var s :| s in first && Covers(s, slot);
      assert s in first + second;
    } else if Covered(second, slot) {
      var s :| s in second && Covers(s, slot);
      assert s in first + second;
    }
  }

  lemma {:induction false} CutAllCovers(window: Span, busy: seq<Span>, slot: Span)
    requires slot.lo < slot.hi && AllReal(busy)
    ensures Covered(CutAll(window, busy), slot) <==> Covers(window, slot) && Clear(busy, slot)
  {
    if busy == [] {
      assert window in CutAll(window, busy);
    } else {
      var before, last := busy[..|busy| - 1], busy[|busy| - 1];
      assert busy == before + [last];
      CutAllCovers(window, before, slot);
      CutEachCovers(CutAll(window, before), last, slot);
    }
  }

  lemma NonEmptyCovers(spans: seq<Span>, slot: Span)
    requires slot.lo < slot.hi
    ensures Covered(NonEmpty(spans), slot) <==> Covered(spans, slot)
  {
    if Covered(spans, slot) {
      var s :| s in spans && Covers(s, slot);
      NonEmptyIs(spans, s);
    }
    if Covered(NonEmpty(spans), slot) {
      var s :| s in NonEmpty(spans) && Covers(s, slot);
      NonEmptyIs(spans, s);
    }
  }

  lemma NonEmptyClear(busy: seq<Span>, slot: Span)
    ensures AllReal(NonEmpty(busy)) && (Clear(NonEmpty(busy), slot) <==> Clear(busy, slot))
  {
    forall b ensures b in NonEmpty(busy) <==> b in busy && b.lo < b.hi {
      NonEmptyIs(busy, b);
    }
  }

  /**
   A slot that takes any time at all fits in one free stretch exactly when it fits in one open
   window and overlaps nothing that is booked. No order is asked of the windows or the bookings.
   */
  lemma {:induction false} FreeCovers(open: seq<Span>, busy: seq<Span>, slot: Span)
    requires slot.lo < slot.hi
    ensures Covered(Free(open, busy), slot) <==> Covered(open, slot) && Clear(busy, slot)
  {
    if open != [] {
      var before, last := open[..|open| - 1], open[|open| - 1];
      assert open == before + [last];
      FreeCovers(before, busy, slot);
      NonEmptyClear(busy, slot);
      CutAllCovers(last, NonEmpty(busy), slot);
      NonEmptyCovers(CutAll(last, NonEmpty(busy)), slot);
      CoveredCat(Free(before, busy), NonEmpty(CutAll(last, NonEmpty(busy))), slot);
      CoveredCat(before, [last], slot);
      assert last in [last];
    }
  }

  /** A minute is free exactly when it is open and not booked. */
  lemma FreeIsExact(open: seq<Span>, busy: seq<Span>, m: int)
    ensures Within(Free(open, busy), m) <==> Within(open, m) && !Within(busy, m)
  {
    var slot := Span(m, m + 1);
    FreeCovers(open, busy, slot);
    assert forall s: Span :: Covers(s, slot) <==> s.lo <= m < s.hi;
    assert forall s: Span :: s.lo < s.hi && Overlaps(s, slot) <==> s.lo <= m < s.hi;
    MinuteIsSlot(Free(open, busy), m);
    MinuteIsSlot(open, m);
    if Within(busy, m) {
      var b :| b in busy && b.lo <= m < b.hi;
      assert Overlaps(b, slot);
    }
  }

  lemma MinuteIsSlot(spans: seq<Span>, m: int)
    ensures Covered(spans, Span(m, m + 1)) <==> Within(spans, m)
  {
    if Within(spans, m) {
      var s :| s in spans && s.lo <= m < s.hi;
      assert Covers(s, Span(m, m + 1));
    }
    if Covered(spans, Span(m, m + 1)) {
      var s :| s in spans && Covers(s, Span(m, m + 1));
      assert s.lo <= m < s.hi;
    }
  }

  // ---------------------------------------------------------------- order

  /** Windows that follow one another without overlap. */
  ghost predicate Sorted(spans: seq<Span>) {
    && (forall i :: 0 <= i < |spans| ==> spans[i].lo <= spans[i].hi)
    && (forall i, j :: 0 <= i < j < |spans| ==> spans[i].hi <= spans[j].lo)
  }

  ghost predicate Inside(spans: seq<Span>, window: Span) {
    forall i :: 0 <= i < |spans| ==> Covers(window, spans[i])
  }

  lemma SortedCat(first: seq<Span>, second: seq<Span>)
    requires Sorted(first) && Sorted(second)
    requires forall i, j :: 0 <= i < |first| && 0 <= j < |second| ==> first[i].hi <= second[j].lo
    ensures Sorted(first + second)
  {
    var both := first + second;
    forall i, j | 0 <= i < j < |both| ensures both[i].hi <= both[j].lo {
      if i < |first| <= j {
        assert both[i] == first[i] && both[j] == second[j - |first|];
      }
    }
  }

  lemma {:induction false} CutEachInside(segments: seq<Span>, busy: Span, window: Span)
    requires Inside(segments, window) && busy.lo < busy.hi
    ensures Inside(CutEach(segments, busy), window)
  {
    if segments != [] {
      CutEachInside(segments[..|segments| - 1], busy, window);
    }
  }

  /** The pieces lie in order, as the segments they came from did. */
  lemma {:induction false} CutEachSorted(segments: seq<Span>, busy: Span)
    requires Sorted(segments) && busy.lo < busy.hi
    ensures Sorted(CutEach(segments, busy))
  {
    if segments != [] {
      var n := |segments| - 1;
      var before := Span(segments[0].lo, segments[n].lo);
      CutEachSorted(segments[..n], busy);
      CutEachInside(segments[..n], busy, before);
      CutEachInside([segments[n]], busy, segments[n]);
      SortedCat(CutEach(segments[..n], busy), Cut(segments[n], busy));
    }
  }

  lemma {:induction false} CutAllSorted(window: Span, busy: seq<Span>)
    requires window.lo <= window.hi && AllReal(busy)
    ensures Sorted(CutAll(window, busy)) && Inside(CutAll(window, busy), window)
  {
    if busy != [] {
      assert busy == busy[..|busy| - 1] + [busy[|busy| - 1]];
      CutAllSorted(window, busy[..|busy| - 1]);
      CutEachSorted(CutAll(window, busy[..|busy| - 1]), busy[|busy| - 1]);
      CutEachInside(CutAll(window, busy[..|busy| - 1]), busy[|busy| - 1], window);
    }
  }

  lemma {:induction false} NonEmptySorted(spans: seq<Span>, window: Span)
    requires Sorted(spans) && Inside(spans, window)
    ensures Sorted(NonEmpty(spans)) && Inside(NonEmpty(spans), window) && AllReal(NonEmpty(spans))
  {
    if spans != [] {
      var n := |spans| - 1;
      NonEmptySorted(spans[..n], window);
      forall i | 0 <= i < |NonEmpty(spans[..n])| ensures NonEmpty(spans[..n])[i].hi <= spans[n].lo {
        NonEmptyIs(spans[..n], NonEmpty(spans[..n])[i]);
      }
      SortedCat(NonEmpty(spans[..n]), if spans[n].lo < spans[n].hi then [spans[n]] else []);
    }
  }

  /** Sorted disjoint windows leave sorted, disjoint, non-empty free stretches, none past the last window. */
  lemma {:induction false} FreeSorted(open: seq<Span>, busy: seq<Span>)
    requires Sorted(open)
    ensures Sorted(Free(open, busy)) && AllReal(Free(open, busy))
    ensures forall i :: 0 <= i < |Free(open, busy)| ==> open != [] && Free(open, busy)[i].hi <= open[|open| - 1].hi
  {
    if open != [] {
      var n := |open| - 1;
      FreeSorted(open[..n], busy);
      NonEmptyClear(busy, open[n]);
      CutAllSorted(open[n], NonEmpty(busy));
      NonEmptySorted(CutAll(open[n], NonEmpty(busy)), open[n]);
      SortedCat(Free(open[..n], busy), NonEmpty(CutAll(open[n], NonEmpty(busy))));
    }
  }

  // ---------------------------------------------------------------- conservation

  ghost function Total(spans: seq<Span>): int {
    if spans == [] then 0
    else Total(spans[..|spans| - 1]) + if spans[|spans| - 1].lo < spans[|spans| - 1].hi then spans[|spans| - 1].hi - spans[|spans| - 1].lo else 0
  }

  ghost function Minutes(spans: seq<Span>): set<int> {
    if spans == [] then {} else Minutes(spans[..|spans| - 1]) + Range(spans[|spans| - 1].lo, spans[|spans| - 1].hi)
  }

  lemma {:induction false} MinutesAre(spans: seq<Span>, m: int)
    ensures m in Minutes(spans) <==> Within(spans, m)
  {
    if spans != [] {
      MinutesAre(spans[..|spans| - 1], m);
      assert spans == spans[..|spans| - 1] + [spans[|spans| - 1]];
    }
  }

  ghost predicate Disjoint(spans: seq<Span>) {
    forall i, j :: 0 <= i < j < |spans| ==> !Overlaps(spans[i], spans[j])
  }

  /** Disjoint spans add up to the minutes in them, in whatever order they come. */
  lemma {:induction false} DisjointTotal(spans: seq<Span>)
    requires Disjoint(spans) && AllReal(spans)
    ensures Total(spans) == |Minutes(spans)|
  {
    if spans != [] {
      var n := |spans| - 1;
      DisjointTotal(spans[..n]);
      forall m | m in Minutes(spans[..n]) ensures m !in Range(spans[n].lo, spans[n].hi) {
        MinutesAre(spans[..n], m);
        var s :| s in spans[..n] && s.lo <= m < s.hi;
        var i :| 0 <= i < n && spans[i] == s;
        assert !Overlaps(spans[i], spans[n]);
      }
      assert Minutes(spans[..n]) !! Range(spans[n].lo, spans[n].hi);
    }
  }

  /** So do windows in order. */
  lemma {:induction false} SortedTotal(spans: seq<Span>)
    requires Sorted(spans)
    ensures Total(spans) == |Minutes(spans)|
  {
    if spans != [] {
      var n := |spans| - 1;
      SortedTotal(spans[..n]);
      forall m | m in Minutes(spans[..n]) ensures m !in Range(spans[n].lo, spans[n].hi) {
        MinutesAre(spans[..n], m);
      }
      assert Minutes(spans[..n]) !! Range(spans[n].lo, spans[n].hi);
    }
  }

  /** Free minutes and the open minutes that are booked add up to the open minutes. */
  lemma MinutesAreConserved(open: seq<Span>, busy: seq<Span>)
    requires Sorted(open)
    ensures Total(Free(open, busy)) + |Minutes(open) * Minutes(busy)| == Total(open)
  {
    FreeSorted(open, busy);
    SortedTotal(open);
    SortedTotal(Free(open, busy));
    forall m ensures m in Minutes(Free(open, busy)) <==> m in Minutes(open) && m !in Minutes(busy) {
      MinutesAre(Free(open, busy), m);
      MinutesAre(open, m);
      MinutesAre(busy, m);
      FreeIsExact(open, busy, m);
    }
    assert Minutes(Free(open, busy)) == Minutes(open) - Minutes(busy);
    assert Minutes(open) == (Minutes(open) - Minutes(busy)) + (Minutes(open) * Minutes(busy));
  }
}
