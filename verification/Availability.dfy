/**
 What is still bookable on a date: a spot's open windows minus every booked slot, spelled
 `HH:MM` and compared as strings.
 */
module Availability {
  import opened Intervals
  import opened Text
  import opened Times
  import opened Wrappers

  // ---------------------------------------------------------------- slots as spans

  predicate ClockSlot(slot: TimeSlot) {
    Clock(slot.start) && Clock(slot.end)
  }

  predicate AllClock(slots: seq<TimeSlot>) {
    forall i :: 0 <= i < |slots| ==> ClockSlot(slots[i])
  }

  function SpanOf(slot: TimeSlot): Span
    requires ClockSlot(slot)
  {
    Span(ToMin(slot.start), ToMin(slot.end))
  }

  function Spans(slots: seq<TimeSlot>): seq<Span>
    requires AllClock(slots)
  {
    seq(|slots|, i requires 0 <= i < |slots| => SpanOf(slots[i]))
  }

  /** Minutes that can be spelled. */
  predicate OnTheClock(s: Span) {
    0 <= s.lo < 6000 && 0 <= s.hi < 6000
  }

  function Spell(s: Span): TimeSlot
    requires OnTheClock(s)
  {
    TimeSlot(ToHHMM(s.lo), ToHHMM(s.hi))
  }

  predicate AllOnTheClock(spans: seq<Span>) {
    forall i :: 0 <= i < |spans| ==> OnTheClock(spans[i])
  }

  function Spelled(spans: seq<Span>): seq<TimeSlot>
    requires AllOnTheClock(spans)
  {
    seq(|spans|, i requires 0 <= i < |spans| => Spell(spans[i]))
  }

  lemma {:induction false} CutAllInside(window: Span, busy: seq<Span>)
    requires AllReal(busy)
    ensures Inside(CutAll(window, busy), window)
  {
    if busy != [] {
      assert busy == busy[..|busy| - 1] + [busy[|busy| - 1]];
      CutAllInside(window, busy[..|busy| - 1]);
      CutEachInside(CutAll(window, busy[..|busy| - 1]), busy[|busy| - 1], window);
    }
  }

  /** The real pieces of a window on the clock are on the clock. */
  lemma PiecesOnTheClock(window: Span, busy: seq<Span>, n: nat)
    requires OnTheClock(window) && AllReal(busy) && n <= |CutAll(window, busy)|
    ensures AllOnTheClock(NonEmpty(CutAll(window, busy)[..n]))
  {
    var pieces := CutAll(window, busy);
    CutAllInside(window, busy);
    forall i | 0 <= i < |NonEmpty(pieces[..n])| ensures OnTheClock(NonEmpty(pieces[..n])[i]) {
      NonEmptyIs(pieces[..n], NonEmpty(pieces[..n])[i]);
    }
  }

  lemma {:induction false} FreeOnTheClock(open: seq<Span>, busy: seq<Span>)
    requires AllOnTheClock(open)
    ensures AllOnTheClock(Free(open, busy))
  {
    if open != [] {
      var n := |open| - 1;
      FreeOnTheClock(open[..n], busy);
      NonEmptyClear(busy, open[n]);
      var pieces := CutAll(open[n], NonEmpty(busy));
      PiecesOnTheClock(open[n], NonEmpty(busy), |pieces|);
      assert pieces[..|pieces|] == pieces;
    }
  }

  lemma OneOnTheClock(slot: TimeSlot)
    requires ClockSlot(slot)
    ensures OnTheClock(SpanOf(slot))
  {
    ToMinToHHMM(slot.start);
    ToMinToHHMM(slot.end);
  }

  lemma SpansOnTheClock(slots: seq<TimeSlot>)
    requires AllClock(slots)
    ensures AllOnTheClock(Spans(slots))
  {
    forall i | 0 <= i < |slots| ensures OnTheClock(Spans(slots)[i]) {
      OneOnTheClock(slots[i]);
    }
  }

  /** What is left of the open windows, spelled. */
  function Remaining(open: seq<TimeSlot>, busy: seq<TimeSlot>): seq<TimeSlot>
    requires AllClock(open) && AllClock(busy)
  {
    SpansOnTheClock(open);
    FreeOnTheClock(Spans(open), Spans(busy));
    Spelled(Free(Spans(open), Spans(busy)))
  }

  /** Every segment trimmed or split around one busy stretch. */
  method SplitAround(segments: seq<Span>, b: Span) returns (next: seq<Span>)
    ensures next == CutEach(segments, b)
  {
    next := [];
    for k := 0 to |segments|
      invariant next == CutEach(segments[..k], b)
    {
      var seg := segments[k];
      assert segments[..k + 1][..k] == segments[..k];
      if b.hi <= seg.lo || b.lo >= seg.hi {
        next := next + [seg];
        continue;
      }
      if b.lo > seg.lo {
        next := next + [Span(seg.lo, b.lo)];
      }
      if b.hi < seg.hi {
        next := next + [Span(b.hi, seg.hi)];
      }
    }
    assert segments[..|segments|] == segments;
  }

  /** The segments that take time, spelled. */
  method SpellReal(segments: seq<Span>) returns (slots: seq<TimeSlot>)
    requires AllOnTheClock(NonEmpty(segments))
    ensures slots == Spelled(NonEmpty(segments))
  {
    slots := [];
    for k := 0 to |segments|
      invariant NonEmpty(segments[..k]) <= NonEmpty(segments)
      invariant slots == Spelled(NonEmpty(segments[..k]))
    {
      NonEmptyPrefix(segments, k + 1);
      assert segments[..k + 1][..k] == segments[..k];
      var s := segments[k];
      if s.hi > s.lo {
        assert NonEmpty(segments[..k + 1])[|NonEmpty(segments[..k])|] == s;
        slots := slots + [TimeSlot(ToHHMM(s.lo), ToHHMM(s.hi))];
      }
    }
    assert segments[..|segments|] == segments;
  }

  lemma {:induction false} NonEmptyPrefix(segments: seq<Span>, k: nat)
    requires k <= |segments|
    ensures NonEmpty(segments[..k]) <= NonEmpty(segments)
    decreases |segments| - k
  {
    if k < |segments| {
      assert segments[..k + 1][..k] == segments[..k];
      NonEmptyPrefix(segments, k + 1);
    } else {
      assert segments[..k] == segments;
    }
  }

  /** One open window with every busy stretch taken out, its real pieces spelled. */
  method FreeIn(o: Span, busyMin: seq<Span>) returns (slots: seq<TimeSlot>)
    requires OnTheClock(o) && AllReal(busyMin)
    ensures AllOnTheClock(NonEmpty(CutAll(o, busyMin)))
    ensures slots == Spelled(NonEmpty(CutAll(o, busyMin)))
  {
    var segments := [o];
    for j := 0 to |busyMin|
      invariant segments == CutAll(o, busyMin[..j])
    {
      assert busyMin[..j + 1][..j] == busyMin[..j];
      segments := SplitAround(segments, busyMin[j]);
    }
    assert busyMin[..|busyMin|] == busyMin;
    PiecesOnTheClock(o, busyMin, |segments|);
    assert segments[..|segments|] == segments;
    slots := SpellReal(segments);
  }

  lemma SpansSnoc(open: seq<TimeSlot>, i: nat)
    requires AllClock(open) && i < |open|
    ensures Spans(open[..i + 1]) == Spans(open[..i]) + [SpanOf(open[i])]
  {
  }

  lemma SpelledCat(first: seq<Span>, second: seq<Span>)
    requires AllOnTheClock(first) && AllOnTheClock(second)
    ensures AllOnTheClock(first + second) && Spelled(first + second) == Spelled(first) + Spelled(second)
  {
  }

  method Subtract(open: seq<TimeSlot>, busy: seq<TimeSlot>) returns (result: seq<TimeSlot>)
    requires AllClock(open) && AllClock(busy)
    ensures result == Remaining(open, busy)
  {
    var busyMin := NonEmpty(Spans(busy));
    NonEmptyClear(Spans(busy), Span(0, 0));
    result := [];
    ghost var free: seq<Span> := [];
    for i := 0 to |open|
      invariant free == Free(Spans(open[..i]), Spans(busy))
      invariant AllOnTheClock(free) && result == Spelled(free)
    {
      OneOnTheClock(open[i]);
      var slots := FreeIn(SpanOf(open[i]), busyMin);
      ghost var pieces := NonEmpty(CutAll(SpanOf(open[i]), busyMin));
      SpansSnoc(open, i);
      FreeSnoc(Spans(open[..i]), SpanOf(open[i]), Spans(busy));
      SpelledCat(free, pieces);
      free := free + pieces;
      result := result + slots;
    }
    assert open[..|open|] == open;
  }

  // ---------------------------------------------------------------- through the strings

  /** The comparison the source makes, on the spelled times. */
  predicate SlotCovers(window: TimeSlot, slot: TimeSlot) {
    AtMost(window.start, slot.start) && AtMost(slot.end, window.end)
  }

  predicate SlotOverlaps(a: TimeSlot, b: TimeSlot) {
    Less(a.start, b.end) && Less(b.start, a.end)
  }

  predicate TakesTime(slot: TimeSlot) {
    Less(slot.start, slot.end)
  }

  lemma SlotAsSpan(a: TimeSlot, b: TimeSlot)
    requires ClockSlot(a) && ClockSlot(b)
    ensures SlotCovers(a, b) <==> Covers(SpanOf(a), SpanOf(b))
    ensures SlotOverlaps(a, b) <==> Overlaps(SpanOf(a), SpanOf(b))
    ensures TakesTime(a) <==> SpanOf(a).lo < SpanOf(a).hi
  {
    ClockOrder(b.start, a.start);
    ClockOrder(a.end, b.end);
    ClockOrder(a.start, b.end);
    ClockOrder(b.start, a.end);
    ClockOrder(a.start, a.end);
  }

  ghost predicate SlotCovered(windows: seq<TimeSlot>, slot: TimeSlot) {
    exists i :: 0 <= i < |windows| && SlotCovers(windows[i], slot)
  }

  ghost predicate SlotClear(busy: seq<TimeSlot>, slot: TimeSlot) {
    forall i :: 0 <= i < |busy| && TakesTime(busy[i]) ==> !SlotOverlaps(busy[i], slot)
  }

  lemma SlotCoveredAsSpan(windows: seq<TimeSlot>, slot: TimeSlot)
    requires AllClock(windows) && ClockSlot(slot)
    ensures SlotCovered(windows, slot) <==> Covered(Spans(windows), SpanOf(slot))
  {
    forall i | 0 <= i < |windows| ensures SlotCovers(windows[i], slot) <==> Covers(Spans(windows)[i], SpanOf(slot)) {
      SlotAsSpan(windows[i], slot);
    }
    if SlotCovered(windows, slot) {
      var i :| 0 <= i < |windows| && SlotCovers(windows[i], slot);
      assert Spans(windows)[i] in Spans(windows);
    }
  }

  lemma SlotClearAsSpan(busy: seq<TimeSlot>, slot: TimeSlot)
    requires AllClock(busy) && ClockSlot(slot)
    ensures SlotClear(busy, slot) <==> Clear(Spans(busy), SpanOf(slot))
  {
    forall i | 0 <= i < |busy|
      ensures TakesTime(busy[i]) <==> Spans(busy)[i].lo < Spans(busy)[i].hi
      ensures SlotOverlaps(busy[i], slot) <==> Overlaps(Spans(busy)[i], SpanOf(slot))
    {
      SlotAsSpan(busy[i], slot);
    }
    forall i | 0 <= i < |busy| ensures Spans(busy)[i] in Spans(busy) {
    }
  }

  lemma SpelledSpans(spans: seq<Span>)
    requires AllOnTheClock(spans)
    ensures AllClock(Spelled(spans)) && Spans(Spelled(spans)) == spans
  {
    forall i | 0 <= i < |spans| ensures ClockSlot(Spelled(spans)[i]) && SpanOf(Spelled(spans)[i]) == spans[i] {
      ToHHMMToMin(spans[i].lo);
      ToHHMMToMin(spans[i].hi);
    }
  }

  /**
   A slot is bookable, by the string comparison the page makes against what `Subtract` left,
   exactly when one open window covers it and it overlaps no booked slot that takes time.
   */
  lemma BookableIff(open: seq<TimeSlot>, busy: seq<TimeSlot>, slot: TimeSlot)
    requires AllClock(open) && AllClock(busy) && ClockSlot(slot) && TakesTime(slot)
    ensures SlotCovered(Remaining(open, busy), slot) <==> SlotCovered(open, slot) && SlotClear(busy, slot)
  {
    SpansOnTheClock(open);
    FreeOnTheClock(Spans(open), Spans(busy));
    SpelledSpans(Free(Spans(open), Spans(busy)));
    SlotAsSpan(slot, slot);
    FreeCovers(Spans(open), Spans(busy), SpanOf(slot));
    SlotCoveredAsSpan(Remaining(open, busy), slot);
    SlotCoveredAsSpan(open, slot);
    SlotClearAsSpan(busy, slot);
  }

  /** What `Subtract` left reads back as exactly the free stretches. */
  lemma RemainingIsFree(open: seq<TimeSlot>, busy: seq<TimeSlot>)
    requires AllClock(open) && AllClock(busy)
    ensures AllClock(Remaining(open, busy)) && Spans(Remaining(open, busy)) == Free(Spans(open), Spans(busy))
  {
    SpansOnTheClock(open);
    FreeOnTheClock(Spans(open), Spans(busy));
    SpelledSpans(Free(Spans(open), Spans(busy)));
  }

  // ---------------------------------------------------------------- bookings and dates

  /** Slots by date. */
  type Days = map<string, seq<TimeSlot>>

  function SlotsOn(days: Days, date: string): seq<TimeSlot> {
    if date in days then days[date] else []
  }

  /** Every booking's slots on one date, booking after booking. */
  function BookedOn(bookings: seq<Option<Days>>, date: string): seq<TimeSlot> {
    if bookings == [] then []
    else
      var last := bookings[|bookings| - 1];
      BookedOn(bookings[..|bookings| - 1], date) + if last.None? then [] else SlotsOn(last.value, date)
  }

  /** Nothing any booking took on the date is in the slot's way. */
  ghost predicate NothingTaken(bookings: seq<Option<Days>>, date: string, slot: TimeSlot) {
    forall b | b in bookings && b.Some? :: SlotClear(SlotsOn(b.value, date), slot)
  }

  lemma SlotClearCat(first: seq<TimeSlot>, second: seq<TimeSlot>, slot: TimeSlot)
    ensures SlotClear(first + second, slot) <==> SlotClear(first, slot) && SlotClear(second, slot)
  {
    if SlotClear(first + second, slot) {
      forall i | 0 <= i < |first| && TakesTime(first[i]) ensures !SlotOverlaps(first[i], slot) {
        assert (first + second)[i] == first[i];
      }
      forall i | 0 <= i < |second| && TakesTime(second[i]) ensures !SlotOverlaps(second[i], slot) {
        assert (first + second)[|first| + i] == second[i];
      }
    }
  }

  lemma {:induction false} BookedOnClear(bookings: seq<Option<Days>>, date: string, slot: TimeSlot)
    ensures SlotClear(BookedOn(bookings, date), slot) <==> NothingTaken(bookings, date, slot)
  {
    if bookings != [] {
      var before, last := bookings[..|bookings| - 1], bookings[|bookings| - 1];
      assert bookings == before + [last];
      BookedOnClear(before, date, slot);
      SlotClearCat(BookedOn(before, date), if last.None? then [] else SlotsOn(last.value, date), slot);
    }
  }

  method MergeBooked(bookings: Option<seq<Option<Days>>>) returns (out: Days)
    ensures forall date :: SlotsOn(out, date) == BookedOn(if bookings.None? then [] else bookings.value, date)
  {
    var list := if bookings.None? then [] else bookings.value;
    out := map[];
    for i := 0 to |list|
      invariant forall date :: SlotsOn(out, date) == BookedOn(list[..i], date)
    {
      assert list[..i + 1][..i] == list[..i];
      if list[i].Some? {
        out := Push(out, list[i].value);
      }
    }
    assert list[..|list|] == list;
  }

  /** One booking's dates appended to the days gathered so far. */
  method Push(out: Days, booked: Days) returns (days: Days)
    ensures forall date :: SlotsOn(days, date) == SlotsOn(out, date) + SlotsOn(booked, date)
  {
    days := out;
    var left := booked.Keys;
    while left != {}
      invariant left <= booked.Keys
      invariant forall date :: SlotsOn(days, date) == SlotsOn(out, date) + if date in left then [] else SlotsOn(booked, date)
      decreases left
    {
      var date :| date in left;
      days := days[date := SlotsOn(days, date) + booked[date]];
      left := left - {date};
    }
  }

  datatype SpotAvailability = SpotAvailability(weekly: Option<Days>, single: Option<Days>)

  /** A date's own slots win over its weekday's hours, even when they are none. */
  function OpenWindows(availability: Option<SpotAvailability>, date: string, weekday: string): seq<TimeSlot> {
    if availability.None? then []
    else if availability.value.single.Some? && date in availability.value.single.value
    then availability.value.single.value[date]
    else if availability.value.weekly.Some? then SlotsOn(availability.value.weekly.value, weekday)
    else []
  }

  method RemainingWindows(availability: Option<SpotAvailability>, occupied: Days, date: string, weekday: string)
    returns (result: seq<TimeSlot>)
    requires AllClock(OpenWindows(availability, date, weekday)) && AllClock(SlotsOn(occupied, date))
    ensures result == Remaining(OpenWindows(availability, date, weekday), SlotsOn(occupied, date))
    ensures forall slot | ClockSlot(slot) && TakesTime(slot) ::
      SlotCovered(result, slot) <==> SlotCovered(OpenWindows(availability, date, weekday), slot) && SlotClear(SlotsOn(occupied, date), slot)
  {
    var open, busy := OpenWindows(availability, date, weekday), SlotsOn(occupied, date);
    result := Subtract(open, busy);
    forall slot | ClockSlot(slot) && TakesTime(slot)
      ensures SlotCovered(result, slot) <==> SlotCovered(open, slot) && SlotClear(busy, slot)
    {
      BookableIff(open, busy, slot);
    }
  }

  /**
   The page's whole question: from the bookings as they were fetched to the slot a renter picks.
   The slot is offered exactly when one of the date's open windows covers it and no booking at
   all has a slot on that date that takes time and overlaps it.
   */
  lemma OfferedIff(availability: Option<SpotAvailability>, bookings: seq<Option<Days>>, occupied: Days,
                   date: string, weekday: string, slot: TimeSlot)
    requires SlotsOn(occupied, date) == BookedOn(bookings, date)
    requires AllClock(OpenWindows(availability, date, weekday)) && AllClock(SlotsOn(occupied, date))
    requires ClockSlot(slot) && TakesTime(slot)
    ensures SlotCovered(Remaining(OpenWindows(availability, date, weekday), SlotsOn(occupied, date)), slot) <==>
      SlotCovered(OpenWindows(availability, date, weekday), slot) && NothingTaken(bookings, date, slot)
  {
    BookableIff(OpenWindows(availability, date, weekday), SlotsOn(occupied, date), slot);
    BookedOnClear(bookings, date, slot);
  }
}
