/**
 booking-service's own check of a requested booking against a spot's hours and what is taken, and
 its agreement with what the page offers and warns about.
 */
module Policy {
  import opened Availability
  import opened Intervals
  import S = Slots
  import opened Text
  import opened Times
  import opened Wrappers

  const I32_MAX: nat := 0x7fff_ffff

  datatype Weekday = Monday | Tuesday | Wednesday | Thursday | Friday | Saturday | Sunday

  datatype Weekly = Weekly(monday: seq<TimeSlot>, tuesday: seq<TimeSlot>, wednesday: seq<TimeSlot>, thursday: seq<TimeSlot>,
                           friday: seq<TimeSlot>, saturday: seq<TimeSlot>, sunday: seq<TimeSlot>)

  datatype Hours = Hours(weekly: Weekly, single: Days)

  /** The weekday of a date, `None` for a key that is no date. */
  type Calendar = string -> Option<Weekday>

  datatype Rejection = Closed(date: string, slot: TimeSlot) | Taken(date: string, slot: TimeSlot) | Malformed

  /** The billable minutes, or why not. */
  datatype Verdict = Ok(minutes: int) | Err(rejection: Rejection)

  // ---------------------------------------------------------------- reading times

  /** A signed 32-bit parse. */
  function ParseI32(s: string): Option<int> {
    if |s| > 1 && s[0] == '-' then
      if AllDigits(s[1..]) && Value(s[1..]) <= I32_MAX + 1 then Some(0 - Value(s[1..])) else None
    else
      match ParseUnsigned(s, I32_MAX)
      case None => None
      case Some(n) => Some(n)
  }

  function MinuteOf(hhmm: string): Option<int> {
    var colon := FirstIndex(hhmm, ':');
    if colon < 0 then None
    else
      var h, m := ParseI32(hhmm[..colon]), ParseI32(hhmm[colon + 1..]);
      if h.None? || m.None? then None else Some(h.value * 60 + m.value)
  }

  /** A slot that parses and takes time. */
  function RealSpan(slot: TimeSlot): Option<Span> {
    var a, b := MinuteOf(slot.start), MinuteOf(slot.end);
    if a.None? || b.None? || b.value <= a.value then None else Some(Span(a.value, b.value))
  }

  /** Any way of reading a slot; the source reads by `RealSpan`. */
  type Reader = TimeSlot -> Option<Span>

  ghost predicate Sane(read: Reader) {
    forall slot | read(slot).Some? :: read(slot).value.lo < read(slot).value.hi
  }

  function RealSpans(read: Reader, slots: seq<TimeSlot>): seq<Span> {
    if slots == [] then []
    else
      match read(slots[|slots| - 1])
      case None => RealSpans(read, slots[..|slots| - 1])
      case Some(s) => RealSpans(read, slots[..|slots| - 1]) + [s]
  }

  // ---------------------------------------------------------------- the check

  function DayOf(weekly: Weekly, day: Weekday): seq<TimeSlot> {
    match day
    case Monday => weekly.monday
    case Tuesday => weekly.tuesday
    case Wednesday => weekly.wednesday
    case Thursday => weekly.thursday
    case Friday => weekly.friday
    case Saturday => weekly.saturday
    case Sunday => weekly.sunday
  }

  /** A single entry wins over the weekday's hours, even when it is empty. */
  function OpenOn(hours: Hours, calendar: Calendar, date: string): Option<seq<TimeSlot>> {
    if date in hours.single then Some(hours.single[date])
    else
      match calendar(date)
      case None => None
      case Some(day) => Some(DayOf(hours.weekly, day))
  }

  predicate AnyCovers(windows: seq<Span>, slot: Span) {
    exists i :: 0 <= i < |windows| && Covers(windows[i], slot)
  }

  predicate AnyOverlaps(busy: seq<Span>, slot: Span) {
    exists i :: 0 <= i < |busy| && Overlaps(busy[i], slot)
  }

  /** One slot of a request, after `accepted` were accepted before it. */
  function CheckSlot(read: Reader, date: string, open: seq<Span>, busy: seq<Span>, accepted: seq<Span>, slot: TimeSlot): Verdict {
    match read(slot)
    case None => Err(Malformed)
    case Some(s) =>
      if !AnyCovers(open, s) then Err(Closed(date, slot))
      else if AnyOverlaps(busy + accepted, s) then Err(Taken(date, slot))
      else Ok(s.hi - s.lo)
  }

  /** One verdict after another: the first complaint, or all the minutes. */
  function Then(first: Verdict, second: Verdict): Verdict {
    if first.Err? then first else if second.Err? then second else Ok(first.minutes + second.minutes)
  }

  /** The slots of one date, in order. */
  function CheckDay(read: Reader, date: string, open: seq<Span>, busy: seq<Span>, slots: seq<TimeSlot>): Verdict {
    if slots == [] then Ok(0)
    else
      var front := slots[..|slots| - 1];
      Then(CheckDay(read, date, open, busy, front), CheckSlot(read, date, open, busy, RealSpans(read, front), slots[|slots| - 1]))
  }

  function CheckDate(read: Reader, hours: Hours, booked: Days, requested: Days, calendar: Calendar, date: string): Verdict {
    match OpenOn(hours, calendar, date)
    case None => Err(Malformed)
    case Some(open) => CheckDay(read, date, RealSpans(read, open), RealSpans(read, SlotsOn(booked, date)), SlotsOn(requested, date))
  }

  /** How each date of a request fares. */
  function EachDate(read: Reader, hours: Hours, booked: Days, requested: Days, calendar: Calendar): string -> Verdict {
    date => CheckDate(read, hours, booked, requested, calendar, date)
  }

  /** Dates in the order the map gives them. */
  function InOrder(check: string -> Verdict, order: seq<string>): Verdict {
    if order == [] then Ok(0) else Then(InOrder(check, order[..|order| - 1]), check(order[|order| - 1]))
  }

  function CheckDates(read: Reader, hours: Hours, booked: Days, requested: Days, calendar: Calendar, order: seq<string>): Verdict {
    InOrder(EachDate(read, hours, booked, requested, calendar), order)
  }

  /** An empty request is refused rather than authorised for nothing. */
  function Billed(verdict: Verdict): Verdict {
    if verdict.Ok? && verdict.minutes <= 0 then Err(Malformed) else verdict
  }

  /** Every date of the request, once. */
  ghost predicate Visits(order: seq<string>, requested: Days) {
    && (forall date :: date in order <==> date in requested)
    && (forall i, j :: 0 <= i < j < |order| ==> order[i] != order[j])
  }

  // ---------------------------------------------------------------- when it says yes

  ghost predicate AllParse(read: Reader, slots: seq<TimeSlot>) {
    forall i :: 0 <= i < |slots| ==> read(slots[i]).Some?
  }

  /** Every slot takes time, fits in one open window and meets nothing busy, and no two meet. */
  ghost predicate DayAllowed(read: Reader, open: seq<Span>, busy: seq<Span>, slots: seq<TimeSlot>) {
    && AllParse(read, slots)
    && (forall s | s in RealSpans(read, slots) :: AnyCovers(open, s) && !AnyOverlaps(busy, s))
    && Disjoint(RealSpans(read, slots))
  }

  lemma RealSpansSnoc(read: Reader, slots: seq<TimeSlot>, last: TimeSlot)
    ensures RealSpans(read, slots + [last]) ==
      if read(last).None? then RealSpans(read, slots) else RealSpans(read, slots) + [read(last).value]
  {
    assert (slots + [last])[..|slots|] == slots;
  }

  lemma {:induction false} RealSpansAreReal(read: Reader, slots: seq<TimeSlot>)
    requires Sane(read)
    ensures AllReal(RealSpans(read, slots))
  {
    if slots != [] {
      RealSpansAreReal(read, slots[..|slots| - 1]);
    }
  }

  lemma OverlapsCat(a: seq<Span>, b: seq<Span>, s: Span)
    ensures AnyOverlaps(a + b, s) <==> AnyOverlaps(a, s) || AnyOverlaps(b, s)
  {
    if AnyOverlaps(a, s) {
      var i :| 0 <= i < |a| && Overlaps(a[i], s);
      assert (a + b)[i] == a[i];
    } else if AnyOverlaps(b, s) {
      var i :| 0 <= i < |b| && Overlaps(b[i], s);
      assert (a + b)[|a| + i] == b[i];
    }
  }

  lemma DisjointSnoc(spans: seq<Span>, s: Span)
    ensures Disjoint(spans + [s]) <==> Disjoint(spans) && !AnyOverlaps(spans, s)
  {
    var all := spans + [s];
    if Disjoint(all) {
      forall i, j | 0 <= i < j < |spans| ensures !Overlaps(spans[i], spans[j]) {
        assert all[i] == spans[i] && all[j] == spans[j];
      }
      forall i | 0 <= i < |spans| ensures !Overlaps(spans[i], s) {
        assert all[i] == spans[i] && all[|spans|] == s;
      }
    }
  }

  /** One more slot is accepted exactly when the day stays allowed with it. */
  lemma SlotAllowed(read: Reader, date: string, open: seq<Span>, busy: seq<Span>, slots: seq<TimeSlot>, last: TimeSlot)
    ensures DayAllowed(read, open, busy, slots + [last]) <==>
      DayAllowed(read, open, busy, slots) && CheckSlot(read, date, open, busy, RealSpans(read, slots), last).Ok?
  {
    var all := slots + [last];
    RealSpansSnoc(read, slots, last);
    assert AllParse(read, all) <==> AllParse(read, slots) && read(last).Some? by {
      assert all[|slots|] == last && forall i :: 0 <= i < |slots| ==> all[i] == slots[i];
    }
    if read(last).Some? {
      var s := read(last).value;
      OverlapsCat(busy, RealSpans(read, slots), s);
      DisjointSnoc(RealSpans(read, slots), s);
      assert forall x :: x in RealSpans(read, all) <==> x in RealSpans(read, slots) || x == s;
    }
  }

  lemma TotalSnoc(spans: seq<Span>, s: Span)
    requires s.lo < s.hi
    ensures Total(spans + [s]) == Total(spans) + (s.hi - s.lo)
  {
    assert (spans + [s])[..|spans|] == spans;
  }

  lemma SlotBilled(read: Reader, date: string, open: seq<Span>, busy: seq<Span>, slots: seq<TimeSlot>, last: TimeSlot)
    requires Sane(read) && CheckSlot(read, date, open, busy, RealSpans(read, slots), last).Ok?
    ensures Total(RealSpans(read, slots + [last])) ==
      Total(RealSpans(read, slots)) + CheckSlot(read, date, open, busy, RealSpans(read, slots), last).minutes
  {
    RealSpansSnoc(read, slots, last);
    TotalSnoc(RealSpans(read, slots), read(last).value);
  }

  lemma DaySnoc(read: Reader, date: string, open: seq<Span>, busy: seq<Span>, slots: seq<TimeSlot>, last: TimeSlot)
    ensures CheckDay(read, date, open, busy, slots + [last]) ==
      Then(CheckDay(read, date, open, busy, slots), CheckSlot(read, date, open, busy, RealSpans(read, slots), last))
  {
    assert (slots + [last])[..|slots|] == slots;
  }

  /** A day is accepted exactly when it is allowed, and then billed for every minute of it once. */
  lemma {:induction false} DayIff(read: Reader, date: string, open: seq<Span>, busy: seq<Span>, slots: seq<TimeSlot>)
    requires Sane(read)
    ensures CheckDay(read, date, open, busy, slots).Ok? <==> DayAllowed(read, open, busy, slots)
    ensures CheckDay(read, date, open, busy, slots).Ok? ==> CheckDay(read, date, open, busy, slots).minutes == Total(RealSpans(read, slots))
  {
    if slots != [] {
      var front, last := slots[..|slots| - 1], slots[|slots| - 1];
      DayIff(read, date, open, busy, front);
      assert slots == front + [last];
      DaySnoc(read, date, open, busy, front, last);
      SlotAllowed(read, date, open, busy, front, last);
      if CheckDay(read, date, open, busy, slots).Ok? {
        SlotBilled(read, date, open, busy, front, last);
      }
    }
  }

  /** What a day is billed for is the number of different minutes in it, all of them open and none
      of them taken. */
  lemma BilledMinutesAreFree(read: Reader, date: string, open: seq<Span>, busy: seq<Span>, slots: seq<TimeSlot>)
    requires Sane(read) && CheckDay(read, date, open, busy, slots).Ok?
    ensures CheckDay(read, date, open, busy, slots).minutes == |Minutes(RealSpans(read, slots))|
    ensures Minutes(RealSpans(read, slots)) <= Minutes(open) - Minutes(busy)
  {
    var spans := RealSpans(read, slots);
    DayIff(read, date, open, busy, slots);
    RealSpansAreReal(read, slots);
    DisjointTotal(spans);
    forall m | m in Minutes(spans) ensures m in Minutes(open) && m !in Minutes(busy) {
      MinutesAre(spans, m);
      MinutesAre(open, m);
      MinutesAre(busy, m);
      var s :| s in spans && s.lo <= m < s.hi;
      assert AnyCovers(open, s) && !AnyOverlaps(busy, s);
      var i :| 0 <= i < |open| && Covers(open[i], s);
      assert open[i] in open;
      if Within(busy, m) {
        var b :| b in busy && b.lo <= m < b.hi;
        var k :| 0 <= k < |busy| && busy[k] == b;
        assert Overlaps(busy[k], s);
      }
    }
  }

  lemma {:induction false} MinutesCount(read: Reader, slots: seq<TimeSlot>)
    requires Sane(read)
    ensures Total(RealSpans(read, slots)) >= 0
    ensures AllParse(read, slots) ==> (Total(RealSpans(read, slots)) > 0 <==> slots != [])
  {
    if slots != [] {
      var front, last := slots[..|slots| - 1], slots[|slots| - 1];
      MinutesCount(read, front);
      assert slots == front + [last];
      if read(last).Some? {
        RealSpansSnoc(read, front, last);
        TotalSnoc(RealSpans(read, front), read(last).value);
      }
    }
  }

  /** Every date is a date, every day of the request is allowed, and there is a slot in it. */
  ghost predicate Allowed(read: Reader, hours: Hours, booked: Days, requested: Days, calendar: Calendar) {
    && (forall date | date in requested :: DateAllowed(read, hours, booked, requested, calendar, date))
    && (exists date | date in requested :: requested[date] != [])
  }

  ghost predicate DateAllowed(read: Reader, hours: Hours, booked: Days, requested: Days, calendar: Calendar, date: string) {
    && OpenOn(hours, calendar, date).Some?
    && DayAllowed(read, RealSpans(read, OpenOn(hours, calendar, date).value), RealSpans(read, SlotsOn(booked, date)), SlotsOn(requested, date))
  }

  lemma DateIff(read: Reader, hours: Hours, booked: Days, requested: Days, calendar: Calendar, date: string)
    requires Sane(read)
    ensures CheckDate(read, hours, booked, requested, calendar, date).Ok? <==> DateAllowed(read, hours, booked, requested, calendar, date)
    ensures CheckDate(read, hours, booked, requested, calendar, date).Ok? ==>
      var minutes := CheckDate(read, hours, booked, requested, calendar, date).minutes;
      minutes >= 0 && (minutes > 0 <==> SlotsOn(requested, date) != [])
  {
    if OpenOn(hours, calendar, date).Some? {
      DayIff(read, date, RealSpans(read, OpenOn(hours, calendar, date).value), RealSpans(read, SlotsOn(booked, date)), SlotsOn(requested, date));
      MinutesCount(read, SlotsOn(requested, date));
    }
  }

  lemma {:induction false} InOrderIff(check: string -> Verdict, order: seq<string>)
    requires forall date | date in order && check(date).Ok? :: check(date).minutes >= 0
    ensures InOrder(check, order).Ok? <==> forall date | date in order :: check(date).Ok?
    ensures InOrder(check, order).Ok? ==> InOrder(check, order).minutes >= 0
    ensures InOrder(check, order).Ok? ==> (InOrder(check, order).minutes > 0 <==> exists date | date in order :: check(date).minutes > 0)
  {
    if order != [] {
      var front, last := order[..|order| - 1], order[|order| - 1];
      assert order == front + [last];
      InOrderIff(check, front);
    }
  }

  /** Whatever order the map gives its dates in, the same requests are authorised. */
  lemma CheckIff(read: Reader, hours: Hours, booked: Days, requested: Days, calendar: Calendar, order: seq<string>)
    requires Sane(read) && Visits(order, requested)
    ensures Billed(CheckDates(read, hours, booked, requested, calendar, order)).Ok? <==> Allowed(read, hours, booked, requested, calendar)
  {
    var check := EachDate(read, hours, booked, requested, calendar);
    forall date
      ensures check(date).Ok? <==> DateAllowed(read, hours, booked, requested, calendar, date)
      ensures check(date).Ok? ==> check(date).minutes >= 0 && (check(date).minutes > 0 <==> SlotsOn(requested, date) != [])
    {
      DateIff(read, hours, booked, requested, calendar, date);
    }
    InOrderIff(check, order);
  }

  /**
   A refusal names its reason. `i` is the first slot that is not accepted: unreadable, or outside every
   open window, or inside one and meeting a booking or an earlier slot of the request.
   */
  lemma {:induction false} RefusalIsJust(read: Reader, date: string, open: seq<Span>, busy: seq<Span>, slots: seq<TimeSlot>) returns (i: nat)
    requires CheckDay(read, date, open, busy, slots).Err?
    ensures i < |slots| && CheckDay(read, date, open, busy, slots[..i]).Ok?
    ensures match CheckDay(read, date, open, busy, slots).rejection
      case Malformed => read(slots[i]).None?
      case Closed(d, slot) =>
        d == date && slot == slots[i] && read(slot).Some? &&
        forall w | w in open :: !(w.lo <= read(slot).value.lo && read(slot).value.hi <= w.hi)
      case Taken(d, slot) =>
        && d == date && slot == slots[i] && read(slot).Some?
        && (exists w | w in open :: w.lo <= read(slot).value.lo && read(slot).value.hi <= w.hi)
        && (exists b | b in busy + RealSpans(read, slots[..i]) :: b.lo < read(slot).value.hi && read(slot).value.lo < b.hi)
  {
    var front, last := slots[..|slots| - 1], slots[|slots| - 1];
    if CheckDay(read, date, open, busy, front).Err? {
      i := RefusalIsJust(read, date, open, busy, front);
      assert front[..i] == slots[..i] && front[i] == slots[i];
    } else {
      i := |slots| - 1;
      WhyRefused(read, date, open, busy, RealSpans(read, front), last);
    }
  }

  lemma WhyRefused(read: Reader, date: string, open: seq<Span>, busy: seq<Span>, accepted: seq<Span>, slot: TimeSlot)
    requires CheckSlot(read, date, open, busy, accepted, slot).Err?
    ensures match CheckSlot(read, date, open, busy, accepted, slot).rejection
      case Malformed => read(slot).None?
      case Closed(d, s) =>
        d == date && s == slot && read(slot).Some? &&
        forall w | w in open :: !(w.lo <= read(slot).value.lo && read(slot).value.hi <= w.hi)
      case Taken(d, s) =>
        && d == date && s == slot && read(slot).Some?
        && (exists w | w in open :: w.lo <= read(slot).value.lo && read(slot).value.hi <= w.hi)
        && (exists b | b in busy + accepted :: b.lo < read(slot).value.hi && read(slot).value.lo < b.hi)
  {
    if read(slot).Some? {
      var s := read(slot).value;
      if AnyCovers(open, s) {
        var k :| 0 <= k < |open| && Covers(open[k], s);
        assert open[k] in open;
        var j :| 0 <= j < |busy + accepted| && Overlaps((busy + accepted)[j], s);
        assert (busy + accepted)[j] in busy + accepted;
      } else {
        forall w | w in open ensures !(w.lo <= s.lo && s.hi <= w.hi) {
          var k :| 0 <= k < |open| && open[k] == w;
          assert !Covers(open[k], s);
        }
      }
    }
  }

  lemma {:induction false} InOrderWithout(check: string -> Verdict, order: seq<string>, i: nat)
    requires i < |order| && InOrder(check, order).Ok?
    ensures var rest := order[..i] + order[i + 1..];
      check(order[i]).Ok? && InOrder(check, rest).Ok? && InOrder(check, order).minutes == InOrder(check, rest).minutes + check(order[i]).minutes
    decreases |order|
  {
    var front, last := order[..|order| - 1], order[|order| - 1];
    if i == |order| - 1 {
      assert order[..i] + order[i + 1..] == front;
    } else {
      InOrderWithout(check, front, i);
      var rest := front[..i] + front[i + 1..];
      assert order == front + [last] && order[..i] == front[..i] && order[i + 1..] == front[i + 1..] + [last];
      assert order[..i] + order[i + 1..] == rest + [last];
      InOrderSnoc(check, rest, last);
    }
  }

  lemma {:induction false} SameBill(check: string -> Verdict, one: seq<string>, other: seq<string>)
    requires multiset(one) == multiset(other) && InOrder(check, one).Ok? && InOrder(check, other).Ok?
    ensures InOrder(check, one) == InOrder(check, other)
    decreases |one|
  {
    assert |one| == |multiset(one)| == |multiset(other)| == |other|;
    if one != [] {
      var front, last := one[..|one| - 1], one[|one| - 1];
      assert one == front + [last];
      assert last in multiset(other);
      var i :| 0 <= i < |other| && other[i] == last;
      WithoutOne(front, last, other, i);
      InOrderWithout(check, other, i);
      SameBill(check, front, other[..i] + other[i + 1..]);
    }
  }

  lemma WithoutOne<T>(front: seq<T>, last: T, other: seq<T>, i: nat)
    requires i < |other| && other[i] == last && multiset(front + [last]) == multiset(other)
    ensures multiset(other[..i] + other[i + 1..]) == multiset(front)
  {
    var rest := other[..i] + other[i + 1..];
    assert other == other[..i] + [other[i]] + other[i + 1..];
    assert multiset(rest) == multiset(other) - multiset{last};
    assert multiset(front) == multiset(front + [last]) - multiset{last};
  }

  lemma {:induction false} DistinctOnce(order: seq<string>, date: string)
    requires forall i, j :: 0 <= i < j < |order| ==> order[i] != order[j]
    ensures multiset(order)[date] == if date in order then 1 else 0
  {
    if order != [] {
      var front, last := order[..|order| - 1], order[|order| - 1];
      assert order == front + [last];
      DistinctOnce(front, date);
    }
  }

  /** A request costs the same whatever order the map gives its dates in. */
  lemma BillIsOrderFree(read: Reader, hours: Hours, booked: Days, requested: Days, calendar: Calendar, one: seq<string>, other: seq<string>)
    requires Visits(one, requested) && Visits(other, requested)
    requires Billed(CheckDates(read, hours, booked, requested, calendar, one)).Ok? && Billed(CheckDates(read, hours, booked, requested, calendar, other)).Ok?
    ensures Billed(CheckDates(read, hours, booked, requested, calendar, one)) == Billed(CheckDates(read, hours, booked, requested, calendar, other))
  {
    forall date ensures multiset(one)[date] == multiset(other)[date] {
      DistinctOnce(one, date);
      DistinctOnce(other, date);
    }
    assert multiset(one) == multiset(other);
    SameBill(EachDate(read, hours, booked, requested, calendar), one, other);
  }

  // ---------------------------------------------------------------- the loops

  lemma {:induction false} RefusedDay(read: Reader, date: string, open: seq<Span>, busy: seq<Span>, slots: seq<TimeSlot>, n: nat)
    requires n <= |slots| && CheckDay(read, date, open, busy, slots[..n]).Err?
    ensures CheckDay(read, date, open, busy, slots) == CheckDay(read, date, open, busy, slots[..n])
    decreases |slots| - n
  {
    if n < |slots| {
      DaySnoc(read, date, open, busy, slots[..n], slots[n]);
      assert slots[..n] + [slots[n]] == slots[..n + 1];
      RefusedDay(read, date, open, busy, slots, n + 1);
    } else {
      assert slots[..n] == slots;
    }
  }

  /** What the i-th slot adds, given what was accepted before it. */
  lemma DayNext(read: Reader, date: string, open: seq<Span>, busy: seq<Span>, slots: seq<TimeSlot>, i: nat,
                accepted: seq<Span>, one: Verdict)
    requires i < |slots| && accepted == RealSpans(read, slots[..i])
    requires one == CheckSlot(read, date, open, busy, accepted, slots[i])
    ensures CheckDay(read, date, open, busy, slots[..i + 1]) == Then(CheckDay(read, date, open, busy, slots[..i]), one)
    ensures one.Ok? ==> read(slots[i]).Some? && RealSpans(read, slots[..i + 1]) == accepted + [read(slots[i]).value]
  {
    DaySnoc(read, date, open, busy, slots[..i], slots[i]);
    RealSpansSnoc(read, slots[..i], slots[i]);
    assert slots[..i] + [slots[i]] == slots[..i + 1];
  }

  /** The slots of one date against its open windows and what is taken. */
  method CheckSlots(read: Reader, date: string, open: seq<Span>, busy: seq<Span>, slots: seq<TimeSlot>) returns (verdict: Verdict)
    ensures verdict == CheckDay(read, date, open, busy, slots)
  {
    var accepted: seq<Span> := [];
    var minutes := 0;
    var i := 0;
    while i < |slots|
      invariant 0 <= i <= |slots|
      invariant accepted == RealSpans(read, slots[..i]) && CheckDay(read, date, open, busy, slots[..i]) == Ok(minutes)
    {
      var one := CheckSlot(read, date, open, busy, accepted, slots[i]);
      DayNext(read, date, open, busy, slots, i, accepted, one);
      if one.Err? {
        RefusedDay(read, date, open, busy, slots, i + 1);
        return one;
      }
      accepted := accepted + [read(slots[i]).value];
      minutes := minutes + one.minutes;
      i := i + 1;
    }
    assert slots[..i] == slots;
    verdict := Ok(minutes);
  }

  lemma InOrderSnoc(check: string -> Verdict, order: seq<string>, date: string)
    ensures InOrder(check, order + [date]) == Then(InOrder(check, order), check(date))
  {
    assert (order + [date])[..|order|] == order;
  }

  ghost predicate Visiting(order: seq<string>, requested: Days, left: set<string>) {
    && left <= requested.Keys
    && (forall date :: date in order <==> date in requested && date !in left)
    && (forall i, j :: 0 <= i < j < |order| ==> order[i] != order[j])
  }

  lemma VisitingSnoc(order: seq<string>, requested: Days, left: set<string>, date: string)
    requires Visiting(order, requested, left) && date in left
    ensures Visiting(order + [date], requested, left - {date})
  {
  }

  /** A complaint stands whatever dates are left to look at. */
  lemma {:induction false} RefusedInOrder(check: string -> Verdict, requested: Days, order: seq<string>, left: set<string>)
    returns (full: seq<string>)
    requires Visiting(order, requested, left) && InOrder(check, order).Err?
    ensures Visits(full, requested) && InOrder(check, full) == InOrder(check, order)
    decreases left
  {
    if left == {} {
      full := order;
    } else {
      var date :| date in left;
      InOrderSnoc(check, order, date);
      VisitingSnoc(order, requested, left, date);
      full := RefusedInOrder(check, requested, order + [date], left - {date});
    }
  }

  /** Authorises a request and returns its billable minutes. Which of several complaints is
      reported depends on the order the map gives its dates in; whether there is one does not. */
  method Check(read: Reader, hours: Hours, booked: Days, requested: Days, calendar: Calendar) returns (verdict: Verdict, ghost order: seq<string>)
    requires Sane(read)
    ensures Visits(order, requested)
    ensures verdict == Billed(CheckDates(read, hours, booked, requested, calendar, order))
    ensures verdict.Ok? <==> Allowed(read, hours, booked, requested, calendar)
  {
    verdict, order := CheckAll(EachDate(read, hours, booked, requested, calendar), requested);
    CheckIff(read, hours, booked, requested, calendar, order);
  }

  /** The dates of a request, until one complains. */
  method CheckAll(check: string -> Verdict, requested: Days) returns (verdict: Verdict, ghost order: seq<string>)
    ensures Visits(order, requested) && verdict == Billed(InOrder(check, order))
  {
    var left := requested.Keys;
    var minutes := 0;
    order := [];
    while left != {}
      invariant Visiting(order, requested, left) && InOrder(check, order) == Ok(minutes)
      decreases left
    {
      var date :| date in left;
      var day := check(date);
      InOrderSnoc(check, order, date);
      VisitingSnoc(order, requested, left, date);
      left := left - {date};
      order := order + [date];
      if day.Err? {
        order := RefusedInOrder(check, requested, order, left);
        return day, order;
      }
      minutes := minutes + day.minutes;
    }
    verdict := if minutes > 0 then Ok(minutes) else Err(Malformed);
  }

  lemma RealSpanIsSane()
    ensures Sane(RealSpan)
  {
  }

  /** The check as booking-service runs it. */
  method CheckRequest(hours: Hours, booked: Days, requested: Days, calendar: Calendar) returns (verdict: Verdict)
    ensures verdict.Ok? <==> Allowed(RealSpan, hours, booked, requested, calendar)
    ensures exists order :: Visits(order, requested) && verdict == Billed(CheckDates(RealSpan, hours, booked, requested, calendar, order))
  {
    RealSpanIsSane();
    ghost var order;
    verdict, order := Check(RealSpan, hours, booked, requested, calendar);
  }

  // ---------------------------------------------------------------- agreement with the page

  function DayName(day: Weekday): string {
    match day
    case Monday => "monday"
    case Tuesday => "tuesday"
    case Wednesday => "wednesday"
    case Thursday => "thursday"
    case Friday => "friday"
    case Saturday => "saturday"
    case Sunday => "sunday"
  }

  /** The hours as the page gets them: every weekday and every single date, under their names. */
  function Exported(hours: Hours): Option<SpotAvailability> {
    var w := hours.weekly;
    Some(SpotAvailability(
      Some(map["monday" := w.monday, "tuesday" := w.tuesday, "wednesday" := w.wednesday, "thursday" := w.thursday,
               "friday" := w.friday, "saturday" := w.saturday, "sunday" := w.sunday]),
      Some(hours.single)))
  }

  /** Both sides open the same windows on a date. */
  lemma SameWindows(hours: Hours, calendar: Calendar, date: string, day: Weekday)
    requires calendar(date) == Some(day)
    ensures OpenOn(hours, calendar, date) == Some(OpenWindows(Exported(hours), date, DayName(day)))
  {
    assert "monday"[0] == 'm' && "tuesday"[1] == 'u' && "thursday"[1] == 'h' && "saturday"[1] == 'a' && "sunday"[1] == 'u';
  }

  lemma ClockMinute(s: string)
    requires Clock(s)
    ensures MinuteOf(s) == Some(ToMin(s))
  {
    var h, m := s[..2], s[3..];
    assert s == h + [':'] + m;
    FirstIndexIs(h, ':', m);
    TwoDigitValue(h);
    TwoDigitValue(m);
    assert h[0] == s[0] && m[0] == s[3];
  }

  lemma ClockRealSpan(slot: TimeSlot)
    requires ClockSlot(slot)
    ensures RealSpan(slot) == if TakesTime(slot) then Some(SpanOf(slot)) else None
  {
    ClockMinute(slot.start);
    ClockMinute(slot.end);
    SlotAsSpan(slot, slot);
  }

  lemma CoversSnoc(windows: seq<Span>, w: Span, s: Span)
    ensures AnyCovers(windows + [w], s) <==> AnyCovers(windows, s) || Covers(w, s)
  {
    var all := windows + [w];
    assert all[|windows|] == w && forall i :: 0 <= i < |windows| ==> all[i] == windows[i];
  }

  lemma OverlapsSnoc(busy: seq<Span>, b: Span, s: Span)
    ensures AnyOverlaps(busy + [b], s) <==> AnyOverlaps(busy, s) || Overlaps(b, s)
  {
    var all := busy + [b];
    assert all[|busy|] == b && forall i :: 0 <= i < |busy| ==> all[i] == busy[i];
  }

  lemma SlotCoveredSnoc(windows: seq<TimeSlot>, w: TimeSlot, slot: TimeSlot)
    ensures SlotCovered(windows + [w], slot) <==> SlotCovered(windows, slot) || SlotCovers(w, slot)
  {
    var all := windows + [w];
    assert all[|windows|] == w && forall i :: 0 <= i < |windows| ==> all[i] == windows[i];
  }

  /** On well-formed times the parsed windows and bookings answer what the strings answer. */
  lemma {:induction false} ClockCovers(windows: seq<TimeSlot>, slot: TimeSlot)
    requires AllClock(windows) && ClockSlot(slot) && TakesTime(slot)
    ensures AnyCovers(RealSpans(RealSpan, windows), SpanOf(slot)) <==> SlotCovered(windows, slot)
  {
    if windows != [] {
      var front, last := windows[..|windows| - 1], windows[|windows| - 1];
      ClockCovers(front, slot);
      assert windows == front + [last];
      RealSpansSnoc(RealSpan, front, last);
      ClockRealSpan(last);
      SlotCoveredSnoc(front, last, slot);
      SlotAsSpan(last, slot);
      SlotAsSpan(slot, slot);
      CoversSnoc(RealSpans(RealSpan, front), SpanOf(last), SpanOf(slot));
    }
  }

  ghost predicate Meets(read: Reader, slot: TimeSlot, s: Span) {
    read(slot).Some? && Overlaps(read(slot).value, s)
  }

  lemma {:induction false} ReadOverlaps(read: Reader, busy: seq<TimeSlot>, s: Span)
    ensures AnyOverlaps(RealSpans(read, busy), s) <==> exists i :: 0 <= i < |busy| && Meets(read, busy[i], s)
  {
    if busy != [] {
      var front, last := busy[..|busy| - 1], busy[|busy| - 1];
      ReadOverlaps(read, front, s);
      assert busy == front + [last];
      RealSpansSnoc(read, front, last);
      if read(last).Some? {
        OverlapsSnoc(RealSpans(read, front), read(last).value, s);
      }
      assert forall i :: 0 <= i < |front| ==> front[i] == busy[i];
    }
  }

  lemma ClockOverlaps(busy: seq<TimeSlot>, slot: TimeSlot)
    requires AllClock(busy) && ClockSlot(slot)
    ensures AnyOverlaps(RealSpans(RealSpan, busy), SpanOf(slot)) <==> !SlotClear(busy, slot)
  {
    ReadOverlaps(RealSpan, busy, SpanOf(slot));
    forall i | 0 <= i < |busy|
      ensures Meets(RealSpan, busy[i], SpanOf(slot)) <==> TakesTime(busy[i]) && SlotOverlaps(busy[i], slot)
    {
      ClockMeets(busy[i], slot);
    }
  }

  lemma ClockMeets(busy: TimeSlot, slot: TimeSlot)
    requires ClockSlot(busy) && ClockSlot(slot)
    ensures Meets(RealSpan, busy, SpanOf(slot)) <==> TakesTime(busy) && SlotOverlaps(busy, slot)
  {
    ClockRealSpan(busy);
    SlotAsSpan(busy, slot);
  }

  /**
   What the page offers, the server authorises, and nothing else. A slot that takes time is
   covered by what the page has left of the date exactly when a request for that slot alone passes
   the check.
   */
  lemma OfferedIffAuthorised(hours: Hours, booked: Days, calendar: Calendar, date: string, day: Weekday, slot: TimeSlot)
    requires calendar(date) == Some(day)
    requires AllClock(OpenWindows(Exported(hours), date, DayName(day))) && AllClock(SlotsOn(booked, date))
    requires ClockSlot(slot) && TakesTime(slot)
    ensures SlotCovered(Remaining(OpenWindows(Exported(hours), date, DayName(day)), SlotsOn(booked, date)), slot) <==>
      Allowed(RealSpan, hours, booked, map[date := [slot]], calendar)
  {
    var open, busy := OpenWindows(Exported(hours), date, DayName(day)), SlotsOn(booked, date);
    SameWindows(hours, calendar, date, day);
    BookableIff(open, busy, slot);
    ClockCovers(open, slot);
    ClockOverlaps(busy, slot);
    OneSlot(hours, booked, calendar, date, slot, open);
  }

  lemma OneSlot(hours: Hours, booked: Days, calendar: Calendar, date: string, slot: TimeSlot, open: seq<TimeSlot>)
    requires OpenOn(hours, calendar, date) == Some(open) && ClockSlot(slot) && TakesTime(slot)
    ensures Allowed(RealSpan, hours, booked, map[date := [slot]], calendar) <==>
      AnyCovers(RealSpans(RealSpan, open), SpanOf(slot)) && !AnyOverlaps(RealSpans(RealSpan, SlotsOn(booked, date)), SpanOf(slot))
  {
    ClockRealSpan(slot);
    OneAllowed(RealSpan, hours, booked, calendar, date, slot, open);
  }

  lemma OneAllowed(read: Reader, hours: Hours, booked: Days, calendar: Calendar, date: string, slot: TimeSlot, open: seq<TimeSlot>)
    requires OpenOn(hours, calendar, date) == Some(open) && read(slot).Some?
    ensures Allowed(read, hours, booked, map[date := [slot]], calendar) <==>
      AnyCovers(RealSpans(read, open), read(slot).value) && !AnyOverlaps(RealSpans(read, SlotsOn(booked, date)), read(slot).value)
  {
    var requested := map[date := [slot]];
    OneDay(read, RealSpans(read, open), RealSpans(read, SlotsOn(booked, date)), slot);
    assert date in requested && SlotsOn(requested, date) == requested[date] == [slot];
    assert Allowed(read, hours, booked, requested, calendar) <==> DateAllowed(read, hours, booked, requested, calendar, date);
  }

  lemma OneDay(read: Reader, open: seq<Span>, busy: seq<Span>, slot: TimeSlot)
    requires read(slot).Some?
    ensures DayAllowed(read, open, busy, [slot]) <==> AnyCovers(open, read(slot).value) && !AnyOverlaps(busy, read(slot).value)
  {
    RealSpansSnoc(read, [], slot);
    assert [] + [slot] == [slot];
    assert RealSpans(read, [slot]) == [read(slot).value];
    assert read(slot).value in RealSpans(read, [slot]);
  }

  // ---------------------------------------------------------------- a booking after the hours change

  /** Whether a booking still sits inside the hours: nothing is passed as taken. */
  ghost predicate Fits(hours: Hours, booked: Days, calendar: Calendar) {
    Allowed(RealSpan, hours, map[], booked, calendar)
  }

  /** A day of slots that was accepted once: well-formed, taking time, not meeting. */
  ghost predicate Sound(slots: seq<TimeSlot>) {
    AllClock(slots) && (forall i :: 0 <= i < |slots| ==> TakesTime(slots[i])) && Disjoint(Spans(slots))
  }

  /** The slot rules a request is held to, in plain digits, leave only such days. */
  lemma ValidatedIsSound(slots: seq<TimeSlot>)
    requires S.ValidateSlots(slots) == None && S.AllPlain(slots)
    ensures Sound(slots)
  {
    S.ValidIff(slots);
    S.GridIsClock(slots);
  }

  /** A booking of such days, on real dates, with a slot in it, and hours that are well-formed too. */
  ghost predicate SoundBooking(hours: Hours, booked: Days, calendar: Calendar) {
    && (forall date | date in booked :: calendar(date).Some? && Sound(booked[date]) && AllClock(PageWindows(hours, calendar, date)))
    && (exists date | date in booked :: booked[date] != [])
  }

  /** The windows the page resolves for a date. */
  function PageWindows(hours: Hours, calendar: Calendar, date: string): seq<TimeSlot> {
    match calendar(date)
    case None => []
    case Some(day) => OpenWindows(Exported(hours), date, DayName(day))
  }

  ghost predicate DayCovered(windows: seq<TimeSlot>, slots: seq<TimeSlot>) {
    forall i :: 0 <= i < |slots| ==> SlotCovered(windows, slots[i])
  }

  lemma {:induction false} ReadAll(read: Reader, slots: seq<TimeSlot>, spans: seq<Span>)
    requires |spans| == |slots| && forall i :: 0 <= i < |slots| ==> read(slots[i]) == Some(spans[i])
    ensures RealSpans(read, slots) == spans
  {
    if slots != [] {
      ReadAll(read, slots[..|slots| - 1], spans[..|slots| - 1]);
    }
  }

  lemma SoundSpans(slots: seq<TimeSlot>)
    requires AllClock(slots) && forall i :: 0 <= i < |slots| ==> TakesTime(slots[i])
    ensures RealSpans(RealSpan, slots) == Spans(slots) && AllParse(RealSpan, slots)
  {
    forall i | 0 <= i < |slots| ensures RealSpan(slots[i]) == Some(Spans(slots)[i]) {
      ClockRealSpan(slots[i]);
    }
    ReadAll(RealSpan, slots, Spans(slots));
  }

  lemma DayFits(windows: seq<TimeSlot>, slots: seq<TimeSlot>)
    requires Sound(slots) && AllClock(windows)
    ensures DayAllowed(RealSpan, RealSpans(RealSpan, windows), [], slots) <==> DayCovered(windows, slots)
  {
    SoundSpans(slots);
    forall i | 0 <= i < |slots| ensures AnyCovers(RealSpans(RealSpan, windows), Spans(slots)[i]) <==> SlotCovered(windows, slots[i]) {
      ClockCovers(windows, slots[i]);
    }
    forall i | 0 <= i < |slots| ensures Spans(slots)[i] in Spans(slots) {
    }
  }

  /** A booking still fits exactly when every slot of it is covered by one window of its date, by the
      page's own comparison. */
  lemma FitsIff(hours: Hours, booked: Days, calendar: Calendar)
    requires SoundBooking(hours, booked, calendar)
    ensures Fits(hours, booked, calendar) <==>
      forall date | date in booked :: DayCovered(PageWindows(hours, calendar, date), booked[date])
  {
    var none: Days := map[];
    forall date | date in booked
      ensures DateAllowed(RealSpan, hours, none, booked, calendar, date) <==> DayCovered(PageWindows(hours, calendar, date), booked[date])
    {
      SameWindows(hours, calendar, date, calendar(date).value);
      DayFits(PageWindows(hours, calendar, date), booked[date]);
      assert RealSpans(RealSpan, SlotsOn(none, date)) == [];
    }
  }
}
