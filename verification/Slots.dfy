/** The server's rules for one day's time slots, and what a day that passes them looks like. */
module Slots {
  import opened Availability
  import opened Intervals
  import opened Ranges
  import opened Text
  import opened Times
  import opened Wrappers

  const U32_MAX: nat := 0xffff_ffff

  datatype Problem = InvalidTime | OffTheGrid | EndNotAfterStart | AlreadyExists | OverlapsExisting

  /** `HH:MM` on the half hour, or what is wrong with it. */
  function CheckTime(value: string): Option<Problem> {
    var colon := FirstIndex(value, ':');
    if colon < 0 then Some(InvalidTime)
    else
      var h, m := value[..colon], value[colon + 1..];
      var hour, min := ParseUnsigned(h, U32_MAX), ParseUnsigned(m, U32_MAX);
      if hour.None? || min.None? then Some(InvalidTime)
      else if |h| == 2 && |m| == 2 && hour.value < 24 && min.value < 60 && min.value % 30 == 0 then None
      else Some(OffTheGrid)
  }

  function CheckSlot(slot: TimeSlot): Option<Problem> {
    if CheckTime(slot.start).Some? then CheckTime(slot.start)
    else if CheckTime(slot.end).Some? then CheckTime(slot.end)
    else if !Less(slot.start, slot.end) then Some(EndNotAfterStart)
    else None
  }

  function CheckPair(a: TimeSlot, b: TimeSlot): Option<Problem> {
    if a.start == b.start && a.end == b.end then Some(AlreadyExists)
    else if Less(a.start, b.end) && Less(b.start, a.end) then Some(OverlapsExisting)
    else None
  }

  /** The first complaint about a slot on its own. */
  function CheckAlone(slots: seq<TimeSlot>): Option<Problem> {
    if slots == [] then None
    else if CheckSlot(slots[0]).Some? then CheckSlot(slots[0])
    else CheckAlone(slots[1..])
  }

  function CheckAgainst(a: TimeSlot, rest: seq<TimeSlot>): Option<Problem> {
    if rest == [] then None
    else if CheckPair(a, rest[0]).Some? then CheckPair(a, rest[0])
    else CheckAgainst(a, rest[1..])
  }

  /** The first complaint about a slot and a later one. */
  function CheckPairs(slots: seq<TimeSlot>): Option<Problem> {
    if slots == [] then None
    else if CheckAgainst(slots[0], slots[1..]).Some? then CheckAgainst(slots[0], slots[1..])
    else CheckPairs(slots[1..])
  }

  function ValidateSlots(slots: seq<TimeSlot>): Option<Problem> {
    if CheckAlone(slots).Some? then CheckAlone(slots) else CheckPairs(slots)
  }

  // ---------------------------------------------------------------- what a complaint means

  lemma {:induction false} AloneIsJust(slots: seq<TimeSlot>) returns (i: nat)
    requires CheckAlone(slots).Some?
    ensures i < |slots| && CheckSlot(slots[i]) == CheckAlone(slots)
  {
    if CheckSlot(slots[0]).Some? {
      i := 0;
    } else {
      var k := AloneIsJust(slots[1..]);
      i := k + 1;
    }
  }

  lemma {:induction false} AgainstIsJust(a: TimeSlot, rest: seq<TimeSlot>) returns (j: nat)
    requires CheckAgainst(a, rest).Some?
    ensures j < |rest| && CheckPair(a, rest[j]) == CheckAgainst(a, rest)
  {
    if CheckPair(a, rest[0]).Some? {
      j := 0;
    } else {
      var k := AgainstIsJust(a, rest[1..]);
      j := k + 1;
    }
  }

  lemma {:induction false} PairsAreJust(slots: seq<TimeSlot>) returns (i: nat, j: nat)
    requires CheckPairs(slots).Some?
    ensures i < j < |slots| && CheckPair(slots[i], slots[j]) == CheckPairs(slots)
  {
    if CheckAgainst(slots[0], slots[1..]).Some? {
      var k := AgainstIsJust(slots[0], slots[1..]);
      i, j := 0, k + 1;
    } else {
      var p, q := PairsAreJust(slots[1..]);
      i, j := p + 1, q + 1;
    }
  }

  /** A time in digits around its first colon. */
  predicate Numeric(time: string) {
    var colon := FirstIndex(time, ':');
    colon >= 0 && ParseUnsigned(time[..colon], U32_MAX).Some? && ParseUnsigned(time[colon + 1..], U32_MAX).Some?
  }

  lemma WhyTime(time: string)
    ensures CheckTime(time) == Some(InvalidTime) <==> !Numeric(time)
    ensures CheckTime(time).Some? ==> CheckTime(time) == Some(InvalidTime) || CheckTime(time) == Some(OffTheGrid)
  {
  }

  /** What is wrong with a slot on its own: a time that is not numbers around a colon, a time that is and
      is refused, or good times that take no time. */
  ghost predicate WrongAlone(problem: Problem, slot: TimeSlot) {
    match problem
    case InvalidTime => !Numeric(slot.start) || !Numeric(slot.end)
    case OffTheGrid => (Numeric(slot.start) && CheckTime(slot.start).Some?) || (Numeric(slot.end) && CheckTime(slot.end).Some?)
    case EndNotAfterStart => CheckTime(slot.start) == None && CheckTime(slot.end) == None && !Less(slot.start, slot.end)
    case _ => false
  }

  /** What is wrong with two: they are equal, or they are not and overlap. */
  ghost predicate WrongTogether(problem: Problem, a: TimeSlot, b: TimeSlot) {
    match problem
    case AlreadyExists => a == b
    case OverlapsExisting => a != b && Less(a.start, b.end) && Less(b.start, a.end)
    case _ => false
  }

  lemma WhyAlone(slot: TimeSlot)
    requires CheckSlot(slot).Some?
    ensures WrongAlone(CheckSlot(slot).value, slot)
  {
    WhyTime(slot.start);
    WhyTime(slot.end);
  }

  /** A complaint about a day names what is wrong with a slot of it, or with two. */
  lemma ComplaintIsJust(slots: seq<TimeSlot>)
    requires ValidateSlots(slots).Some?
    ensures var problem := ValidateSlots(slots).value;
      || (exists i | 0 <= i < |slots| :: WrongAlone(problem, slots[i]))
      || (exists i, j | 0 <= i < j < |slots| :: WrongTogether(problem, slots[i], slots[j]))
  {
    if CheckAlone(slots).Some? {
      var i := AloneIsJust(slots);
      WhyAlone(slots[i]);
    } else {
      var i, j := PairsAreJust(slots);
      assert WrongTogether(CheckPairs(slots).value, slots[i], slots[j]);
    }
  }

  // ---------------------------------------------------------------- what passes

  ghost predicate AllPass(slots: seq<TimeSlot>) {
    forall i :: 0 <= i < |slots| ==> CheckSlot(slots[i]) == None
  }

  lemma {:induction false} AloneIff(slots: seq<TimeSlot>)
    ensures CheckAlone(slots) == None <==> AllPass(slots)
  {
    if slots != [] {
      AloneIff(slots[1..]);
      assert slots == [slots[0]] + slots[1..];
    }
  }

  lemma {:induction false} AgainstIff(a: TimeSlot, rest: seq<TimeSlot>)
    ensures CheckAgainst(a, rest) == None <==> forall i :: 0 <= i < |rest| ==> CheckPair(a, rest[i]) == None
  {
    if rest != [] {
      AgainstIff(a, rest[1..]);
      assert forall i :: 0 < i < |rest| ==> rest[i] == rest[1..][i - 1];
    }
  }

  ghost predicate PairsPass(slots: seq<TimeSlot>) {
    forall i, j :: 0 <= i < j < |slots| ==> CheckPair(slots[i], slots[j]) == None
  }

  lemma {:induction false} PairsIff(slots: seq<TimeSlot>)
    ensures CheckPairs(slots) == None <==> PairsPass(slots)
  {
    if slots != [] {
      var rest := slots[1..];
      PairsIff(rest);
      AgainstIff(slots[0], rest);
      if PairsPass(slots) {
        forall i | 0 <= i < |rest| ensures CheckPair(slots[0], rest[i]) == None {
          assert rest[i] == slots[i + 1];
        }
        forall i, j | 0 <= i < j < |rest| ensures CheckPair(rest[i], rest[j]) == None {
          assert rest[i] == slots[i + 1] && rest[j] == slots[j + 1];
        }
      }
      if CheckPairs(slots) == None {
        forall i, j | 0 <= i < j < |slots| ensures CheckPair(slots[i], slots[j]) == None {
          assert slots[j] == rest[j - 1] && (i > 0 ==> slots[i] == rest[i - 1]);
        }
      }
    }
  }

  /** On the half hour and before midnight, in plain digits. */
  predicate OnTheGrid(time: string) {
    Clock(time) && ToMin(time) < 1440 && ToMin(time) % 30 == 0
  }

  /** The minutes an accepted time stands for. */
  ghost function MinutesOf(time: string): nat
    requires CheckTime(time) == None
  {
    var colon := FirstIndex(time, ':');
    60 * ParseUnsigned(time[..colon], U32_MAX).value + ParseUnsigned(time[colon + 1..], U32_MAX).value
  }

  /** One half of a time: two digits, or a `+` and one. */
  predicate Half(s: string, max: nat) {
    |s| == 2 && ParseUnsigned(s, U32_MAX).Some? && ParseUnsigned(s, U32_MAX).value < max
  }

  /** A time is accepted exactly when it is two good halves around its first colon. */
  lemma HalvesIff(h: string, m: string)
    requires ':' !in h
    ensures CheckTime(h + [':'] + m) == None <==>
      Half(h, 24) && Half(m, 60) && ParseUnsigned(m, U32_MAX).value % 30 == 0
    ensures CheckTime(h + [':'] + m) == None ==>
      MinutesOf(h + [':'] + m) == 60 * ParseUnsigned(h, U32_MAX).value + ParseUnsigned(m, U32_MAX).value
  {
    FirstIndexIs(h, ':', m);
  }

  lemma HalfShape(s: string)
    requires |s| == 2
    ensures AllDigits(s) ==> ParseUnsigned(s, U32_MAX) == Some(Value(s)) && Value(s) == 10 * Digit(s[0]) + Digit(s[1])
    ensures ParseUnsigned(s, U32_MAX).Some? ==> (AllDigits(s) <==> '+' !in s)
    ensures ParseUnsigned(s, U32_MAX).Some? ==> ':' !in s
  {
    if AllDigits(s) {
      TwoDigitValue(s);
    }
    if s[0] == '+' {
      assert s[1..] == [s[1]];
    }
  }

  /** An accepted time splits two and two. */
  lemma AcceptedSplits(time: string)
    requires CheckTime(time) == None
    ensures |time| == 5 && time == time[..2] + [':'] + time[3..] && ':' !in time[..2]
  {
    var colon := FirstIndex(time, ':');
    assert |time[..colon]| == 2 && |time[colon + 1..]| == 2;
    assert time == time[..colon] + [':'] + time[colon + 1..];
  }

  lemma Joined(h: string, m: string)
    requires |h| == |m| == 2
    ensures (h + [':'] + m)[..2] == h && (h + [':'] + m)[3..] == m
  {
  }

  lemma HalvesOnTheGrid(h: string, m: string)
    requires |h| == |m| == 2 && AllDigits(h) && AllDigits(m) && Value(h) < 24 && Value(m) < 60 && Value(m) % 30 == 0
    ensures Clock(h + [':'] + m) && ToMin(h + [':'] + m) == 60 * Value(h) + Value(m)
  {
    Joined(h, m);
    TwoDigitValue(m);
    var time := h + [':'] + m;
    assert time[0] == h[0] && time[1] == h[1] && time[3] == m[0] && time[4] == m[1];
  }

  lemma AcceptedMinutes(time: string)
    requires CheckTime(time) == None
    ensures MinutesOf(time) < 1440 && MinutesOf(time) % 30 == 0
  {
    AcceptedSplits(time);
    HalvesIff(time[..2], time[3..]);
    GridArithmetic(ParseUnsigned(time[..2], U32_MAX).value, ParseUnsigned(time[3..], U32_MAX).value);
  }

  lemma AcceptedPlain(time: string)
    requires CheckTime(time) == None && '+' !in time
    ensures OnTheGrid(time) && MinutesOf(time) == ToMin(time)
  {
    AcceptedSplits(time);
    var h, m := time[..2], time[3..];
    HalvesIff(h, m);
    HalfShape(h);
    HalfShape(m);
    HalvesOnTheGrid(h, m);
    GridArithmetic(Value(h), Value(m));
  }

  lemma GridArithmetic(h: nat, m: nat)
    requires m < 60
    ensures (60 * h + m) % 30 == m % 30
    ensures 60 * h + m < 1440 <==> h < 24
  {
    Remainder(2 * h + m / 30, m % 30);
  }

  lemma Remainder(q: nat, r: nat)
    requires r < 30
    ensures (30 * q + r) % 30 == r
  {
  }

  lemma ClockHalves(time: string)
    requires Clock(time)
    ensures time == time[..2] + [':'] + time[3..] && AllDigits(time[..2]) && AllDigits(time[3..]) && Value(time[3..]) < 60
    ensures '+' !in time && ':' !in time[..2]
  {
    TwoDigitValue(time[3..]);
  }

  lemma GridIsAccepted(time: string)
    requires OnTheGrid(time)
    ensures CheckTime(time) == None && '+' !in time && MinutesOf(time) == ToMin(time)
  {
    var h, m := time[..2], time[3..];
    ClockHalves(time);
    HalfShape(h);
    HalfShape(m);
    HalvesIff(h, m);
    GridArithmetic(Value(h), Value(m));
  }

  /** The times the server takes, short of the ones it lets a `+` into, are the half hours in `HH:MM`. */
  lemma AcceptedIff(time: string)
    ensures CheckTime(time) == None && '+' !in time <==> OnTheGrid(time)
    ensures OnTheGrid(time) ==> MinutesOf(time) == ToMin(time)
  {
    if CheckTime(time) == None && '+' !in time {
      AcceptedPlain(time);
    } else if OnTheGrid(time) {
      GridIsAccepted(time);
    }
    if OnTheGrid(time) {
      GridIsAccepted(time);
    }
  }

  /** An accepted time is spelled the one way its minutes are spelled exactly when it holds no `+`. */
  lemma CanonicalIff(time: string)
    requires CheckTime(time) == None
    ensures ToHHMM(MinutesOf(time)) == time <==> '+' !in time
    ensures OnTheGrid(ToHHMM(MinutesOf(time)))
  {
    AcceptedMinutes(time);
    ToHHMMToMin(MinutesOf(time));
    AcceptedIff(time);
    AcceptedIff(ToHHMM(MinutesOf(time)));
    if OnTheGrid(time) {
      ToMinToHHMM(time);
    }
  }

  /** Comparing an accepted time as a string gives the order of the clock. */
  ghost predicate Ordered(time: string)
    requires CheckTime(time) == None
  {
    forall other | OnTheGrid(other) ::
      && (Less(time, other) <==> MinutesOf(time) < ToMin(other))
      && (Less(other, time) <==> ToMin(other) < MinutesOf(time))
  }

  /** The rules compare times as strings; that is the clock's order exactly for times without a `+`. */
  lemma StringOrderIff(time: string)
    requires CheckTime(time) == None
    ensures Ordered(time) <==> '+' !in time
  {
    AcceptedIff(time);
    CanonicalIff(time);
    if '+' in time {
      var other := ToHHMM(MinutesOf(time));
      AcceptedMinutes(time);
      ToHHMMToMin(MinutesOf(time));
      LessTotal(time, other);
    } else {
      forall other | OnTheGrid(other)
        ensures Less(time, other) <==> MinutesOf(time) < ToMin(other)
        ensures Less(other, time) <==> ToMin(other) < MinutesOf(time)
      {
        ClockOrder(time, other);
        ClockOrder(other, time);
      }
    }
  }

  lemma NineWithAPlus()
    ensures Half("+9", 24) && ParseUnsigned("+9", U32_MAX) == Some(9)
    ensures Half("08", 24) && ParseUnsigned("08", U32_MAX) == Some(8)
    ensures Half("00", 60) && ParseUnsigned("00", U32_MAX) == Some(0)
  {
    HalfShape("00");
    HalfShape("08");
    assert "+9"[1..] == "9" && "9"[..0] == "";
    assert Value("9") == 9;
  }

  lemma PlusDay(start: string, end: string)
    requires start == "+9" + [':'] + "00" && end == "08" + [':'] + "00"
    ensures ValidateSlots([TimeSlot(start, end)]) == None
    ensures CheckTime(start) == None && MinutesOf(start) == 540
    ensures CheckTime(end) == None && MinutesOf(end) == 480
  {
    NineWithAPlus();
    HalvesIff("+9", "00");
    HalvesIff("08", "00");
    assert start[0] == '+' && end[0] == '0';
    OneSlotDay(TimeSlot(start, end));
  }

  /** A day can pass and end before it starts: nine o'clock with a plus sorts before eight. */
  lemma PlusGoesBackwards()
    ensures ValidateSlots([TimeSlot("+9:00", "08:00")]) == None
    ensures CheckTime("+9:00") == None && MinutesOf("+9:00") == 540
    ensures CheckTime("08:00") == None && MinutesOf("08:00") == 480
  {
    var start, end := "+9:00", "08:00";
    PlusDay(start, end);
  }

  lemma OneSlotDay(slot: TimeSlot)
    ensures ValidateSlots([slot]) == CheckSlot(slot)
  {
    var one, rest := [slot], [slot][1..];
    assert rest == [];
    assert CheckAlone(rest) == None && CheckAgainst(slot, rest) == None && CheckPairs(rest) == None;
    assert CheckAlone(one) == CheckSlot(slot) && CheckPairs(one) == None;
  }

  // ---------------------------------------------------------------- a day that passes

  predicate PlainSlot(slot: TimeSlot) {
    '+' !in slot.start && '+' !in slot.end
  }

  ghost predicate GridSlot(slot: TimeSlot) {
    OnTheGrid(slot.start) && OnTheGrid(slot.end) && ToMin(slot.start) < ToMin(slot.end)
  }

  /** Slots on the half-hour grid that take time and never meet. */
  ghost predicate GoodDay(slots: seq<TimeSlot>) {
    AllGrid(slots) && AllClock(slots) && Disjoint(Spans(slots))
  }

  lemma SlotIff(slot: TimeSlot)
    ensures CheckSlot(slot) == None && PlainSlot(slot) <==> GridSlot(slot)
  {
    AcceptedIff(slot.start);
    AcceptedIff(slot.end);
    if OnTheGrid(slot.start) && OnTheGrid(slot.end) {
      ClockOrder(slot.start, slot.end);
    }
  }

  ghost predicate AllGrid(slots: seq<TimeSlot>) {
    forall i :: 0 <= i < |slots| ==> GridSlot(slots[i])
  }

  predicate AllPlain(slots: seq<TimeSlot>) {
    forall i :: 0 <= i < |slots| ==> PlainSlot(slots[i])
  }

  lemma AllPassIff(slots: seq<TimeSlot>)
    ensures AllPass(slots) && AllPlain(slots) <==> AllGrid(slots)
  {
    forall i | 0 <= i < |slots| ensures CheckSlot(slots[i]) == None && PlainSlot(slots[i]) <==> GridSlot(slots[i]) {
      SlotIff(slots[i]);
    }
  }

  lemma AllPairsIff(slots: seq<TimeSlot>)
    requires AllClock(slots) && forall i :: 0 <= i < |slots| ==> TakesTime(slots[i])
    ensures PairsPass(slots) <==> Disjoint(Spans(slots))
  {
    forall i, j | 0 <= i < j < |slots|
      ensures CheckPair(slots[i], slots[j]) == None <==> !Overlaps(Spans(slots)[i], Spans(slots)[j])
    {
      SlotAsSpan(slots[i], slots[j]);
      LessTotal(slots[i].start, slots[i].end);
    }
  }

  lemma HalfHourApart(lo: int, hi: int)
    requires lo % 30 == 0 && hi % 30 == 0 && lo < hi < 1440
    ensures lo + 30 <= hi <= 1410
  {
  }

  lemma GridSlotBounds(slot: TimeSlot)
    requires GridSlot(slot)
    ensures ClockSlot(slot) && TakesTime(slot)
    ensures 0 <= SpanOf(slot).lo && SpanOf(slot).lo + 30 <= SpanOf(slot).hi <= 1410
  {
    ClockOrder(slot.start, slot.end);
    HalfHourApart(ToMin(slot.start), ToMin(slot.end));
  }

  lemma GridIsClock(slots: seq<TimeSlot>)
    requires AllGrid(slots)
    ensures AllClock(slots) && forall i :: 0 <= i < |slots| ==> TakesTime(slots[i])
    ensures forall i :: 0 <= i < |slots| ==> 0 <= Spans(slots)[i].lo && Spans(slots)[i].lo + 30 <= Spans(slots)[i].hi <= 1410
  {
    forall i | 0 <= i < |slots|
      ensures TakesTime(slots[i]) && ClockSlot(slots[i])
      ensures 0 <= SpanOf(slots[i]).lo && SpanOf(slots[i]).lo + 30 <= SpanOf(slots[i]).hi <= 1410
    {
      GridSlotBounds(slots[i]);
    }
  }

  /** What the rules accept in plain digits is exactly the good days: no more and no less. */
  lemma ValidIff(slots: seq<TimeSlot>)
    ensures ValidateSlots(slots) == None && AllPlain(slots) <==> GoodDay(slots)
  {
    AloneIff(slots);
    PairsIff(slots);
    AllPassIff(slots);
    if AllGrid(slots) {
      GridIsClock(slots);
      AllPairsIff(slots);
    }
  }

  lemma {:induction false} HalfHoursEach(spans: seq<Span>)
    requires forall i :: 0 <= i < |spans| ==> spans[i].lo + 30 <= spans[i].hi
    ensures 30 * |spans| <= Total(spans)
  {
    if spans != [] {
      HalfHoursEach(spans[..|spans| - 1]);
    }
  }

  lemma SubsetSize(a: set<int>, b: set<int>)
    requires a <= b
    ensures |a| <= |b|
  {
    assert b == a + (b - a);
  }

  lemma SpansAreBounded(spans: seq<Span>)
    requires Disjoint(spans)
    requires forall i :: 0 <= i < |spans| ==> 0 <= spans[i].lo && spans[i].lo + 30 <= spans[i].hi <= 1410
    ensures |spans| <= 47 && 30 * |spans| <= Total(spans) <= 1410
  {
    forall m | m in Minutes(spans) ensures 0 <= m < 1410 {
      MinutesAre(spans, m);
    }
    DisjointTotal(spans);
    HalfHoursEach(spans);
    SubsetSize(Minutes(spans), Range(0, 1410));
  }

  /** The last half hour a day can name starts at 23:00, so there is room for 47 slots and 1410 minutes. */
  lemma DayIsBounded(slots: seq<TimeSlot>)
    requires AllPlain(slots) && ValidateSlots(slots) == None
    ensures AllClock(slots) && |slots| <= 47 && 30 * |slots| <= Total(Spans(slots)) <= 1410
  {
    ValidIff(slots);
    GridIsClock(slots);
    SpansAreBounded(Spans(slots));
  }

  function HalfHour(lo: nat): TimeSlot {
    TimeSlot(ToHHMM(lo), ToHHMM(lo + 30))
  }

  /** Every half hour of the day up to the n-th. */
  function HalfHours(n: nat): seq<TimeSlot> {
    seq(n, i requires 0 <= i < n => HalfHour(30 * i))
  }

  lemma GridTime(m: nat)
    requires m < 1440 && m % 30 == 0
    ensures OnTheGrid(ToHHMM(m)) && ToMin(ToHHMM(m)) == m
  {
    ToHHMMToMin(m);
  }

  lemma HalfHourSlot(lo: nat)
    requires lo < 1410 && lo % 30 == 0
    ensures GridSlot(HalfHour(lo)) && SpanOf(HalfHour(lo)) == Span(lo, lo + 30)
  {
    GridTime(lo);
    GridTime(lo + 30);
  }

  /** A half hour on its own passes. */
  lemma OneHalfHour(lo: nat)
    requires lo < 1410 && lo % 30 == 0
    ensures ValidateSlots([HalfHour(lo)]) == None && AllPlain([HalfHour(lo)])
  {
    HalfHourSlot(lo);
    OneSlotGood(HalfHour(lo));
    ValidIff([HalfHour(lo)]);
  }

  /** All of the day that a slot can have. */
  function WholeDay(): TimeSlot {
    TimeSlot(ToHHMM(0), ToHHMM(1410))
  }

  lemma OneWholeDay()
    ensures GridSlot(WholeDay()) && SpanOf(WholeDay()) == Span(0, 1410)
    ensures ValidateSlots([WholeDay()]) == None && AllPlain([WholeDay()])
  {
    GridTime(0);
    GridTime(1410);
    OneSlotGood(WholeDay());
    ValidIff([WholeDay()]);
  }

  /** A slot of an accepted day lies in it. */
  lemma InTheDay(slots: seq<TimeSlot>, slot: TimeSlot)
    requires ValidateSlots(slots) == None && AllPlain(slots) && slot in slots
    ensures ClockSlot(slot) && 0 <= SpanOf(slot).lo < SpanOf(slot).hi <= 1410
  {
    ValidIff(slots);
    GoodDayIn(slots, slot);
  }

  lemma GoodDayIn(slots: seq<TimeSlot>, slot: TimeSlot)
    requires GoodDay(slots) && slot in slots
    ensures ClockSlot(slot) && 0 <= SpanOf(slot).lo < SpanOf(slot).hi <= 1410
  {
    var i :| 0 <= i < |slots| && slots[i] == slot;
    GridSlotBounds(slots[i]);
  }

  lemma OneSlotGood(slot: TimeSlot)
    requires GridSlot(slot)
    ensures GoodDay([slot])
  {
  }

  lemma HalfHourAt(n: nat, i: nat)
    requires i < n <= 47
    ensures GridSlot(HalfHours(n)[i]) && SpanOf(HalfHours(n)[i]) == Span(30 * i, 30 * i + 30)
  {
    HalfHourSlot(30 * i);
  }

  lemma HalfHoursGrid(n: nat)
    requires n <= 47
    ensures AllGrid(HalfHours(n)) && AllClock(HalfHours(n))
    ensures forall i :: 0 <= i < n ==> Spans(HalfHours(n))[i] == Span(30 * i, 30 * i + 30)
  {
    forall i | 0 <= i < n ensures GridSlot(HalfHours(n)[i]) && SpanOf(HalfHours(n)[i]) == Span(30 * i, 30 * i + 30) {
      HalfHourAt(n, i);
    }
    GridIsClock(HalfHours(n));
  }

  lemma HalfHoursAreGood(n: nat)
    requires n <= 47
    ensures GoodDay(HalfHours(n))
  {
    HalfHoursGrid(n);
  }

  /** The bound is reached: a day of all the half hours passes. */
  lemma FullDayPasses(n: nat)
    requires n <= 47
    ensures ValidateSlots(HalfHours(n)) == None && |HalfHours(n)| == n
  {
    HalfHoursAreGood(n);
    ValidIff(HalfHours(n));
  }
}
