/**
 The edit screen's warning against what the server does. A host changes a spot's hours; the page
 merges the booked slots it fetched and warns about those no longer covered, and booking-service
 later withdraws the bookings it can no longer honour.
 */
module EditWarning {
  import opened Availability
  import opened Bookings
  import opened BookingStores
  import opened Intervals
  import opened Policy
  import opened Text
  import opened Times
  import opened Wrappers
  import S = Slots

  /** A day of slots that the slot rules accept, in plain digits. */
  predicate Accepted(slots: seq<TimeSlot>) {
    S.ValidateSlots(slots) == None && S.AllPlain(slots)
  }

  /** What a booking request is held to: real dates, accepted days, and a slot. */
  ghost predicate AcceptedBooking(booked: Days, calendar: Calendar) {
    && (forall date | date in booked :: calendar(date).Some? && Accepted(booked[date]))
    && (exists date | date in booked :: booked[date] != [])
  }

  /** Days the rule admits, no single date that has passed, and a slot. */
  ghost predicate EditBy(rule: seq<TimeSlot> -> bool, hours: Hours, from: string) {
    && (forall day: Weekday :: rule(DayOf(hours.weekly, day)))
    && (forall date | date in hours.single :: AtMost(from, date) && rule(hours.single[date]))
    && ((exists day: Weekday :: DayOf(hours.weekly, day) != []) || exists date | date in hours.single :: hours.single[date] != [])
  }

  /** An edit of the hours that can be saved. */
  ghost predicate Edit(hours: Hours, from: string) {
    EditBy(Accepted, hours, from)
  }

  // ---------------------------------------------------------------- the page

  /** The slots the fetched bookings hold, one map for all of them. */
  ghost predicate Merged(occupied: Days, rows: seq<Booking>) {
    forall date: string, slot: TimeSlot :: slot in SlotsOn(occupied, date) <==> exists row | row in rows :: slot in SlotsOn(row.booked, date)
  }

  /** A booked slot on or after `from` that no window of its date covers. */
  ghost predicate Warned(hours: Hours, occupied: Days, calendar: Calendar, from: string, date: string, slot: TimeSlot) {
    slot in SlotsOn(occupied, date) && AtMost(from, date) && !SlotCovered(PageWindows(hours, calendar, date), slot)
  }

  /** The warning names a slot of this booking. */
  ghost predicate WarnedFor(hours: Hours, occupied: Days, calendar: Calendar, from: string, row: Booking) {
    exists date: string, slot: TimeSlot :: slot in SlotsOn(row.booked, date) && Warned(hours, occupied, calendar, from, date, slot)
  }

  /** The server withdraws it when the edit arrives. */
  ghost predicate WillCancel(hours: Hours, spot: Id, at: int, calendar: Calendar, row: Booking) {
    Withdrawn(SpotUpdated(spot, Some(hours)), row, at, ByHours(calendar))
  }

  function Fetched(rows: seq<Booking>): seq<Option<Days>> {
    seq(|rows|, i requires 0 <= i < |rows| => Some(rows[i].booked))
  }

  lemma {:induction false} BookedIn(rows: seq<Booking>, date: string, slot: TimeSlot)
    ensures slot in BookedOn(Fetched(rows), date) <==> exists row | row in rows :: slot in SlotsOn(row.booked, date)
  {
    if rows != [] {
      var front, last := rows[..|rows| - 1], rows[|rows| - 1];
      assert rows == front + [last];
      assert Fetched(rows)[..|rows| - 1] == Fetched(front);
      BookedIn(front, date, slot);
    }
  }

  /** What `MergeBooked` makes of the fetched bookings is such a map. */
  lemma MergeBookedMerges(occupied: Days, rows: seq<Booking>)
    requires forall date :: SlotsOn(occupied, date) == BookedOn(Fetched(rows), date)
    ensures Merged(occupied, rows)
  {
    forall date: string, slot: TimeSlot
      ensures slot in SlotsOn(occupied, date) <==> exists row | row in rows :: slot in SlotsOn(row.booked, date)
    {
      BookedIn(rows, date, slot);
    }
  }

  // ---------------------------------------------------------------- both sides on one edit

  lemma WindowsAccepted(hours: Hours, calendar: Calendar, date: string, from: string)
    requires Edit(hours, from) && calendar(date).Some?
    ensures Accepted(PageWindows(hours, calendar, date))
  {
    SameWindows(hours, calendar, date, calendar(date).value);
  }

  /** A booking that was accepted once, under hours that can be saved. */
  lemma AcceptedIsSound(hours: Hours, booked: Days, calendar: Calendar, from: string)
    requires Edit(hours, from) && AcceptedBooking(booked, calendar)
    ensures SoundBooking(hours, booked, calendar)
  {
    forall date | date in booked ensures Sound(booked[date]) && AllClock(PageWindows(hours, calendar, date)) {
      WindowsAccepted(hours, calendar, date, from);
      ValidatedIsSound(booked[date]);
      ValidatedIsSound(PageWindows(hours, calendar, date));
    }
  }

  /** Some slot of the booking is covered by no window of its date. */
  ghost predicate Uncovered(hours: Hours, booked: Days, calendar: Calendar) {
    exists date: string, slot: TimeSlot :: slot in SlotsOn(booked, date) && !SlotCovered(PageWindows(hours, calendar, date), slot)
  }

  /** The server cancels exactly the upcoming paid bookings with a slot no window covers. */
  lemma CancelledIff(hours: Hours, spot: Id, at: int, calendar: Calendar, from: string, row: Booking)
    requires Edit(hours, from) && AcceptedBooking(row.booked, calendar)
    ensures WillCancel(hours, spot, at, calendar, row) <==> Upcoming(row, spot, at) && Uncovered(hours, row.booked, calendar)
  {
    AcceptedIsSound(hours, row.booked, calendar, from);
    FitsOrUncovered(hours, row.booked, calendar);
  }

  lemma FitsOrUncovered(hours: Hours, booked: Days, calendar: Calendar)
    requires SoundBooking(hours, booked, calendar)
    ensures Fits(hours, booked, calendar) <==> !Uncovered(hours, booked, calendar)
  {
    FitsIff(hours, booked, calendar);
    UncoveredIff(hours, booked, calendar);
  }

  lemma UncoveredIff(hours: Hours, booked: Days, calendar: Calendar)
    ensures Uncovered(hours, booked, calendar) <==>
      !forall date | date in booked :: DayCovered(PageWindows(hours, calendar, date), booked[date])
  {
    if !(forall date | date in booked :: DayCovered(PageWindows(hours, calendar, date), booked[date])) {
      var date :| date in booked && !DayCovered(PageWindows(hours, calendar, date), booked[date]);
      var i :| 0 <= i < |booked[date]| && !SlotCovered(PageWindows(hours, calendar, date), booked[date][i]);
      assert booked[date][i] in SlotsOn(booked, date);
    }
  }

  /** The warning names exactly the bookings with a slot on or after `from` that no window covers. */
  lemma WarnedIff(hours: Hours, occupied: Days, rows: seq<Booking>, calendar: Calendar, from: string, row: Booking)
    requires Merged(occupied, rows) && row in rows
    ensures WarnedFor(hours, occupied, calendar, from, row) <==>
      exists date: string, slot: TimeSlot ::
        slot in SlotsOn(row.booked, date) && AtMost(from, date) && !SlotCovered(PageWindows(hours, calendar, date), slot)
  {
  }

  // ---------------------------------------------------------------- when they agree

  /** No slot of the booking is dated before `from`. */
  ghost predicate NothingBefore(booked: Days, from: string) {
    forall date | date in booked && booked[date] != [] :: AtMost(from, date)
  }

  /** No slot of the booking is dated on or after `from`. */
  ghost predicate NothingAfter(booked: Days, from: string) {
    forall date | date in booked && booked[date] != [] :: Less(date, from)
  }

  /** A half hour that is not around the slot. */
  function Elsewhere(slot: TimeSlot): TimeSlot {
    if SlotCovers(S.HalfHour(0), slot) then S.HalfHour(30) else S.HalfHour(0)
  }

  lemma ElsewhereIsElsewhere(slot: TimeSlot)
    requires ClockSlot(slot) && TakesTime(slot)
    ensures !SlotCovers(Elsewhere(slot), slot)
  {
    S.HalfHourSlot(0);
    S.HalfHourSlot(30);
    SlotAsSpan(slot, slot);
    SlotAsSpan(S.HalfHour(0), slot);
    SlotAsSpan(S.HalfHour(30), slot);
  }

  lemma ElsewhereIsAccepted(slot: TimeSlot)
    ensures Accepted([Elsewhere(slot)])
  {
    S.OneHalfHour(0);
    S.OneHalfHour(30);
  }

  /** Every weekday open for one half hour, and the given dates as they are. */
  function OnlyOpen(window: TimeSlot, keep: Days): Hours {
    Hours(Weekly([window], [window], [window], [window], [window], [window], [window]), keep)
  }

  lemma OnlyOpenWindows(window: TimeSlot, keep: Days, calendar: Calendar, date: string)
    requires calendar(date).Some?
    ensures PageWindows(OnlyOpen(window, keep), calendar, date) == if date in keep then keep[date] else [window]
  {
    SameWindows(OnlyOpen(window, keep), calendar, date, calendar(date).value);
  }

  lemma OnlyOpenIsEdit(rule: seq<TimeSlot> -> bool, window: TimeSlot, keep: Days, from: string)
    requires rule([window]) && forall date | date in keep :: AtMost(from, date) && rule(keep[date])
    ensures EditBy(rule, OnlyOpen(window, keep), from)
  {
    assert DayOf(OnlyOpen(window, keep).weekly, Monday) == [window];
  }

  lemma OneWindow(window: TimeSlot, slot: TimeSlot)
    ensures SlotCovered([window], slot) <==> SlotCovers(window, slot)
  {
    if SlotCovers(window, slot) {
      assert SlotCovers([window][0], slot);
    }
  }

  lemma AcceptedSlot(slots: seq<TimeSlot>, slot: TimeSlot)
    requires Accepted(slots) && slot in slots
    ensures ClockSlot(slot) && TakesTime(slot) && SlotCovered(slots, slot)
  {
    ValidatedIsSound(slots);
    var i :| 0 <= i < |slots| && slots[i] == slot;
    LessTotal(slot.start, slot.start);
    LessTotal(slot.end, slot.end);
    assert SlotCovers(slots[i], slot);
  }

  /** A booking that is not the server's to cancel but still to come, a live hold above all: an edit
      closes its hours, the page warns, and it stands. */
  lemma OnlyWarned(occupied: Days, rows: seq<Booking>, row: Booking, spot: Id, at: int, calendar: Calendar, from: string)
    returns (hours: Hours)
    requires Merged(occupied, rows) && row in rows && AcceptedBooking(row.booked, calendar)
    requires !Upcoming(row, spot, at) && !NothingAfter(row.booked, from)
    ensures Edit(hours, from) && WarnedFor(hours, occupied, calendar, from, row) && !WillCancel(hours, spot, at, calendar, row)
  {
    var date :| date in row.booked && row.booked[date] != [] && !Less(date, from);
    var slot := row.booked[date][0];
    AcceptedSlot(row.booked[date], slot);
    ElsewhereIsElsewhere(slot);
    ElsewhereIsAccepted(slot);
    hours := OnlyOpen(Elsewhere(slot), map[]);
    OnlyOpenIsEdit(Accepted, Elsewhere(slot), map[], from);
    OnlyOpenWindows(Elsewhere(slot), map[], calendar, date);
    OneWindow(Elsewhere(slot), slot);
    WarnedIff(hours, occupied, rows, calendar, from, row);
    assert slot in SlotsOn(row.booked, date);
  }

  /** The days of a booking on or after `from`, as windows. */
  function Kept(booked: Days, from: string): Days {
    map date | date in booked && AtMost(from, date) :: booked[date]
  }

  /** A paid booking with a day behind it: an edit keeps every day to come and drops the one that has
      passed, the page is silent, and the server cancels. */
  lemma OnlyCancelled(occupied: Days, rows: seq<Booking>, row: Booking, spot: Id, at: int, calendar: Calendar, from: string)
    returns (hours: Hours)
    requires Merged(occupied, rows) && row in rows && AcceptedBooking(row.booked, calendar)
    requires Upcoming(row, spot, at) && !NothingBefore(row.booked, from)
    ensures Edit(hours, from) && !WarnedFor(hours, occupied, calendar, from, row) && WillCancel(hours, spot, at, calendar, row)
  {
    var date :| date in row.booked && row.booked[date] != [] && !AtMost(from, date);
    var slot := row.booked[date][0];
    var keep := Kept(row.booked, from);
    AcceptedSlot(row.booked[date], slot);
    ElsewhereIsElsewhere(slot);
    ElsewhereIsAccepted(slot);
    hours := OnlyOpen(Elsewhere(slot), keep);
    OnlyOpenIsEdit(Accepted, Elsewhere(slot), keep, from);
    OnlyOpenWindows(Elsewhere(slot), keep, calendar, date);
    OneWindow(Elsewhere(slot), slot);
    assert slot in SlotsOn(row.booked, date);
    CancelledIff(hours, spot, at, calendar, from, row);
    WarnedIff(hours, occupied, rows, calendar, from, row);
    forall d: string, s: TimeSlot | s in SlotsOn(row.booked, d) && AtMost(from, d) ensures SlotCovered(PageWindows(hours, calendar, d), s) {
      OnlyOpenWindows(Elsewhere(slot), keep, calendar, d);
      AcceptedSlot(row.booked[d], s);
    }
  }

  /**
   For a booking the page fetched, the warning and the cancellation agree on every edit of the hours
   if and only if it is one the server may cancel and has no slot dated before `from`, or it is not
   and has none dated on or after `from`. So every hold still to come is warned about for nothing, and
   every paid booking with a day behind it can be cancelled without a warning.
   */
  lemma AgreeIff(occupied: Days, rows: seq<Booking>, row: Booking, spot: Id, at: int, calendar: Calendar, from: string)
    requires Merged(occupied, rows) && row in rows && AcceptedBooking(row.booked, calendar)
    ensures (forall hours | Edit(hours, from) ::
               WarnedFor(hours, occupied, calendar, from, row) <==> WillCancel(hours, spot, at, calendar, row))
       <==> if Upcoming(row, spot, at) then NothingBefore(row.booked, from) else NothingAfter(row.booked, from)
  {
    if Upcoming(row, spot, at) {
      if NothingBefore(row.booked, from) {
        forall hours | Edit(hours, from)
          ensures WarnedFor(hours, occupied, calendar, from, row) <==> WillCancel(hours, spot, at, calendar, row)
        {
          CancelledIff(hours, spot, at, calendar, from, row);
          WarnedIff(hours, occupied, rows, calendar, from, row);
        }
      } else {
        var hours := OnlyCancelled(occupied, rows, row, spot, at, calendar, from);
      }
    } else if NothingAfter(row.booked, from) {
      forall hours | Edit(hours, from) ensures !WarnedFor(hours, occupied, calendar, from, row) {
        WarnedIff(hours, occupied, rows, calendar, from, row);
      }
    } else {
      var hours := OnlyWarned(occupied, rows, row, spot, at, calendar, from);
    }
  }

  /** For what the form fetches, that is: a paid booking has no slot dated before `from`, a hold none
      dated on or after. */
  lemma FormAgreesIff(occupied: Days, rows: seq<Booking>, row: Booking, spot: Id, now: int, calendar: Calendar, from: string)
    requires forall date :: SlotsOn(occupied, date) == BookedOn(Fetched(rows), date)
    requires row in rows && AcceptedBooking(row.booked, calendar)
    requires row.spotId == spot && row.endsAt > now && (row.status == Reserved || row.status == Confirmed)
    ensures (forall hours | Edit(hours, from) ::
               WarnedFor(hours, occupied, calendar, from, row) <==> WillCancel(hours, spot, now, calendar, row))
       <==> if row.status == Confirmed then NothingBefore(row.booked, from) else NothingAfter(row.booked, from)
  {
    MergeBookedMerges(occupied, rows);
    AgreeIff(occupied, rows, row, spot, now, calendar, from);
  }

  // ---------------------------------------------------------------- two bookings on which they do not

  lemma {:induction false} LessAfter(prefix: string, a: string, b: string)
    ensures Less(prefix + a, prefix + b) <==> Less(a, b)
  {
    if prefix != [] {
      assert (prefix + a)[1..] == prefix[1..] + a && (prefix + b)[1..] == prefix[1..] + b;
      LessAfter(prefix[1..], a, b);
    } else {
      assert prefix + a == a && prefix + b == b;
    }
  }

  /** Nine to half past nine on the days given. */
  function AtNine(dates: set<string>): Days {
    map date | date in dates :: [S.HalfHour(540)]
  }

  lemma AtNineAccepted(dates: set<string>, calendar: Calendar)
    requires dates != {} && forall date | date in dates :: calendar(date).Some?
    ensures AcceptedBooking(AtNine(dates), calendar)
  {
    S.OneHalfHour(540);
    var date :| date in dates;
    assert date in AtNine(dates) && AtNine(dates)[date] != [];
  }

  lemma OneRow(row: Booking)
    ensures Merged(row.booked, [row])
  {
    assert [row][0] == row;
  }

  lemma HoldAhead(row: Booking, spot: Id, at: int, calendar: Calendar, from: string, day: string) returns (hours: Hours)
    requires row.status == Reserved && row.booked == AtNine({day}) && calendar(day).Some? && Less(from, day)
    ensures Edit(hours, from)
    ensures WarnedFor(hours, row.booked, calendar, from, row) && !WillCancel(hours, spot, at, calendar, row)
  {
    AtNineAccepted({day}, calendar);
    OneRow(row);
    LessTotal(from, day);
    assert day in row.booked && row.booked[day] != [];
    hours := OnlyWarned(row.booked, [row], row, spot, at, calendar, from);
  }

  lemma DayBehind(row: Booking, spot: Id, at: int, calendar: Calendar, past: string, from: string, day: string) returns (hours: Hours)
    requires Upcoming(row, spot, at) && row.booked == AtNine({past, day}) && calendar(past).Some? && calendar(day).Some? && Less(past, from)
    ensures Edit(hours, from)
    ensures !WarnedFor(hours, row.booked, calendar, from, row) && WillCancel(hours, spot, at, calendar, row)
  {
    AtNineAccepted({past, day}, calendar);
    OneRow(row);
    LessTotal(past, from);
    assert past in row.booked && row.booked[past] != [];
    hours := OnlyCancelled(row.booked, [row], row, spot, at, calendar, from);
  }

  lemma AugustDays()
    ensures Less("2026-08-01", "2026-08-03") && Less("2026-08-03", "2026-08-05")
  {
    assert "2026-08-01" == "2026-08-0" + "1" && "2026-08-03" == "2026-08-0" + "3" && "2026-08-05" == "2026-08-0" + "5";
    LessAfter("2026-08-0", "1", "3");
    LessAfter("2026-08-0", "3", "5");
  }

  /** A live hold on the fifth, hours edited on the third: warned about, and left alone. */
  lemma HoldIsOnlyWarned(row: Booking, spot: Id, at: int, calendar: Calendar) returns (hours: Hours)
    requires row.status == Reserved && row.booked == AtNine({"2026-08-05"}) && calendar("2026-08-05").Some?
    ensures Edit(hours, "2026-08-03")
    ensures WarnedFor(hours, row.booked, calendar, "2026-08-03", row) && !WillCancel(hours, spot, at, calendar, row)
  {
    AugustDays();
    hours := HoldAhead(row, spot, at, calendar, "2026-08-03", "2026-08-05");
  }

  /** A paid booking on the first and the fifth, hours edited on the third: cancelled, with no warning. */
  lemma PastDayIsOnlyCancelled(row: Booking, spot: Id, at: int, calendar: Calendar) returns (hours: Hours)
    requires Upcoming(row, spot, at) && row.booked == AtNine({"2026-08-01", "2026-08-05"})
    requires calendar("2026-08-01").Some? && calendar("2026-08-05").Some?
    ensures Edit(hours, "2026-08-03")
    ensures !WarnedFor(hours, row.booked, calendar, "2026-08-03", row) && WillCancel(hours, spot, at, calendar, row)
  {
    AugustDays();
    hours := DayBehind(row, spot, at, calendar, "2026-08-01", "2026-08-03", "2026-08-05");
  }
}
