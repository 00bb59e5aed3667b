/**
 The edit screen as a whole: when the page warns of something exactly when the server cancels
 something, for a page of bookings that do not meet.
 */
module EditPages {
  import opened Availability
  import opened Bookings
  import opened BookingStores
  import opened EditWarning
  import opened Intervals
  import opened Policy
  import opened Text
  import opened Times
  import opened Wrappers
  import R = Reservations
  import S = Slots

  /** The page and the server see one of the bookings alike on every edit, as `AgreeIff` has it. */
  ghost predicate Alike(row: Booking, spot: Id, at: int, from: string) {
    if Upcoming(row, spot, at) then NothingBefore(row.booked, from) else NothingAfter(row.booked, from)
  }

  ghost predicate PageWarns(hours: Hours, occupied: Days, calendar: Calendar, from: string) {
    exists date: string, slot: TimeSlot :: Warned(hours, occupied, calendar, from, date, slot)
  }

  ghost predicate ServerCancels(hours: Hours, rows: seq<Booking>, spot: Id, at: int, calendar: Calendar) {
    exists row | row in rows :: WillCancel(hours, spot, at, calendar, row)
  }

  /** The bookings were accepted, and no two of them meet, as no two in the database do. */
  ghost predicate OnePage(rows: seq<Booking>, calendar: Calendar) {
    && (forall row | row in rows :: AcceptedBooking(row.booked, calendar))
    && (forall i, j :: 0 <= i < j < |rows| ==> R.Apart(RealSpan, rows[i].booked, rows[j].booked))
  }

  lemma PageAgrees(hours: Hours, occupied: Days, rows: seq<Booking>, spot: Id, at: int, calendar: Calendar, from: string)
    requires Merged(occupied, rows) && Edit(hours, from)
    requires forall row | row in rows :: AcceptedBooking(row.booked, calendar) && Alike(row, spot, at, from)
    ensures PageWarns(hours, occupied, calendar, from) <==> ServerCancels(hours, rows, spot, at, calendar)
  {
    forall row | row in rows
      ensures WarnedFor(hours, occupied, calendar, from, row) <==> WillCancel(hours, spot, at, calendar, row)
    {
      AgreeIff(occupied, rows, row, spot, at, calendar, from);
    }
    if date: string, slot: TimeSlot :| Warned(hours, occupied, calendar, from, date, slot) {
      var row :| row in rows && slot in SlotsOn(row.booked, date);
      assert WarnedFor(hours, occupied, calendar, from, row);
    }
  }

  /** Every weekday open where it does not help, and on the dates to come all day. */
  function WholeDays(dates: set<string>): Days {
    map date | date in dates :: [S.WholeDay()]
  }

  lemma WholeDayCovers(slots: seq<TimeSlot>, slot: TimeSlot)
    requires Accepted(slots) && slot in slots
    ensures SlotCovers(S.WholeDay(), slot)
  {
    S.OneWholeDay();
    S.InTheDay(slots, slot);
    SlotAsSpan(S.WholeDay(), slot);
  }

  /** The dates on or after `from` that the page has slots for. */
  function Ahead(occupied: Days, from: string): set<string> {
    set date | date in occupied && AtMost(from, date)
  }

  lemma AheadCovered(occupied: Days, rows: seq<Booking>, calendar: Calendar, from: string, window: TimeSlot, date: string, slot: TimeSlot)
    requires Merged(occupied, rows) && (forall row | row in rows :: AcceptedBooking(row.booked, calendar))
    requires slot in SlotsOn(occupied, date) && AtMost(from, date)
    ensures SlotCovered(PageWindows(OnlyOpen(window, WholeDays(Ahead(occupied, from))), calendar, date), slot)
  {
    var row :| row in rows && slot in SlotsOn(row.booked, date);
    assert date in row.booked && calendar(date).Some?;
    WholeDayCovers(row.booked[date], slot);
    OnlyOpenWindows(window, WholeDays(Ahead(occupied, from)), calendar, date);
    OneWindow(S.WholeDay(), slot);
  }

  /** A paid booking with a day behind it: some edit makes the server cancel it, and the page says
      nothing about anything. */
  lemma SilentPage(occupied: Days, rows: seq<Booking>, row: Booking, spot: Id, at: int, calendar: Calendar, from: string)
    returns (hours: Hours)
    requires Merged(occupied, rows) && row in rows && forall row | row in rows :: AcceptedBooking(row.booked, calendar)
    requires Upcoming(row, spot, at) && !NothingBefore(row.booked, from)
    ensures Edit(hours, from) && !PageWarns(hours, occupied, calendar, from) && ServerCancels(hours, rows, spot, at, calendar)
  {
    var date :| date in row.booked && row.booked[date] != [] && !AtMost(from, date);
    var slot, keep := row.booked[date][0], WholeDays(Ahead(occupied, from));
    AcceptedSlot(row.booked[date], slot);
    ElsewhereIsElsewhere(slot);
    ElsewhereIsAccepted(slot);
    S.OneWholeDay();
    hours := OnlyOpen(Elsewhere(slot), keep);
    OnlyOpenIsEdit(Accepted, Elsewhere(slot), keep, from);
    OnlyOpenWindows(Elsewhere(slot), keep, calendar, date);
    OneWindow(Elsewhere(slot), slot);
    assert slot in SlotsOn(row.booked, date);
    CancelledIff(hours, spot, at, calendar, from, row);
    forall d: string, s: TimeSlot ensures !Warned(hours, occupied, calendar, from, d, s) {
      if s in SlotsOn(occupied, d) && AtMost(from, d) {
        AheadCovered(occupied, rows, calendar, from, Elsewhere(slot), d, s);
      }
    }
  }

  /** Accepted days are the good ones. */
  lemma AcceptedGood(slots: seq<TimeSlot>)
    ensures Accepted(slots) <==> S.GoodDay(slots)
  {
    S.ValidIff(slots);
  }

  lemma GoodRead(slots: seq<TimeSlot>, slot: TimeSlot)
    requires S.GoodDay(slots) && slot in slots
    ensures ClockSlot(slot) && TakesTime(slot) && RealSpan(slot) == Some(SpanOf(slot))
  {
    S.GoodDayIn(slots, slot);
    SlotAsSpan(slot, slot);
    ClockRealSpan(slot);
  }

  lemma ApartSpans(read: Reader, a: Days, b: Days, date: string, x: TimeSlot, y: TimeSlot)
    requires R.Apart(read, a, b) && x in SlotsOn(a, date) && y in SlotsOn(b, date) && read(x).Some? && read(y).Some?
    ensures !Overlaps(read(x).value, read(y).value)
  {
    R.ReadIn(read, SlotsOn(a, date), read(x).value);
    R.ReadIn(read, SlotsOn(b, date), read(y).value);
  }

  /** Slots of two bookings that do not meet. */
  lemma ApartSlots(a: Days, b: Days, date: string, x: TimeSlot, y: TimeSlot)
    requires S.GoodDay(SlotsOn(a, date)) && S.GoodDay(SlotsOn(b, date)) && R.Apart(RealSpan, a, b)
    requires x in SlotsOn(a, date) && y in SlotsOn(b, date)
    ensures !SlotOverlaps(x, y) && !SlotCovers(x, y) && !SlotCovers(y, x)
  {
    GoodRead(SlotsOn(a, date), x);
    GoodRead(SlotsOn(b, date), y);
    ApartSpans(RealSpan, a, b, date, x, y);
    ApartByClock(x, y);
  }

  lemma ApartByClock(x: TimeSlot, y: TimeSlot)
    requires ClockSlot(x) && ClockSlot(y) && TakesTime(x) && TakesTime(y) && !Overlaps(SpanOf(x), SpanOf(y))
    ensures !SlotOverlaps(x, y) && !SlotCovers(x, y) && !SlotCovers(y, x)
  {
    SlotAsSpan(x, y);
    SlotAsSpan(y, x);
  }

  /** No slot of the one meets or covers a slot of the other. */
  ghost predicate Clear(a: seq<TimeSlot>, b: seq<TimeSlot>) {
    forall x, y | x in a && y in b :: !SlotOverlaps(x, y) && !SlotCovers(x, y) && !SlotCovers(y, x)
  }

  /** Good days that keep clear of each other are a good day together. */
  lemma GoodCat(a: seq<TimeSlot>, b: seq<TimeSlot>)
    requires S.GoodDay(a) && S.GoodDay(b) && Clear(a, b)
    ensures S.GoodDay(a + b)
  {
    assert Spans(a + b) == Spans(a) + Spans(b);
    forall i, j | 0 <= i < j < |a + b| ensures !Overlaps(Spans(a + b)[i], Spans(a + b)[j]) {
      if j < |a| {
        assert Spans(a + b)[i] == Spans(a)[i] && Spans(a + b)[j] == Spans(a)[j];
      } else if i >= |a| {
        assert Spans(a + b)[i] == Spans(b)[i - |a|] && Spans(a + b)[j] == Spans(b)[j - |a|];
      } else {
        assert a[i] in a && b[j - |a|] in b;
        SlotAsSpan(a[i], b[j - |a|]);
      }
    }
  }

  /** Every booking's days are good, and keep clear of every other's. */
  ghost predicate GoodPage(rows: seq<Booking>) {
    && (forall row, date | row in rows :: S.GoodDay(SlotsOn(row.booked, date)))
    && (forall i, j, date | 0 <= i < j < |rows| :: Clear(SlotsOn(rows[i].booked, date), SlotsOn(rows[j].booked, date)))
  }

  lemma OnePageIsGood(rows: seq<Booking>, calendar: Calendar)
    requires OnePage(rows, calendar)
    ensures GoodPage(rows)
  {
    forall row, date | row in rows ensures S.GoodDay(SlotsOn(row.booked, date)) {
      AcceptedGood(SlotsOn(row.booked, date));
    }
    forall i, j, date | 0 <= i < j < |rows| ensures Clear(SlotsOn(rows[i].booked, date), SlotsOn(rows[j].booked, date)) {
      forall x, y | x in SlotsOn(rows[i].booked, date) && y in SlotsOn(rows[j].booked, date)
        ensures !SlotOverlaps(x, y) && !SlotCovers(x, y) && !SlotCovers(y, x)
      {
        ApartSlots(rows[i].booked, rows[j].booked, date, x, y);
      }
    }
  }

  lemma GoodPageFront(rows: seq<Booking>, row: Booking, date: string)
    requires GoodPage(rows) && rows != []
    ensures GoodPage(rows[..|rows| - 1]) && S.GoodDay(SlotsOn(rows[|rows| - 1].booked, date))
    ensures row in rows[..|rows| - 1] ==> Clear(SlotsOn(row.booked, date), SlotsOn(rows[|rows| - 1].booked, date))
  {
    var front := rows[..|rows| - 1];
    assert forall i :: 0 <= i < |front| ==> front[i] == rows[i];
    assert rows[|rows| - 1] in rows;
  }

  /** The slots of the paid bookings still to come, on one date. */
  function PaidDay(rows: seq<Booking>, spot: Id, at: int, date: string): seq<TimeSlot> {
    if rows == [] then []
    else
      var last := rows[|rows| - 1];
      PaidDay(rows[..|rows| - 1], spot, at, date) + if Upcoming(last, spot, at) then SlotsOn(last.booked, date) else []
  }

  lemma {:induction false} PaidIn(rows: seq<Booking>, spot: Id, at: int, date: string, x: TimeSlot) returns (row: Booking)
    requires x in PaidDay(rows, spot, at, date)
    ensures row in rows && Upcoming(row, spot, at) && x in SlotsOn(row.booked, date)
    decreases |rows|
  {
    var front, last := rows[..|rows| - 1], rows[|rows| - 1];
    if x in PaidDay(front, spot, at, date) {
      row := PaidIn(front, spot, at, date, x);
    } else {
      row := last;
    }
  }

  lemma {:induction false} InPaid(rows: seq<Booking>, spot: Id, at: int, date: string, x: TimeSlot, row: Booking)
    requires row in rows && Upcoming(row, spot, at) && x in SlotsOn(row.booked, date)
    ensures x in PaidDay(rows, spot, at, date)
    decreases |rows|
  {
    var front, last := rows[..|rows| - 1], rows[|rows| - 1];
    assert rows == front + [last];
    if row != last {
      InPaid(front, spot, at, date, x, row);
    }
  }

  lemma PaidDayClear(rows: seq<Booking>, spot: Id, at: int, date: string)
    requires GoodPage(rows) && rows != []
    ensures Clear(PaidDay(rows[..|rows| - 1], spot, at, date), SlotsOn(rows[|rows| - 1].booked, date))
  {
    var front, last := rows[..|rows| - 1], rows[|rows| - 1];
    forall x, y | x in PaidDay(front, spot, at, date) && y in SlotsOn(last.booked, date)
      ensures !SlotOverlaps(x, y) && !SlotCovers(x, y) && !SlotCovers(y, x)
    {
      var row := PaidIn(front, spot, at, date, x);
      GoodPageFront(rows, row, date);
    }
  }

  lemma NoSlotsIsGood()
    ensures S.GoodDay([])
  {
    var none: seq<TimeSlot> := [];
    assert Spans(none) == [];
  }

  /** What the paid bookings of a page hold on one date is a good day. */
  lemma {:induction false} PaidDayIsGood(rows: seq<Booking>, spot: Id, at: int, date: string)
    requires GoodPage(rows)
    ensures S.GoodDay(PaidDay(rows, spot, at, date))
    decreases |rows|
  {
    if rows == [] {
      NoSlotsIsGood();
    } else {
      var front, last := rows[..|rows| - 1], rows[|rows| - 1];
      GoodPageFront(rows, last, date);
      PaidDayIsGood(front, spot, at, date);
      PaidDayClear(rows, spot, at, date);
      PaidDayGrows(front, last, spot, at, date);
      assert rows == front + [last];
    }
  }

  lemma PaidDayGrows(front: seq<Booking>, last: Booking, spot: Id, at: int, date: string)
    requires S.GoodDay(PaidDay(front, spot, at, date)) && S.GoodDay(SlotsOn(last.booked, date))
    requires Clear(PaidDay(front, spot, at, date), SlotsOn(last.booked, date))
    ensures S.GoodDay(PaidDay(front + [last], spot, at, date))
  {
    PaidDaySnoc(front, last, spot, at, date);
    GoodCat(PaidDay(front, spot, at, date), SlotsOn(last.booked, date));
  }

  lemma PaidDaySnoc(front: seq<Booking>, last: Booking, spot: Id, at: int, date: string)
    ensures PaidDay(front + [last], spot, at, date) ==
      if Upcoming(last, spot, at) then PaidDay(front, spot, at, date) + SlotsOn(last.booked, date) else PaidDay(front, spot, at, date)
  {
    assert (front + [last])[..|front|] == front;
  }

  /** Of two bookings on one page, neither covers a slot of the other. */
  lemma PageClear(rows: seq<Booking>, a: Booking, b: Booking, date: string, x: TimeSlot, y: TimeSlot)
    requires GoodPage(rows) && a in rows && b in rows && a != b && x in SlotsOn(a.booked, date) && y in SlotsOn(b.booked, date)
    ensures !SlotCovers(x, y)
  {
    var i :| 0 <= i < |rows| && rows[i] == a;
    var j :| 0 <= j < |rows| && rows[j] == b;
    if i < j {
      assert Clear(SlotsOn(rows[i].booked, date), SlotsOn(rows[j].booked, date));
    } else {
      assert Clear(SlotsOn(rows[j].booked, date), SlotsOn(rows[i].booked, date));
    }
  }

  /** Windows for the dates: what the paid bookings hold on them. */
  function PaidDays(rows: seq<Booking>, spot: Id, at: int, dates: set<string>): Days {
    map date | date in dates :: PaidDay(rows, spot, at, date)
  }

  /** A booking that is not the server's to cancel, with a slot to come: some edit makes the page warn
      of it, and the server cancels nothing at all. */
  lemma NeedlessPage(occupied: Days, rows: seq<Booking>, row: Booking, spot: Id, at: int, calendar: Calendar, from: string)
    returns (hours: Hours)
    requires Merged(occupied, rows) && row in rows && OnePage(rows, calendar)
    requires !Upcoming(row, spot, at) && !NothingAfter(row.booked, from)
    requires forall row | row in rows && Upcoming(row, spot, at) :: NothingBefore(row.booked, from)
    ensures Edit(hours, from) && PageWarns(hours, occupied, calendar, from) && !ServerCancels(hours, rows, spot, at, calendar)
  {
    var date :| date in row.booked && row.booked[date] != [] && !Less(date, from);
    var slot, keep := row.booked[date][0], PaidDays(rows, spot, at, Ahead(occupied, from));
    AcceptedSlot(row.booked[date], slot);
    ElsewhereIsElsewhere(slot);
    ElsewhereIsAccepted(slot);
    OnePageIsGood(rows, calendar);
    hours := OnlyOpen(Elsewhere(slot), keep);
    PaidDaysEdit(rows, spot, at, occupied, from, Elsewhere(slot));
    StillWarned(occupied, rows, row, spot, at, calendar, from, date, slot);
    forall other | other in rows ensures !WillCancel(hours, spot, at, calendar, other) {
      NoneCancelled(occupied, rows, other, spot, at, calendar, from, Elsewhere(slot));
    }
  }

  lemma PaidDaysEdit(rows: seq<Booking>, spot: Id, at: int, occupied: Days, from: string, window: TimeSlot)
    requires GoodPage(rows) && Accepted([window])
    ensures Edit(OnlyOpen(window, PaidDays(rows, spot, at, Ahead(occupied, from))), from)
  {
    var keep := PaidDays(rows, spot, at, Ahead(occupied, from));
    forall date | date in keep ensures AtMost(from, date) && Accepted(keep[date]) {
      PaidDayIsGood(rows, spot, at, date);
      AcceptedGood(keep[date]);
    }
    OnlyOpenIsEdit(Accepted, window, keep, from);
  }

  lemma StillWarned(occupied: Days, rows: seq<Booking>, row: Booking, spot: Id, at: int, calendar: Calendar, from: string,
                    date: string, slot: TimeSlot)
    requires Merged(occupied, rows) && GoodPage(rows) && row in rows && !Upcoming(row, spot, at)
    requires slot in SlotsOn(row.booked, date) && AtMost(from, date) && calendar(date).Some?
    requires !SlotCovers(Elsewhere(slot), slot)
    ensures Warned(OnlyOpen(Elsewhere(slot), PaidDays(rows, spot, at, Ahead(occupied, from))), occupied, calendar, from, date, slot)
  {
    var keep := PaidDays(rows, spot, at, Ahead(occupied, from));
    OnlyOpenWindows(Elsewhere(slot), keep, calendar, date);
    OneWindow(Elsewhere(slot), slot);
    NotCovered(rows, row, spot, at, date, slot);
    assert slot in SlotsOn(occupied, date);
  }

  lemma NotCovered(rows: seq<Booking>, row: Booking, spot: Id, at: int, date: string, slot: TimeSlot)
    requires GoodPage(rows) && row in rows && !Upcoming(row, spot, at) && slot in SlotsOn(row.booked, date)
    ensures !SlotCovered(PaidDay(rows, spot, at, date), slot)
  {
    forall x | x in PaidDay(rows, spot, at, date) ensures !SlotCovers(x, slot) {
      var paid := PaidIn(rows, spot, at, date, x);
      PageClear(rows, paid, row, date, x, slot);
    }
  }

  lemma NoneCancelled(occupied: Days, rows: seq<Booking>, row: Booking, spot: Id, at: int, calendar: Calendar, from: string, window: TimeSlot)
    requires Merged(occupied, rows) && row in rows && AcceptedBooking(row.booked, calendar) && Accepted([window]) && GoodPage(rows)
    requires Upcoming(row, spot, at) ==> NothingBefore(row.booked, from)
    ensures !WillCancel(OnlyOpen(window, PaidDays(rows, spot, at, Ahead(occupied, from))), spot, at, calendar, row)
  {
    var keep := PaidDays(rows, spot, at, Ahead(occupied, from));
    PaidDaysEdit(rows, spot, at, occupied, from, window);
    CancelledIff(OnlyOpen(window, keep), spot, at, calendar, from, row);
    if Upcoming(row, spot, at) {
      forall date: string, slot: TimeSlot | slot in SlotsOn(row.booked, date)
        ensures SlotCovered(PageWindows(OnlyOpen(window, keep), calendar, date), slot)
      {
        assert slot in SlotsOn(occupied, date);
        OnlyOpenWindows(window, keep, calendar, date);
        InPaid(rows, spot, at, date, slot, row);
        AcceptedSlot(row.booked[date], slot);
        CoveredByItself(PaidDay(rows, spot, at, date), slot);
      }
    }
  }

  lemma CoveredByItself(windows: seq<TimeSlot>, slot: TimeSlot)
    requires slot in windows
    ensures SlotCovered(windows, slot)
  {
    var i :| 0 <= i < |windows| && windows[i] == slot;
    LessTotal(slot.start, slot.start);
    LessTotal(slot.end, slot.end);
    assert SlotCovers(windows[i], slot);
  }

  /**
   A whole page of bookings that were accepted and do not meet. On every edit the page warns of
   something exactly when the server cancels something, if and only if page and server see every one
   of the bookings alike: each paid one still to come has no slot dated before `from`, each other one
   none on or after.
   */
  lemma PageAgreesIff(occupied: Days, rows: seq<Booking>, spot: Id, at: int, calendar: Calendar, from: string)
    requires Merged(occupied, rows) && OnePage(rows, calendar)
    ensures (forall hours | Edit(hours, from) :: PageWarns(hours, occupied, calendar, from) <==> ServerCancels(hours, rows, spot, at, calendar))
       <==> forall row | row in rows :: Alike(row, spot, at, from)
  {
    if forall row | row in rows :: Alike(row, spot, at, from) {
      forall hours | Edit(hours, from)
        ensures PageWarns(hours, occupied, calendar, from) <==> ServerCancels(hours, rows, spot, at, calendar)
      {
        PageAgrees(hours, occupied, rows, spot, at, calendar, from);
      }
    } else if row :| row in rows && Upcoming(row, spot, at) && !NothingBefore(row.booked, from) {
      var hours := SilentPage(occupied, rows, row, spot, at, calendar, from);
    } else {
      var row :| row in rows && !Alike(row, spot, at, from);
      var hours := NeedlessPage(occupied, rows, row, spot, at, calendar, from);
    }
  }
}
