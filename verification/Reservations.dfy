/**
 Reserving a spot. Renters race for slots beside payments, sweeps and cancellations; a renter's
 transaction locks the spot, then reads what is taken, then checks, then writes the booking.
 */
module Reservations {
  import opened Availability
  import opened Bookings
  import opened Intervals
  import opened Policy
  import opened Times
  import opened Wrappers

  /** A booking that keeps its slots: a status this list does not name would keep them too. */
  predicate Live(row: Booking) {
    row.status != Released && row.status != Cancelled
  }

  predicate Blocks(row: Booking, spot: Id, now: int) {
    row.spotId == spot && row.endsAt > now && Live(row)
  }

  ghost predicate TakenBy(rows: map<Id, Booking>, spot: Id, now: int, date: string, slot: TimeSlot) {
    exists id | id in rows :: Blocks(rows[id], spot, now) && slot in SlotsOn(rows[id].booked, date)
  }

  /** Exactly the slots of the bookings that block, in any order. */
  ghost predicate IsTaken(taken: Days, rows: map<Id, Booking>, spot: Id, now: int) {
    forall date: string, slot: TimeSlot :: slot in SlotsOn(taken, date) <==> TakenBy(rows, spot, now, date, slot)
  }

  lemma TakenPlus(rows: map<Id, Booking>, id: Id, row: Booking, spot: Id, now: int, date: string, slot: TimeSlot)
    requires id !in rows
    ensures TakenBy(rows[id := row], spot, now, date, slot) <==>
      TakenBy(rows, spot, now, date, slot) || (Blocks(row, spot, now) && slot in SlotsOn(row.booked, date))
  {
    var more := rows[id := row];
    if TakenBy(rows, spot, now, date, slot) {
      var x :| x in rows && Blocks(rows[x], spot, now) && slot in SlotsOn(rows[x].booked, date);
      assert x in more && more[x] == rows[x];
    }
    if Blocks(row, spot, now) && slot in SlotsOn(row.booked, date) {
      assert id in more && more[id] == row;
    }
  }

  /** The union of the booked maps of the rows that block. */
  method TakenForSpot(rows: map<Id, Booking>, spot: Id, now: int) returns (taken: Days)
    ensures IsTaken(taken, rows, spot, now)
    ensures forall date, slot :: slot in SlotsOn(taken, date) <==> exists id | id in rows :: Occupies(rows[id], spot, now, date, slot)
  {
    taken := map[];
    var left := rows.Keys;
    while left != {}
      invariant left <= rows.Keys
      invariant IsTaken(taken, rows - left, spot, now)
      decreases left
    {
      var id :| id in left;
      ghost var before := rows - left;
      left := left - {id};
      assert rows - left == before[id := rows[id]];
      forall date: string, slot: TimeSlot {
        TakenPlus(before, id, rows[id], spot, now, date, slot);
      }
      if Blocks(rows[id], spot, now) {
        taken := Push(taken, rows[id].booked);
      }
    }
    assert rows - left == rows;
    TakenColumns(taken, rows, spot, now);
  }

  /** A reserved or paid booking of the spot, still to come, holds the slot. */
  predicate Occupies(row: Booking, spot: Id, now: int, date: string, slot: TimeSlot) {
    row.spotId == spot && row.endsAt > now && (row.status == Reserved || row.status == Confirmed) && slot in SlotsOn(row.booked, date)
  }

  lemma TakenColumns(taken: Days, rows: map<Id, Booking>, spot: Id, now: int)
    requires IsTaken(taken, rows, spot, now)
    ensures forall date, slot :: slot in SlotsOn(taken, date) <==> exists id | id in rows :: Occupies(rows[id], spot, now, date, slot)
  {
    forall date: string, slot: TimeSlot
      ensures slot in SlotsOn(taken, date) <==> exists id | id in rows :: Occupies(rows[id], spot, now, date, slot)
    {
      assert forall id | id in rows :: Occupies(rows[id], spot, now, date, slot) <==>
        Blocks(rows[id], spot, now) && slot in SlotsOn(rows[id].booked, date);
    }
  }

  /** A release or a cancellation that moved its booking gives its slots back: afterwards a slot is taken
      if and only if another booking holds it. */
  lemma EndingFrees(db: Db, id: Id, m: Move, taken: Days, spot: Id, now: int)
    requires id in db.rows && !m.Confirm? && Tx(db, Transition(id, m)) != db
    requires IsTaken(taken, Tx(db, Transition(id, m)).rows, spot, now)
    ensures forall date, slot :: slot in SlotsOn(taken, date) <==>
      exists other | other in db.rows && other != id :: Occupies(db.rows[other], spot, now, date, slot)
  {
    var rows := Tx(db, Transition(id, m)).rows;
    TakenColumns(taken, rows, spot, now);
    assert rows[id].status != Reserved && rows[id].status != Confirmed;
    assert forall other | other in rows && other != id :: other in db.rows && rows[other] == db.rows[other];
    forall date: string, slot: TimeSlot
      ensures slot in SlotsOn(taken, date) <==>
        exists other | other in db.rows && other != id :: Occupies(db.rows[other], spot, now, date, slot)
    {
      if other :| other in db.rows && other != id && Occupies(db.rows[other], spot, now, date, slot) {
        assert Occupies(rows[other], spot, now, date, slot);
      }
      if other :| other in rows && Occupies(rows[other], spot, now, date, slot) {
        assert Occupies(db.rows[other], spot, now, date, slot);
      }
    }
  }

  /** A booking that is over gives its slots back too. */
  lemma TimeFrees(read: Reader, calendar: Calendar, s: State, t: int, id: Id, taken: Days, spot: Id)
    requires t >= s.now && id in s.db.rows && t >= s.db.rows[id].endsAt
    requires var after := Do(read, calendar, s, Tick(t)); IsTaken(taken, after.db.rows, spot, after.now)
    ensures Do(read, calendar, s, Tick(t)).now == t
    ensures forall date, slot :: slot in SlotsOn(taken, date) <==>
      exists other | other in s.db.rows && other != id :: Occupies(s.db.rows[other], spot, t, date, slot)
  {
    TakenColumns(taken, s.db.rows, spot, t);
  }

  /** A confirmation changes nothing about what is taken. */
  lemma ConfirmingKeeps(db: Db, id: Id, before: Days, taken: Days, spot: Id, now: int)
    requires IsTaken(before, db.rows, spot, now) && IsTaken(taken, Tx(db, Transition(id, Confirm)).rows, spot, now)
    ensures forall date, slot :: slot in SlotsOn(before, date) <==> slot in SlotsOn(taken, date)
  {
    var rows := Tx(db, Transition(id, Confirm)).rows;
    TakenColumns(before, db.rows, spot, now);
    TakenColumns(taken, rows, spot, now);
    forall date: string, slot: TimeSlot ensures slot in SlotsOn(before, date) <==> slot in SlotsOn(taken, date) {
      assert forall x | x in rows :: Occupies(rows[x], spot, now, date, slot) <==> Occupies(db.rows[x], spot, now, date, slot);
    }
  }

  /** No slot of one meets a slot of the other. */
  ghost predicate Apart(read: Reader, a: Days, b: Days) {
    forall date: string, s: Span, t: Span |
      s in RealSpans(read, SlotsOn(a, date)) && t in RealSpans(read, SlotsOn(b, date)) :: !Overlaps(s, t)
  }

  /** No two live bookings of one spot that are still to come meet. */
  ghost predicate NoDouble(read: Reader, rows: map<Id, Booking>, now: int) {
    forall a, b | a in rows && b in rows && a != b && Blocks(rows[a], rows[b].spotId, now) && Blocks(rows[b], rows[b].spotId, now) ::
      Apart(read, rows[a].booked, rows[b].booked)
  }

  // ---------------------------------------------------------------- the steps

  datatype Renter = Idle | Locked(spot: Id) | Checking(spot: Id, seen: Days)

  datatype State = State(db: Db, now: int, renters: map<nat, Renter>)

  datatype Action =
    | Lock(renter: nat, spot: Id)
    | Look(renter: nat, taken: Days)
    | Reserve(renter: nat, booking: NewBooking, hours: Hours)
    | Leave(renter: nat)
    | Shift(id: Id, move: Move)
    | Tick(time: int)

  predicate Holding(r: Renter, spot: Id) {
    !r.Idle? && r.spot == spot
  }

  ghost predicate Enabled(read: Reader, calendar: Calendar, s: State, act: Action) {
    match act
    case Lock(r, spot) =>
      r in s.renters && s.renters[r].Idle? && forall k :: k in s.renters ==> !Holding(s.renters[k], spot)
    case Look(r, taken) =>
      r in s.renters && s.renters[r].Locked? && IsTaken(taken, s.db.rows, s.renters[r].spot, s.now)
    case Reserve(r, b, hours) =>
      && r in s.renters && s.renters[r].Checking? && b.spotId == s.renters[r].spot && b.bookingId !in s.db.rows
      && Allowed(read, hours, s.renters[r].seen, b.booked, calendar)
    case Leave(r) => r in s.renters
    case Shift(_, _) => true
    case Tick(t) => t >= s.now
  }

  ghost function Do(read: Reader, calendar: Calendar, s: State, act: Action): State
    requires Enabled(read, calendar, s, act)
  {
    match act
    case Lock(r, spot) => s.(renters := s.renters[r := Locked(spot)])
    case Look(r, taken) => s.(renters := s.renters[r := Checking(s.renters[r].spot, taken)])
    case Reserve(r, b, _) => State(Tx(s.db, Create(b)), s.now, s.renters[r := Idle])
    case Leave(r) => s.(renters := s.renters[r := Idle])
    case Shift(id, m) => s.(db := Tx(s.db, Transition(id, m)))
    case Tick(t) => s.(now := t)
  }

  ghost predicate Run(read: Reader, calendar: Calendar, s: State, acts: seq<Action>)
    decreases |acts|
  {
    acts == [] || (Enabled(read, calendar, s, acts[0]) && Run(read, calendar, Do(read, calendar, s, acts[0]), acts[1..]))
  }

  ghost function After(read: Reader, calendar: Calendar, s: State, acts: seq<Action>): State
    requires Run(read, calendar, s, acts)
    decreases |acts|
  {
    if acts == [] then s else After(read, calendar, Do(read, calendar, s, acts[0]), acts[1..])
  }

  // ---------------------------------------------------------------- what every step keeps

  /** What a renter has seen still includes everything that blocks its spot. */
  ghost predicate UpToDate(rows: map<Id, Booking>, now: int, r: Renter) {
    r.Checking? ==> forall date: string, slot: TimeSlot | TakenBy(rows, r.spot, now, date, slot) :: slot in SlotsOn(r.seen, date)
  }

  ghost predicate OneEach(renters: map<nat, Renter>) {
    forall j, k, spot :: j in renters && k in renters && Holding(renters[j], spot) && Holding(renters[k], spot) ==> j == k
  }

  ghost predicate Inv(read: Reader, s: State) {
    && NoDouble(read, s.db.rows, s.now)
    && OneEach(s.renters)
    && (forall r :: r in s.renters ==> UpToDate(s.db.rows, s.now, s.renters[r]))
  }

  lemma {:induction false} ReadIn(read: Reader, slots: seq<TimeSlot>, s: Span)
    ensures s in RealSpans(read, slots) <==> exists slot | slot in slots :: read(slot) == Some(s)
  {
    if slots != [] {
      var front, last := slots[..|slots| - 1], slots[|slots| - 1];
      ReadIn(read, front, s);
      assert slots == front + [last];
      RealSpansSnoc(read, front, last);
    }
  }

  lemma ClearOf(busy: seq<Span>, s: Span, t: Span)
    requires t in busy && !AnyOverlaps(busy, s)
    ensures !Overlaps(t, s) && !Overlaps(s, t)
  {
    var i :| 0 <= i < |busy| && busy[i] == t;
  }

  lemma AllowedMeetsNothing(read: Reader, hours: Hours, seen: Days, booked: Days, calendar: Calendar, other: Days, date: string, s: Span, t: Span)
    requires Allowed(read, hours, seen, booked, calendar)
    requires forall slot: TimeSlot | slot in SlotsOn(other, date) :: slot in SlotsOn(seen, date)
    requires s in RealSpans(read, SlotsOn(booked, date)) && t in RealSpans(read, SlotsOn(other, date))
    ensures !Overlaps(s, t) && !Overlaps(t, s)
  {
    assert date in booked;
    assert DateAllowed(read, hours, seen, booked, calendar, date);
    ReadIn(read, SlotsOn(other, date), t);
    ReadIn(read, SlotsOn(seen, date), t);
    ClearOf(RealSpans(read, SlotsOn(seen, date)), s, t);
  }

  /** A request that passed the check against what a renter has seen meets nothing that blocks. */
  lemma AllowedIsApart(read: Reader, hours: Hours, seen: Days, booked: Days, calendar: Calendar, other: Days)
    requires Allowed(read, hours, seen, booked, calendar)
    requires forall date: string, slot: TimeSlot | slot in SlotsOn(other, date) :: slot in SlotsOn(seen, date)
    ensures Apart(read, booked, other) && Apart(read, other, booked)
  {
    forall date: string, s: Span, t: Span |
      s in RealSpans(read, SlotsOn(booked, date)) && t in RealSpans(read, SlotsOn(other, date))
      ensures !Overlaps(s, t) && !Overlaps(t, s)
    {
      AllowedMeetsNothing(read, hours, seen, booked, calendar, other, date, s, t);
    }
    BothApart(read, booked, other);
  }

  lemma BothApart(read: Reader, a: Days, b: Days)
    requires forall date: string, s: Span, t: Span |
      s in RealSpans(read, SlotsOn(a, date)) && t in RealSpans(read, SlotsOn(b, date)) :: !Overlaps(s, t) && !Overlaps(t, s)
    ensures Apart(read, a, b) && Apart(read, b, a)
  {
  }

  /** A transition frees slots or keeps them; it never takes any. */
  lemma ShiftFrees(db: Db, id: Id, m: Move, x: Id, spot: Id, now: int)
    requires x in Tx(db, Transition(id, m)).rows && Blocks(Tx(db, Transition(id, m)).rows[x], spot, now)
    ensures x in db.rows && Blocks(db.rows[x], spot, now)
    ensures Tx(db, Transition(id, m)).rows[x].booked == db.rows[x].booked && Tx(db, Transition(id, m)).rows[x].spotId == db.rows[x].spotId
  {
  }

  lemma ShiftStep(read: Reader, s: State, id: Id, m: Move)
    requires Inv(read, s)
    ensures Inv(read, s.(db := Tx(s.db, Transition(id, m))))
  {
    var rows := Tx(s.db, Transition(id, m)).rows;
    forall a, b | a in rows && b in rows && a != b && Blocks(rows[a], rows[b].spotId, s.now) && Blocks(rows[b], rows[b].spotId, s.now)
      ensures Apart(read, rows[a].booked, rows[b].booked)
    {
      ShiftFrees(s.db, id, m, a, rows[b].spotId, s.now);
      ShiftFrees(s.db, id, m, b, rows[b].spotId, s.now);
    }
    forall r | r in s.renters ensures UpToDate(rows, s.now, s.renters[r]) {
      if s.renters[r].Checking? {
        ShiftTaken(s.db, id, m, s.renters[r].spot, s.now);
      }
    }
  }

  lemma ShiftTaken(db: Db, id: Id, m: Move, spot: Id, now: int)
    ensures forall date: string, slot: TimeSlot | TakenBy(Tx(db, Transition(id, m)).rows, spot, now, date, slot) ::
      TakenBy(db.rows, spot, now, date, slot)
  {
    var rows := Tx(db, Transition(id, m)).rows;
    forall date: string, slot: TimeSlot | TakenBy(rows, spot, now, date, slot) ensures TakenBy(db.rows, spot, now, date, slot) {
      var x :| x in rows && Blocks(rows[x], spot, now) && slot in SlotsOn(rows[x].booked, date);
      ShiftFrees(db, id, m, x, spot, now);
      assert x in db.rows;
    }
  }

  lemma TickStep(read: Reader, s: State, t: int)
    requires Inv(read, s) && t >= s.now
    ensures Inv(read, s.(now := t))
  {
    forall r | r in s.renters ensures UpToDate(s.db.rows, t, s.renters[r]) {
      assert UpToDate(s.db.rows, s.now, s.renters[r]);
      if s.renters[r].Checking? {
        forall date: string, slot: TimeSlot | TakenBy(s.db.rows, s.renters[r].spot, t, date, slot)
          ensures TakenBy(s.db.rows, s.renters[r].spot, s.now, date, slot)
        {
          var x :| x in s.db.rows && Blocks(s.db.rows[x], s.renters[r].spot, t) && slot in SlotsOn(s.db.rows[x].booked, date);
          assert Blocks(s.db.rows[x], s.renters[r].spot, s.now);
        }
      }
    }
  }

  /** What the checking renter inserts meets no row that blocks its spot. */
  lemma ReservedIsApart(read: Reader, calendar: Calendar, s: State, r: nat, b: NewBooking, hours: Hours, x: Id)
    requires Inv(read, s) && Enabled(read, calendar, s, Reserve(r, b, hours))
    requires x in s.db.rows && Blocks(s.db.rows[x], b.spotId, s.now)
    ensures Apart(read, b.booked, s.db.rows[x].booked) && Apart(read, s.db.rows[x].booked, b.booked)
  {
    var seen := s.renters[r].seen;
    assert UpToDate(s.db.rows, s.now, s.renters[r]);
    forall date: string, slot: TimeSlot | slot in SlotsOn(s.db.rows[x].booked, date) ensures slot in SlotsOn(seen, date) {
      assert TakenBy(s.db.rows, b.spotId, s.now, date, slot);
    }
    AllowedIsApart(read, hours, seen, b.booked, calendar, s.db.rows[x].booked);
  }

  lemma ReserveStep(read: Reader, calendar: Calendar, s: State, r: nat, b: NewBooking, hours: Hours)
    requires Inv(read, s) && Enabled(read, calendar, s, Reserve(r, b, hours))
    ensures Inv(read, Do(read, calendar, s, Reserve(r, b, hours)))
  {
    var t := Do(read, calendar, s, Reserve(r, b, hours));
    assert t.db.rows == s.db.rows[b.bookingId := CreatedRow(b)];
    forall x | x in s.db.rows && Blocks(s.db.rows[x], b.spotId, s.now)
      ensures Apart(read, b.booked, s.db.rows[x].booked) && Apart(read, s.db.rows[x].booked, b.booked)
    {
      ReservedIsApart(read, calendar, s, r, b, hours, x);
    }
    forall k | k in t.renters ensures UpToDate(t.db.rows, t.now, t.renters[k]) {
      if k != r && t.renters[k].Checking? {
        assert t.renters[k] == s.renters[k];
        assert Holding(s.renters[r], b.spotId) && t.renters[k].spot != b.spotId;
        forall date: string, slot: TimeSlot {
          TakenPlus(s.db.rows, b.bookingId, CreatedRow(b), t.renters[k].spot, s.now, date, slot);
        }
      }
    }
  }

  lemma Step(read: Reader, calendar: Calendar, s: State, act: Action)
    requires Inv(read, s) && Enabled(read, calendar, s, act)
    ensures Inv(read, Do(read, calendar, s, act))
  {
    match act
    case Reserve(r, b, hours) => ReserveStep(read, calendar, s, r, b, hours);
    case Shift(id, m) => ShiftStep(read, s, id, m);
    case Tick(t) => TickStep(read, s, t);
    case _ =>
  }

  /**
   No double booking. In every run, from any state that has none, however reservations, payments,
   sweeps, withdrawals and the clock interleave: two live bookings of one spot that are both still to
   come have no minute in common on any date.
   */
  lemma {:induction false} NeverDoubleBooked(read: Reader, calendar: Calendar, s: State, acts: seq<Action>)
    requires Inv(read, s) && Run(read, calendar, s, acts)
    ensures Inv(read, After(read, calendar, s, acts))
    ensures NoDouble(read, After(read, calendar, s, acts).db.rows, After(read, calendar, s, acts).now)
    decreases |acts|
  {
    if acts != [] {
      Step(read, calendar, s, acts[0]);
      NeverDoubleBooked(read, calendar, Do(read, calendar, s, acts[0]), acts[1..]);
    }
  }

  /** An empty database and idle renters are where every deployment starts. */
  lemma EmptyInv(read: Reader, now: int, renters: map<nat, Renter>)
    requires forall r :: r in renters ==> renters[r].Idle?
    ensures Inv(read, State(Db(map[], []), now, renters))
  {
  }

  /** So no deployment ever books a spot twice. */
  lemma NeverFromEmpty(read: Reader, calendar: Calendar, now: int, renters: map<nat, Renter>, acts: seq<Action>)
    requires forall r :: r in renters ==> renters[r].Idle?
    requires Run(read, calendar, State(Db(map[], []), now, renters), acts)
    ensures var t := After(read, calendar, State(Db(map[], []), now, renters), acts); NoDouble(read, t.db.rows, t.now)
  {
    EmptyInv(read, now, renters);
    NeverDoubleBooked(read, calendar, State(Db(map[], []), now, renters), acts);
  }

  /**
   The same on the columns. In every run from an empty database, two different bookings of one spot
   that are still to come, each reserved or confirmed, have no minute in common: of any two of their
   slots on one date, the one is over before the other begins.
   */
  lemma NoMinuteTwice(read: Reader, calendar: Calendar, now: int, renters: map<nat, Renter>, acts: seq<Action>, x: Id, y: Id)
    requires forall r :: r in renters ==> renters[r].Idle?
    requires Run(read, calendar, State(Db(map[], []), now, renters), acts)
    requires var t := After(read, calendar, State(Db(map[], []), now, renters), acts);
      && x in t.db.rows && y in t.db.rows && x != y && t.db.rows[x].spotId == t.db.rows[y].spotId
      && t.db.rows[x].endsAt > t.now && t.db.rows[y].endsAt > t.now
      && (t.db.rows[x].status == Reserved || t.db.rows[x].status == Confirmed)
      && (t.db.rows[y].status == Reserved || t.db.rows[y].status == Confirmed)
    ensures var t := After(read, calendar, State(Db(map[], []), now, renters), acts);
      var a, b := t.db.rows[x].booked, t.db.rows[y].booked;
      forall date, p, q | date in a && date in b && p in a[date] && q in b[date] && read(p).Some? && read(q).Some? ::
        read(p).value.hi <= read(q).value.lo || read(q).value.hi <= read(p).value.lo
  {
    NeverFromEmpty(read, calendar, now, renters, acts);
    var t := After(read, calendar, State(Db(map[], []), now, renters), acts);
    var a, b := t.db.rows[x].booked, t.db.rows[y].booked;
    assert Apart(read, a, b);
    forall date, p, q | date in a && date in b && p in a[date] && q in b[date] && read(p).Some? && read(q).Some?
      ensures read(p).value.hi <= read(q).value.lo || read(q).value.hi <= read(p).value.lo
    {
      ReadIn(read, SlotsOn(a, date), read(p).value);
      ReadIn(read, SlotsOn(b, date), read(q).value);
      assert !Overlaps(read(p).value, read(q).value);
    }
  }

  /**
   And a request that passes is never turned away: on a spot nobody has locked, an idle renter who asks
   for slots allowed beside what is taken gets them.
   */
  lemma ReservationGoesThrough(read: Reader, calendar: Calendar, s: State, r: nat, taken: Days, b: NewBooking, hours: Hours)
    requires r in s.renters && s.renters[r].Idle? && forall k :: k in s.renters ==> s.renters[k].Idle? || s.renters[k].spot != b.spotId
    requires IsTaken(taken, s.db.rows, b.spotId, s.now) && b.bookingId !in s.db.rows
    requires Allowed(read, hours, taken, b.booked, calendar)
    ensures var acts := [Lock(r, b.spotId), Look(r, taken), Reserve(r, b, hours)];
      && Run(read, calendar, s, acts)
      && var t := After(read, calendar, s, acts);
         && t.db.rows == s.db.rows[b.bookingId := CreatedRow(b)] && t.now == s.now && t.renters == s.renters
  {
    var s1 := s.(renters := s.renters[r := Locked(b.spotId)]);
    var s2 := s.(renters := s.renters[r := Checking(b.spotId, taken)]);
    var s3 := s.(db := Tx(s.db, Create(b)));
    LockGoes(read, calendar, s, r, b.spotId);
    LookGoes(read, calendar, s, r, b.spotId, taken);
    ReserveGoes(read, calendar, s, r, taken, b, hours);
    RunFirst(read, calendar, s2, Reserve(r, b, hours), s3, []);
    RunFirst(read, calendar, s1, Look(r, taken), s2, [Reserve(r, b, hours)] + []);
    RunFirst(read, calendar, s, Lock(r, b.spotId), s1, [Look(r, taken)] + ([Reserve(r, b, hours)] + []));
    assert [Lock(r, b.spotId)] + ([Look(r, taken)] + ([Reserve(r, b, hours)] + [])) == [Lock(r, b.spotId), Look(r, taken), Reserve(r, b, hours)];
  }

  lemma LockGoes(read: Reader, calendar: Calendar, s: State, r: nat, spot: Id)
    requires r in s.renters && s.renters[r].Idle? && forall k :: k in s.renters ==> s.renters[k].Idle? || s.renters[k].spot != spot
    ensures Enabled(read, calendar, s, Lock(r, spot))
    ensures Do(read, calendar, s, Lock(r, spot)) == s.(renters := s.renters[r := Locked(spot)])
  {
  }

  lemma LookGoes(read: Reader, calendar: Calendar, s: State, r: nat, spot: Id, taken: Days)
    requires r in s.renters && IsTaken(taken, s.db.rows, spot, s.now)
    ensures var t := s.(renters := s.renters[r := Locked(spot)]);
      && Enabled(read, calendar, t, Look(r, taken))
      && Do(read, calendar, t, Look(r, taken)) == s.(renters := s.renters[r := Checking(spot, taken)])
  {
    assert s.renters[r := Locked(spot)][r := Checking(spot, taken)] == s.renters[r := Checking(spot, taken)];
  }

  lemma ReserveGoes(read: Reader, calendar: Calendar, s: State, r: nat, taken: Days, b: NewBooking, hours: Hours)
    requires r in s.renters && s.renters[r].Idle? && b.bookingId !in s.db.rows && Allowed(read, hours, taken, b.booked, calendar)
    ensures var t := s.(renters := s.renters[r := Checking(b.spotId, taken)]);
      && Enabled(read, calendar, t, Reserve(r, b, hours))
      && Do(read, calendar, t, Reserve(r, b, hours)) == s.(db := Tx(s.db, Create(b)))
    ensures Tx(s.db, Create(b)).rows == s.db.rows[b.bookingId := CreatedRow(b)]
  {
    assert s.renters[r := Checking(b.spotId, taken)][r := Idle] == s.renters;
  }

  lemma RunFirst(read: Reader, calendar: Calendar, s: State, act: Action, t: State, rest: seq<Action>)
    requires Enabled(read, calendar, s, act) && Do(read, calendar, s, act) == t && Run(read, calendar, t, rest)
    ensures Run(read, calendar, s, [act] + rest) && After(read, calendar, s, [act] + rest) == After(read, calendar, t, rest)
  {
    assert ([act] + rest)[1..] == rest;
  }

  lemma {:induction false} SomeRead(read: Reader, slots: seq<TimeSlot>)
    requires slots != [] && AllParse(read, slots)
    ensures RealSpans(read, slots) != []
  {
    var front, last := slots[..|slots| - 1], slots[|slots| - 1];
    assert slots == front + [last];
    RealSpansSnoc(read, front, last);
  }

  /**
   The order of lock and look is the whole of it. Two renters who looked before either had the lock
   pass the same check for the same slots, and whatever they lock afterwards, both bookings stand.
   */
  lemma LookingFirstDoubleBooks(read: Reader, calendar: Calendar, db: Db, now: int, seen: Days, hours: Hours,
                                b: NewBooking, c: NewBooking)
    requires Sane(read) && IsTaken(seen, db.rows, b.spotId, now) && Allowed(read, hours, seen, b.booked, calendar)
    requires b.bookingId != c.bookingId && b.bookingId !in db.rows && c.bookingId !in db.rows
    requires c.spotId == b.spotId && c.booked == b.booked && b.endsAt > now && c.endsAt > now
    ensures Allowed(read, hours, seen, c.booked, calendar)
    ensures !NoDouble(read, Tx(Tx(db, Create(b)), Create(c)).rows, now)
  {
    MeetsItself(read, hours, seen, b.booked, calendar);
    BothCreated(db, b, c);
    var rows := Tx(Tx(db, Create(b)), Create(c)).rows;
    assert Blocks(rows[b.bookingId], c.spotId, now) && Blocks(rows[c.bookingId], c.spotId, now);
    assert !Apart(read, rows[b.bookingId].booked, rows[c.bookingId].booked);
  }

  lemma BothCreated(db: Db, b: NewBooking, c: NewBooking)
    requires b.bookingId != c.bookingId && b.bookingId !in db.rows && c.bookingId !in db.rows
    ensures Tx(Tx(db, Create(b)), Create(c)).rows == db.rows[b.bookingId := CreatedRow(b)][c.bookingId := CreatedRow(c)]
  {
  }

  /** A request with a slot in it is not apart from itself. */
  lemma MeetsItself(read: Reader, hours: Hours, seen: Days, booked: Days, calendar: Calendar)
    requires Sane(read) && Allowed(read, hours, seen, booked, calendar)
    ensures !Apart(read, booked, booked)
  {
    var date :| date in booked && booked[date] != [];
    assert DateAllowed(read, hours, seen, booked, calendar, date);
    SomeRead(read, booked[date]);
    RealSpansAreReal(read, booked[date]);
    var s := RealSpans(read, booked[date])[0];
    assert s in RealSpans(read, SlotsOn(booked, date)) && Overlaps(s, s);
  }
}
