/**
 booking-service's database as the object its jobs write: the guarded transition, the sweeper,
 and the reaction to a host's edit. Every method is proved against the guarded writes of
 `Bookings`; `Owners` interleaves transactions of one such write or of many.
 */
module BookingStores {
  import opened Bookings
  import opened Policy
  import opened Versions
  import opened Wrappers
  import P = Pipeline

  const MAX_PER_SWEEP: nat := 200

  datatype SpotEvent =
    | SpotCreated(spotId: Id)
    | SpotUpdated(spotId: Id, availability: Option<Hours>)
    | SpotDeleted(spotId: Id)

  predicate Lapsed(row: Booking, now: int) {
    row.status == Reserved && row.holdUntil.Some? && row.holdUntil.value < now
  }

  predicate Upcoming(row: Booking, spot: Id, at: int) {
    row.spotId == spot && row.status == Confirmed && row.endsAt > at
  }

  /** Paid, still to come, and no longer honoured by the spot the event describes. */
  predicate Withdrawn(event: SpotEvent, row: Booking, at: int, fits: (Hours, Booking) -> bool) {
    match event
    case SpotCreated(_) => false
    case SpotUpdated(spot, a) => Upcoming(row, spot, at) && a.Some? && !fits(a.value, row)
    case SpotDeleted(spot) => Upcoming(row, spot, at)
  }

  /** What the reaction makes of one booking: a withdrawn one is cancelled, by one version and one
      event; any other keeps its row and its history. */
  ghost predicate Reacted(event: SpotEvent, at: int, fits: (Hours, Booking) -> bool, before: Db, after: Db, id: Id) {
    if id in before.rows && Withdrawn(event, before.rows[id], at, fits) then
      && RowOf(after.rows, id) == Some(MovedRow(before.rows[id], Cancel(SpotUnavailable)))
      && History(after.outbox, id) ==
         History(before.outbox, id) + [P.Envelope(id, NextVersion(Some(before.rows[id].version)), BookingCancelled(SpotUnavailable))]
    else
      RowOf(after.rows, id) == RowOf(before.rows, id) && History(after.outbox, id) == History(before.outbox, id)
  }

  ghost predicate Settled(event: SpotEvent, at: int, fits: (Hours, Booking) -> bool, db: Db) {
    forall id :: id in db.rows ==> !Withdrawn(event, db.rows[id], at, fits)
  }

  /** The bookings `React` looks at, and the ones among them it leaves alone. */
  ghost predicate Listed(event: SpotEvent, at: int, fits: (Hours, Booking) -> bool, before: Db, upcoming: seq<Id>, kept: set<Id>) {
    && !event.SpotCreated? && (event.SpotUpdated? ==> event.availability.Some?)
    && (forall id :: id in upcoming <==> id in before.rows && Upcoming(before.rows[id], event.spotId, at))
    && (forall id :: id in kept <==> id in upcoming && id in before.rows && !Withdrawn(event, before.rows[id], at, fits))
  }

  lemma CancellingReacts(event: SpotEvent, at: int, fits: (Hours, Booking) -> bool, before: Db, upcoming: seq<Id>, kept: set<Id>)
    requires Listed(event, at, fits, before, upcoming, kept)
    ensures var after := MoveAll(before, Cancel(SpotUnavailable), upcoming, kept);
      && (forall id :: Reacted(event, at, fits, before, after, id))
      && (Settled(event, at, fits, before) ==> after == before)
  {
    var after := MoveAll(before, Cancel(SpotUnavailable), upcoming, kept);
    forall id: Id ensures Reacted(event, at, fits, before, after, id) {
      MoveAllMovesOnce(before, Cancel(SpotUnavailable), upcoming, kept, id);
    }
    if Settled(event, at, fits, before) {
      NoneEligible(before, Cancel(SpotUnavailable), upcoming, kept);
    }
  }

  /** What that is, on the columns: a confirmed booking of the spot that is still to come, whose spot is
      gone or whose hours no longer honour it, is cancelled; nothing else of it changes, and nothing of
      any other booking. */
  lemma ReactedColumns(event: SpotEvent, at: int, fits: (Hours, Booking) -> bool, before: Db, after: Db, id: Id)
    requires Reacted(event, at, fits, before, after, id) && id in before.rows
    ensures id in after.rows
    ensures var row := before.rows[id];
      row.spotId == event.spotId && row.status == Confirmed && row.endsAt > at
      && (event.SpotDeleted? || (event.SpotUpdated? && event.availability.Some? && !fits(event.availability.value, row))) ==>
        && after.rows[id] == row.(status := Cancelled, holdUntil := None, cancelReason := Some(SpotUnavailable),
                                  version := NextVersion(Some(row.version)))
        && History(after.outbox, id) ==
           History(before.outbox, id) + [P.Envelope(id, NextVersion(Some(row.version)), BookingCancelled(SpotUnavailable))]
    ensures var row := before.rows[id];
      !(row.spotId == event.spotId && row.status == Confirmed && row.endsAt > at
        && (event.SpotDeleted? || (event.SpotUpdated? && event.availability.Some? && !fits(event.availability.value, row)))) ==>
        after.rows[id] == row && History(after.outbox, id) == History(before.outbox, id)
  {
  }

  /** After the reaction nothing is left to withdraw. */
  lemma ReactedSettles(event: SpotEvent, at: int, fits: (Hours, Booking) -> bool, before: Db, after: Db)
    requires forall id :: Reacted(event, at, fits, before, after, id)
    ensures Settled(event, at, fits, after)
  {
    forall id | id in after.rows ensures !Withdrawn(event, after.rows[id], at, fits) {
      assert Reacted(event, at, fits, before, after, id);
    }
  }

  /** The service's own judgement: its check, with nothing taken. */
  ghost function ByHours(calendar: Calendar): (Hours, Booking) -> bool {
    (hours: Hours, row: Booking) => Fits(hours, row.booked, calendar)
  }

  /**
   Judged so, a settled database honours the new hours: every slot of every paid booking still to
   come is covered by one window of its date, by the page's comparison.
   */
  lemma SettledIsCovered(spot: Id, hours: Hours, at: int, calendar: Calendar, db: Db, id: Id)
    requires Settled(SpotUpdated(spot, Some(hours)), at, ByHours(calendar), db)
    requires id in db.rows && Upcoming(db.rows[id], spot, at) && SoundBooking(hours, db.rows[id].booked, calendar)
    ensures forall date | date in db.rows[id].booked :: DayCovered(PageWindows(hours, calendar, date), db.rows[id].booked[date])
  {
    assert !Withdrawn(SpotUpdated(spot, Some(hours)), db.rows[id], at, ByHours(calendar));
    FitsIff(hours, db.rows[id].booked, calendar);
  }

  // ---------------------------------------------------------------- holds and sweeps

  /**
   What one tick at `now` makes of one booking. A hold that is still reserved when its time has passed
   is released, by one version and one event: for certain if the tick was below its cap (not `full`) and
   the booking's transaction did not fail. Every other booking keeps its row and its history.
   */
  ghost predicate SweptTo(before: Db, after: Db, now: int, fails: set<Id>, full: bool, id: Id) {
    if id in before.rows && before.rows[id].status == Reserved && before.rows[id].holdUntil.Some? && before.rows[id].holdUntil.value < now
    then Lapses(before, after, id) || ((full || id in fails) && Kept(before, after, id))
    else Kept(before, after, id)
  }

  ghost predicate Kept(before: Db, after: Db, id: Id) {
    RowOf(after.rows, id) == RowOf(before.rows, id) && History(after.outbox, id) == History(before.outbox, id)
  }

  ghost predicate Lapses(before: Db, after: Db, id: Id)
    requires id in before.rows
  {
    var row := before.rows[id];
    var version := NextVersion(Some(row.version));
    && id in after.rows
    && after.rows[id] == row.(status := Released, holdUntil := None, releaseReason := Some(Expired), version := version)
    && History(after.outbox, id) == History(before.outbox, id) + [P.Envelope(id, version, BookingReleased(Expired))]
  }

  /** What goes on in the database beside a hold: ticks of the sweeper, and guarded writes. */
  datatype Event = Tick(now: int, fails: set<Id>, full: bool) | Write(op: Op)

  ghost predicate Happened(before: Db, event: Event, after: Db) {
    match event
    case Tick(now, fails, full) => forall id :: SweptTo(before, after, now, fails, full, id)
    case Write(op) => after == Tx(before, op)
  }

  /** The states a database goes through. */
  ghost predicate Story(dbs: seq<Db>, events: seq<Event>) {
    |dbs| == |events| + 1 && forall i :: 0 <= i < |events| ==> Happened(dbs[i], events[i], dbs[i + 1])
  }

  lemma ReleasedIsSwept(db: Db, now: int, lapsed: seq<Id>, fails: set<Id>, full: bool)
    requires forall id :: id in lapsed ==> id in db.rows && Lapsed(db.rows[id], now)
    requires !full ==> forall id :: id in db.rows && Lapsed(db.rows[id], now) ==> id in lapsed
    ensures Happened(db, Tick(now, fails, full), MoveAll(db, Release(Expired), lapsed, fails))
  {
    var after := MoveAll(db, Release(Expired), lapsed, fails);
    forall id: Id ensures SweptTo(db, after, now, fails, full, id) {
      MoveAllMovesOnce(db, Release(Expired), lapsed, fails, id);
      assert id in lapsed ==> Lapsed(db.rows[id], now);
    }
  }

  lemma WriteAside(db: Db, op: Op, id: Id)
    requires Target(op) != id
    ensures Kept(db, Tx(db, op), id)
  {
    var outcome := Outcome(RowOf(db.rows, Target(op)), op);
    if outcome.Some? {
      HistorySnoc(db.outbox, P.Envelope(Target(op), outcome.value.0.version, outcome.value.1), id);
    }
  }

  /**
   A hold is safe until its time. After a reservation was written, through any ticks at times not past
   its expiry and any writes to other bookings, its row and its history are as the reservation left
   them.
   */
  lemma {:induction false} HoldIsSafe(db: Db, b: NewBooking, dbs: seq<Db>, events: seq<Event>)
    requires b.bookingId !in db.rows && Story(dbs, events) && dbs[0] == Tx(db, Create(b))
    requires forall i :: 0 <= i < |events| ==>
      (events[i].Tick? ==> events[i].now <= b.expiresAt) && (events[i].Write? ==> Target(events[i].op) != b.bookingId)
    ensures var last := dbs[|events|];
      && b.bookingId in last.rows && last.rows[b.bookingId].status == Reserved
      && last.rows[b.bookingId].holdUntil == Some(b.expiresAt) && last.rows[b.bookingId].version == 1
      && Kept(dbs[0], last, b.bookingId)
    decreases |events|
  {
    if events != [] {
      var n := |events| - 1;
      var dbs', events' := dbs[..n + 1], events[..n];
      forall i | 0 <= i < n ensures Happened(dbs'[i], events'[i], dbs'[i + 1]) {
        assert dbs'[i] == dbs[i] && dbs'[i + 1] == dbs[i + 1] && events'[i] == events[i];
      }
      HoldIsSafe(db, b, dbs', events');
      assert dbs'[n] == dbs[n] && Happened(dbs[n], events[n], dbs[n + 1]);
      match events[n]
      case Tick(now, fails, full) =>
        assert SweptTo(dbs[n], dbs[n + 1], now, fails, full, b.bookingId);
      case Write(op) => WriteAside(dbs[n], op, b.bookingId);
    }
  }

  /** And it is given up after it: the first tick past the expiry that is below its cap and does not fail
      releases a booking that is still reserved, with one version and one event. */
  lemma HoldIsGivenUp(before: Db, after: Db, now: int, fails: set<Id>, b: NewBooking)
    requires Happened(before, Tick(now, fails, false), after) && b.bookingId !in fails && now > b.expiresAt
    requires b.bookingId in before.rows && before.rows[b.bookingId].status == Reserved
    requires before.rows[b.bookingId].holdUntil == Some(b.expiresAt)
    ensures b.bookingId in after.rows && after.rows[b.bookingId].status == Released
    ensures after.rows[b.bookingId].version == NextVersion(Some(before.rows[b.bookingId].version))
    ensures History(after.outbox, b.bookingId) ==
      History(before.outbox, b.bookingId) + [P.Envelope(b.bookingId, after.rows[b.bookingId].version, BookingReleased(Expired))]
  {
    assert SweptTo(before, after, now, fails, false, b.bookingId);
  }

  /** A tick leaves alone whatever is not reserved, whenever it comes. */
  lemma OnlyReservedIsSwept(before: Db, after: Db, now: int, fails: set<Id>, full: bool, id: Id)
    requires Happened(before, Tick(now, fails, full), after) && id in before.rows && before.rows[id].status != Reserved
    ensures id in after.rows && after.rows[id] == before.rows[id] && History(after.outbox, id) == History(before.outbox, id)
  {
    assert SweptTo(before, after, now, fails, full, id);
  }

  class BookingStore {
    var rows: map<Id, Booking>
    var outbox: seq<Envelope>

    constructor ()
      ensures Value() == Db(map[], [])
    {
      rows, outbox := map[], [];
    }

    ghost function Value(): Db
      reads this
    {
      Db(rows, outbox)
    }

    /** `next_version!` */
    method Next(id: Id) returns (version: int)
      ensures version == NextVersion(if id in rows then Some(rows[id].version) else None)
    {
      version := if id in rows then (if rows[id].version < 0 then 0 else rows[id].version) + 1 else 1;
    }

    /** `set_version!` */
    method Record(id: Id, version: int)
      modifies this`rows
      ensures rows == if id in old(rows) then old(rows)[id := old(rows)[id].(version := SetVersion(old(rows)[id].version, version))] else old(rows)
    {
      if id in rows && rows[id].version < version {
        rows := rows[id := rows[id].(version := version)];
      }
    }

    /** `UPDATE … WHERE status IN (from)`, reporting whether it matched. */
    method Move(id: Id, to: Status, from: seq<Status>, release: Option<ReleaseReason>, cancel: Option<CancelReason>)
      returns (changed: Changed)
      modifies this`rows
      ensures changed == Yes <==> id in old(rows) && old(rows)[id].status in from
      ensures rows == if changed == Yes then old(rows)[id := Transitioned(old(rows)[id], to, release, cancel)] else old(rows)
    {
      if id in rows && rows[id].status in from {
        rows := rows[id := Transitioned(rows[id], to, release, cancel)];
        changed := Yes;
      } else {
        changed := No;
      }
    }

    method Enqueue(env: Envelope)
      modifies this`outbox
      ensures outbox == old(outbox) + [env]
    {
      outbox := outbox + [env];
    }

    /**
     One guarded transition: mint, move, and only if the row moved record the version and enqueue
     the event. Shared by the sweeper, the spot reactor, the settled payment and the renter's own
     release and cancel. The answer is the version a client should wait for.
     */
    method Settle(id: Id, m: Move) returns (version: int)
      modifies this
      ensures Value() == Tx(old(Value()), Transition(id, m))
      ensures id in rows && rows[id].version >= 0 ==> version == rows[id].version
    {
      version := Next(id);
      var changed := Move(id, To(m), [From(m)], ReleaseOf(m), CancelOf(m));
      if changed == No {
        return version - 1;
      }
      Record(id, version);
      Enqueue(P.Envelope(id, version, EventOf(m)));
      assert rows == old(rows)[id := MovedRow(old(rows)[id], m)];
    }

    /** A rating is stored first and numbered afterwards; the update is its own guard. */
    method RateBooking(id: Id, rating: int) returns (rated: bool)
      modifies this
      ensures Value() == Tx(old(Value()), Rate(id, rating))
      ensures rated <==> outbox != old(outbox)
    {
      if id !in rows || rows[id].status != Confirmed || rows[id].rating.Some? {
        return false;
      }
      rows := rows[id := rows[id].(rating := Some(rating))];
      var version := Next(id);
      Record(id, version);
      Enqueue(P.Envelope(id, version, BookingRated(rating)));
      rated := true;
      assert rows == old(rows)[id := old(rows)[id].(rating := Some(rating), version := version)];
    }

    /** The tail of a reservation that passed its checks: the row and its first event. A resubmitted
        form finds its booking and writes nothing. */
    method Hold(b: NewBooking) returns (version: int)
      modifies this
      ensures Value() == Tx(old(Value()), Create(b))
      ensures b.bookingId in rows && version == rows[b.bookingId].version
      ensures b.bookingId !in old(rows) ==> version == 1
      ensures var row := Booking(b.bookingId, 1, b.spotId, b.hostId, b.renterId, b.booked, b.licensePlate, b.amountCents,
                                 Reserved, Some(b.expiresAt), None, None, b.endsAt, None);
        b.bookingId !in old(rows) ==> rows[b.bookingId] == row
    {
      if b.bookingId in rows {
        return rows[b.bookingId].version;
      }
      rows := rows[b.bookingId := CreatedRow(b)];
      Enqueue(P.Envelope(b.bookingId, 1, BookingCreated(b)));
      version := 1;
    }

    /** At most `limit` of the holds whose expiry has passed, in whatever order the query gives. */
    method LapsedHolds(now: int, limit: nat) returns (ids: seq<Id>)
      ensures forall id :: id in ids ==> id in rows && Lapsed(rows[id], now)
      ensures forall i, j :: 0 <= i < j < |ids| ==> ids[i] != ids[j]
      ensures |ids| <= limit
      ensures |ids| < limit ==> forall id :: id in rows && Lapsed(rows[id], now) ==> id in ids
      ensures forall id :: id in ids ==> rows[id].status == Reserved && rows[id].holdUntil.Some? && rows[id].holdUntil.value < now
      ensures |ids| < limit ==> forall id :: id in rows && rows[id].status == Reserved && rows[id].holdUntil.Some? && rows[id].holdUntil.value < now ==> id in ids
    {
      var left := set id | id in rows && Lapsed(rows[id], now);
      ids := [];
      while left != {} && |ids| < limit
        invariant |ids| <= limit
        invariant forall id :: id in rows && Lapsed(rows[id], now) <==> id in left || id in ids
        invariant forall id :: id in ids ==> id !in left
        invariant forall i, j :: 0 <= i < j < |ids| ==> ids[i] != ids[j]
        decreases left
      {
        var id :| id in left;
        left := left - {id};
        ids := ids + [id];
      }
    }

    /**
     One tick of the sweeper. The lapsed holds are read first and released afterwards, one
     transaction each; a transaction that fails (`fails`) rolls back and the loop moves on.
     */
    method Sweep(now: int, fails: set<Id>) returns (lapsed: seq<Id>)
      modifies this
      ensures |lapsed| <= MAX_PER_SWEEP && forall id :: id in lapsed ==> id in old(rows) && Lapsed(old(rows)[id], now)
      ensures Value() == MoveAll(old(Value()), Release(Expired), lapsed, fails)
      ensures |lapsed| < MAX_PER_SWEEP ==> forall id :: id in rows && Lapsed(rows[id], now) ==> id in fails
      ensures Happened(old(Value()), Tick(now, fails, |lapsed| == MAX_PER_SWEEP), Value())
    {
      lapsed := LapsedHolds(now, MAX_PER_SWEEP);
      var i := 0;
      while i < |lapsed|
        invariant 0 <= i <= |lapsed|
        invariant Value() == MoveAll(old(Value()), Release(Expired), lapsed[..i], fails)
      {
        assert lapsed[..i + 1][..i] == lapsed[..i];
        if lapsed[i] !in fails {
          var version := Settle(lapsed[i], Release(Expired));
        }
        i := i + 1;
      }
      assert lapsed[..i] == lapsed;
      forall id | id in rows && Lapsed(rows[id], now) && |lapsed| < MAX_PER_SWEEP ensures id in fails {
        MoveAllMovesOnce(old(Value()), Release(Expired), lapsed, fails, id);
      }
      ReleasedIsSwept(old(Value()), now, lapsed, fails, |lapsed| == MAX_PER_SWEEP);
    }

    /** Paid bookings on one spot that are still to come. */
    method UpcomingConfirmed(spot: Id, at: int) returns (ids: seq<Id>)
      ensures forall id :: id in ids <==> id in rows && Upcoming(rows[id], spot, at)
    {
      var left := set id | id in rows && Upcoming(rows[id], spot, at);
      ids := [];
      while left != {}
        invariant forall id :: id in rows && Upcoming(rows[id], spot, at) <==> id in left || id in ids
        decreases left
      {
        var id :| id in left;
        left := left - {id};
        ids := ids + [id];
      }
    }

    /**
     Withdraws the bookings a spot can no longer honour. Afterwards none is left; exactly the
     withdrawn ones moved, each by one version and one event; every other row and history is as
     it was. The event seen again changes nothing.
     */
    method React(event: SpotEvent, at: int, fits: (Hours, Booking) -> bool)
      modifies this
      ensures forall id :: Reacted(event, at, fits, old(Value()), Value(), id)
      ensures Settled(event, at, fits, Value())
      ensures Settled(event, at, fits, old(Value())) ==> Value() == old(Value())
    {
      if event.SpotCreated? || (event.SpotUpdated? && event.availability.None?) {
        return;
      }
      var upcoming := UpcomingConfirmed(event.spotId, at);
      var read := rows;
      ghost var before := Value();
      ghost var kept := set id | id in upcoming && id in read && !Withdrawn(event, read[id], at, fits);
      var i := 0;
      while i < |upcoming|
        invariant 0 <= i <= |upcoming|
        invariant Value() == MoveAll(before, Cancel(SpotUnavailable), upcoming[..i], kept)
      {
        assert upcoming[..i + 1][..i] == upcoming[..i];
        assert upcoming[i] in upcoming;
        if event.SpotDeleted? || !fits(event.availability.value, read[upcoming[i]]) {
          var version := Settle(upcoming[i], Cancel(SpotUnavailable));
        }
        i := i + 1;
      }
      assert upcoming[..i] == upcoming;
      CancellingReacts(event, at, fits, before, upcoming, kept);
      ReactedSettles(event, at, fits, before, Value());
    }
  }
}
