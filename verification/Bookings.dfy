/**
 booking-service's own bookings: the guarded writes, what each commits, and what a history of
 events says about a booking.
 */
module Bookings {
  import opened Times
  import opened Versions
  import opened Wrappers
  import P = Pipeline

  type Id = nat

  type Booked = map<string, seq<TimeSlot>>

  datatype Status = Reserved | Confirmed | Released | Cancelled
  datatype ReleaseReason = Abandoned | Expired
  datatype CancelReason = ByRenter | SpotUnavailable

  datatype NewBooking = NewBooking(bookingId: Id, spotId: Id, hostId: Id, renterId: Id, booked: Booked,
                                   licensePlate: string, amountCents: int, expiresAt: int, endsAt: int)

  datatype BookingEvent =
    | BookingCreated(booking: NewBooking)
    | BookingConfirmed
    | BookingReleased(release: ReleaseReason)
    | BookingCancelled(cancel: CancelReason)
    | BookingRated(rating: int)

  datatype Booking = Booking(id: Id, version: int, spotId: Id, hostId: Id, renterId: Id, booked: Booked,
                             licensePlate: string, amount: int, status: Status, holdUntil: Option<int>,
                             releaseReason: Option<ReleaseReason>, cancelReason: Option<CancelReason>,
                             endsAt: int, rating: Option<int>)

  type Envelope = P.Envelope<BookingEvent>

  /** The booking table, and every row the service ever inserted into its outbox, in order. */
  datatype Db = Db(rows: map<Id, Booking>, outbox: seq<Envelope>)

  /** A status transition, by what asks for it. */
  datatype Move = Confirm | Release(why: ReleaseReason) | Cancel(who: CancelReason)

  datatype Op = Create(booking: NewBooking) | Transition(id: Id, move: Move) | Rate(id: Id, rating: int)

  function Target(op: Op): Id {
    match op
    case Create(b) => b.bookingId
    case Transition(id, _) => id
    case Rate(id, _) => id
  }

  function RowOf(rows: map<Id, Booking>, id: Id): Option<Booking> {
    if id in rows then Some(rows[id]) else None
  }

  // ---------------------------------------------------------------- the guarded writes

  function CreatedRow(b: NewBooking): Booking {
    Booking(b.bookingId, 1, b.spotId, b.hostId, b.renterId, b.booked, b.licensePlate, b.amountCents,
            Reserved, Some(b.expiresAt), None, None, b.endsAt, None)
  }

  /** The one status the guard of a transition admits. */
  function From(m: Move): Status {
    match m
    case Confirm => Reserved
    case Release(_) => Reserved
    case Cancel(_) => Confirmed
  }

  function To(m: Move): Status {
    match m
    case Confirm => Confirmed
    case Release(_) => Released
    case Cancel(_) => Cancelled
  }

  function ReleaseOf(m: Move): Option<ReleaseReason> {
    if m.Release? then Some(m.why) else None
  }

  function CancelOf(m: Move): Option<CancelReason> {
    if m.Cancel? then Some(m.who) else None
  }

  function EventOf(m: Move): BookingEvent {
    match m
    case Confirm => BookingConfirmed
    case Release(why) => BookingReleased(why)
    case Cancel(who) => BookingCancelled(who)
  }

  /** An absent reason is a column the statement does not mention. */
  function Else<T>(given: Option<T>, stored: Option<T>): Option<T> {
    if given.Some? then given else stored
  }

  /** The columns a transition sets; the hold always ends. The version is set separately. */
  function Transitioned(row: Booking, to: Status, release: Option<ReleaseReason>, cancel: Option<CancelReason>): Booking {
    row.(status := to, holdUntil := None, releaseReason := Else(release, row.releaseReason),
         cancelReason := Else(cancel, row.cancelReason))
  }

  /** What one transaction does to a locked row: the row and the event, or nothing. */
  function Outcome(row: Option<Booking>, op: Op): Option<(Booking, BookingEvent)> {
    match op
    case Create(b) => if row.Some? then None else Some((CreatedRow(b), BookingCreated(b)))
    case Transition(_, m) =>
      if row.None? || row.value.status != From(m) then None
      else Some((Transitioned(row.value, To(m), ReleaseOf(m), CancelOf(m)).(version := NextVersion(Some(row.value.version))),
                 EventOf(m)))
    case Rate(_, n) =>
      if row.None? || row.value.status != Confirmed || row.value.rating.Some? then None
      else Some((row.value.(rating := Some(n), version := NextVersion(Some(row.value.version))), BookingRated(n)))
  }

  function Store(db: Db, id: Id, outcome: Option<(Booking, BookingEvent)>): Db {
    match outcome
    case None => db
    case Some((row, event)) => Db(db.rows[id := row], db.outbox + [P.Envelope(id, row.version, event)])
  }

  /** One whole transaction, atomically. */
  function Tx(db: Db, op: Op): Db {
    Store(db, Target(op), Outcome(RowOf(db.rows, Target(op)), op))
  }

  // ---------------------------------------------------------------- what a history says

  /** The events of one booking, in the order they were enqueued. */
  function History(outbox: seq<Envelope>, id: Id): seq<Envelope> {
    if outbox == [] then [] else
    History(outbox[..|outbox| - 1], id) + if outbox[|outbox| - 1].agg == id then [outbox[|outbox| - 1]] else []
  }

  /** What one event makes of a booking it can happen to. */
  function Happens(id: Id, row: Option<Booking>, e: BookingEvent): Option<Booking> {
    match (e, row)
    case (BookingCreated(b), None) => if b.bookingId == id then Some(CreatedRow(b)) else None
    case (BookingConfirmed, Some(r)) =>
      if r.status == Reserved then Some(r.(status := Confirmed, holdUntil := None, version := r.version + 1)) else None
    case (BookingReleased(why), Some(r)) =>
      if r.status == Reserved then Some(r.(status := Released, holdUntil := None, releaseReason := Some(why), version := r.version + 1)) else None
    case (BookingCancelled(who), Some(r)) =>
      if r.status == Confirmed then Some(r.(status := Cancelled, holdUntil := None, cancelReason := Some(who), version := r.version + 1)) else None
    case (BookingRated(n), Some(r)) =>
      if r.status == Confirmed && r.rating == None then Some(r.(rating := Some(n), version := r.version + 1)) else None
    case _ => None
  }

  /** Every event happened to the booking its predecessors left, and carries the next version. */
  predicate Legal(id: Id, es: seq<Envelope>) {
    es == [] ||
    var last := es[|es| - 1];
    && Legal(id, es[..|es| - 1])
    && last.agg == id && last.version == |es|
    && Happens(id, Replay(id, es[..|es| - 1]), last.payload).Some?
  }

  /** The booking a history leaves behind. */
  function Replay(id: Id, es: seq<Envelope>): Option<Booking> {
    if es == [] then None else Happens(id, Replay(id, es[..|es| - 1]), es[|es| - 1].payload)
  }

  /** The row of a booking is what its enqueued events say, one event per version. */
  ghost predicate Gapless(db: Db, id: Id) {
    && Legal(id, History(db.outbox, id))
    && Replay(id, History(db.outbox, id)) == RowOf(db.rows, id)
    && (id in db.rows ==> db.rows[id].id == id && db.rows[id].version == |History(db.outbox, id)|)
  }

  lemma HistorySnoc(outbox: seq<Envelope>, env: Envelope, id: Id)
    ensures History(outbox + [env], id) == if env.agg == id then History(outbox, id) + [env] else History(outbox, id)
  {
    assert (outbox + [env])[..|outbox|] == outbox;
  }

  lemma LegalSnoc(id: Id, es: seq<Envelope>, env: Envelope)
    requires Legal(id, es) && env.agg == id && env.version == |es| + 1
    requires Happens(id, Replay(id, es), env.payload).Some?
    ensures Legal(id, es + [env]) && Replay(id, es + [env]) == Happens(id, Replay(id, es), env.payload)
  {
    assert (es + [env])[..|es|] == es;
  }

  /** What a transaction writes is what its event says happened. */
  lemma OutcomeHappens(row: Option<Booking>, op: Op)
    requires row.Some? ==> row.value.version >= 0
    requires Outcome(row, op).Some?
    ensures Happens(Target(op), row, Outcome(row, op).value.1) == Some(Outcome(row, op).value.0)
    ensures Outcome(row, op).value.0.version == (if row.Some? then row.value.version else 0) + 1
    ensures row.Some? ==> Outcome(row, op).value.0.id == row.value.id
  {
  }

  /** A transaction keeps every booking gapless: it adds one version and one event, or neither. */
  lemma TxGapless(db: Db, op: Op, id: Id)
    requires Gapless(db, id) && Gapless(db, Target(op))
    ensures Gapless(Tx(db, op), id)
  {
    var t := Target(op);
    var row := RowOf(db.rows, t);
    if Outcome(row, op).Some? {
      var (row', event) := Outcome(row, op).value;
      var env := P.Envelope(t, row'.version, event);
      HistorySnoc(db.outbox, env, id);
      OutcomeHappens(row, op);
      if id == t {
        LegalSnoc(t, History(db.outbox, t), env);
      }
    }
  }

  /** A refused transaction adds neither a version nor an outbox row; an accepted one adds exactly
      one of each, to its own booking and to no other. */
  lemma RefusedBurnsNothing(db: Db, op: Op, id: Id)
    requires Gapless(db, Target(op))
    ensures Outcome(RowOf(db.rows, Target(op)), op).None? ==> Tx(db, op) == db
    ensures Outcome(RowOf(db.rows, Target(op)), op).Some? ==>
      && |Tx(db, op).outbox| == |db.outbox| + 1
      && |History(Tx(db, op).outbox, Target(op))| == |History(db.outbox, Target(op))| + 1
      && Tx(db, op).rows[Target(op)].version == |History(db.outbox, Target(op))| + 1
      && (id != Target(op) ==> RowOf(Tx(db, op).rows, id) == RowOf(db.rows, id) && History(Tx(db, op).outbox, id) == History(db.outbox, id))
  {
    var t := Target(op);
    if Outcome(RowOf(db.rows, t), op).Some? {
      var (row, event) := Outcome(RowOf(db.rows, t), op).value;
      HistorySnoc(db.outbox, P.Envelope(t, row.version, event), id);
      HistorySnoc(db.outbox, P.Envelope(t, row.version, event), t);
    }
  }

  /** Version n of a booking is its n-th enqueued event, and there is no other. */
  lemma {:induction false} OneEventPerVersion(id: Id, es: seq<Envelope>, i: nat)
    requires Legal(id, es) && i < |es|
    ensures es[i].version == i + 1 && es[i].agg == id
    ensures Legal(id, es[..i + 1])
    decreases |es|
  {
    if i < |es| - 1 {
      OneEventPerVersion(id, es[..|es| - 1], i);
      assert es[..|es| - 1][..i + 1] == es[..i + 1];
    } else {
      assert es[..i + 1] == es;
    }
  }

  // ---------------------------------------------------------------- one move over many bookings

  /** The same transition attempted on a list of bookings, one transaction each, leaving out those
      in `skip`. The list may be stale and may repeat itself. */
  function MoveAll(db: Db, m: Move, ids: seq<Id>, skip: set<Id>): Db {
    if ids == [] then db else
    var before := MoveAll(db, m, ids[..|ids| - 1], skip);
    if ids[|ids| - 1] in skip then before else Tx(before, Transition(ids[|ids| - 1], m))
  }

  ghost predicate Eligible(db: Db, m: Move, ids: seq<Id>, skip: set<Id>, x: Id) {
    x in ids && x !in skip && x in db.rows && db.rows[x].status == From(m)
  }

  /** The row after the transition took effect. */
  function MovedRow(row: Booking, m: Move): Booking {
    Transitioned(row, To(m), ReleaseOf(m), CancelOf(m)).(version := NextVersion(Some(row.version)))
  }

  /** Exactly the eligible bookings move, each once: one version, one event; the others keep their
      row and their history. */
  ghost predicate MovedOnce(db: Db, db': Db, m: Move, ids: seq<Id>, skip: set<Id>, x: Id) {
    if Eligible(db, m, ids, skip, x) then
      && RowOf(db'.rows, x) == Some(MovedRow(db.rows[x], m))
      && History(db'.outbox, x) == History(db.outbox, x) + [P.Envelope(x, MovedRow(db.rows[x], m).version, EventOf(m))]
    else
      && RowOf(db'.rows, x) == RowOf(db.rows, x)
      && History(db'.outbox, x) == History(db.outbox, x)
  }

  lemma MovedOnceSnoc(db: Db, db': Db, m: Move, ids: seq<Id>, skip: set<Id>, id: Id, x: Id)
    requires MovedOnce(db, db', m, ids, skip, x)
    ensures MovedOnce(db, if id in skip then db' else Tx(db', Transition(id, m)), m, ids + [id], skip, x)
  {
    var outcome := Outcome(RowOf(db'.rows, id), Transition(id, m));
    if id !in skip && outcome.Some? {
      HistorySnoc(db'.outbox, P.Envelope(id, outcome.value.0.version, outcome.value.1), x);
    }
  }

  lemma {:induction false} MoveAllMovesOnce(db: Db, m: Move, ids: seq<Id>, skip: set<Id>, x: Id)
    ensures MovedOnce(db, MoveAll(db, m, ids, skip), m, ids, skip, x)
    decreases |ids|
  {
    if ids != [] {
      var front, id := ids[..|ids| - 1], ids[|ids| - 1];
      MoveAllMovesOnce(db, m, front, skip, x);
      MovedOnceSnoc(db, MoveAll(db, m, front, skip), m, front, skip, id, x);
      assert front + [id] == ids;
    }
  }

  lemma {:induction false} NoneEligible(db: Db, m: Move, ids: seq<Id>, skip: set<Id>)
    requires forall x :: !Eligible(db, m, ids, skip, x)
    ensures MoveAll(db, m, ids, skip) == db
    decreases |ids|
  {
    if ids != [] {
      var front := ids[..|ids| - 1];
      assert !Eligible(db, m, ids, skip, ids[|ids| - 1]);
      forall x: Id | Eligible(db, m, front, skip, x) ensures Eligible(db, m, ids, skip, x) {
      }
      NoneEligible(db, m, front, skip);
    }
  }

  /** Two passes over overlapping lists, in either order or by two replicas, are one pass: a second
      sweep of a hold publishes nothing and burns no version. */
  lemma {:induction false} SecondPassIsNoOp(db: Db, m: Move, ids: seq<Id>, again: seq<Id>, skip: set<Id>)
    requires forall x :: x in again ==> x in ids
    ensures MoveAll(MoveAll(db, m, ids, skip), m, again, skip) == MoveAll(db, m, ids, skip)
    decreases |again|
  {
    if again != [] {
      var id := again[|again| - 1];
      assert forall x :: x in again[..|again| - 1] ==> x in again;
      assert id in again;
      SecondPassIsNoOp(db, m, ids, again[..|again| - 1], skip);
      MoveAllMovesOnce(db, m, ids, skip, id);
    }
  }

  lemma {:induction false} MoveAllGapless(db: Db, m: Move, ids: seq<Id>, skip: set<Id>)
    requires forall x :: Gapless(db, x)
    ensures forall x :: Gapless(MoveAll(db, m, ids, skip), x)
    decreases |ids|
  {
    if ids != [] {
      MoveAllGapless(db, m, ids[..|ids| - 1], skip);
      forall x: Id ensures Gapless(MoveAll(db, m, ids, skip), x) {
        if ids[|ids| - 1] !in skip {
          TxGapless(MoveAll(db, m, ids[..|ids| - 1], skip), Transition(ids[|ids| - 1], m), x);
        }
      }
    }
  }
}
