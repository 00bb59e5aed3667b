/**
 The reaction to a host's edit beside the other writers. It reads the list of upcoming paid bookings
 once, cancels the ones the new hours do not honour in one transaction, and other transactions commit
 between the read and its commit.
 */
module Reactions {
  import opened Bookings
  import opened BookingStores
  import opened Policy
  import opened Wrappers
  import O = Owners

  /** To come, and not honoured by the spot the event describes, paid or not. */
  predicate Unfit(event: SpotEvent, row: Booking, at: int, fits: (Hours, Booking) -> bool) {
    Withdrawn(event, row.(status := Confirmed), at, fits)
  }

  /** The judgement looks at a booking's slots and nothing else. */
  ghost predicate BySlots(fits: (Hours, Booking) -> bool) {
    forall hours, a: Booking, b: Booking :: a.booked == b.booked ==> fits(hours, a) == fits(hours, b)
  }

  lemma WithdrawnIff(event: SpotEvent, row: Booking, at: int, fits: (Hours, Booking) -> bool)
    requires BySlots(fits)
    ensures Withdrawn(event, row, at, fits) <==> Unfit(event, row, at, fits) && row.status == Confirmed
  {
    assert row.booked == row.(status := Confirmed).booked;
  }

  /** An edit is judged by what no transaction ever changes. */
  lemma UnfitStays(event: SpotEvent, row: Booking, later: Booking, at: int, fits: (Hours, Booking) -> bool)
    requires BySlots(fits) && row.spotId == later.spotId && row.endsAt == later.endsAt && row.booked == later.booked
    ensures Unfit(event, row, at, fits) <==> Unfit(event, later, at, fits)
  {
    assert row.(status := Confirmed).booked == later.(status := Confirmed).booked;
  }

  // ---------------------------------------------------------------- one booking under many writes

  predicate Cancels(op: Op, id: Id) {
    op.Transition? && op.id == id && op.move.Cancel?
  }

  predicate Paid(row: Option<Booking>) {
    row.Some? && row.value.status == Confirmed
  }

  lemma {:induction false} ColumnsStay(db: Db, ops: seq<Op>, id: Id)
    requires id in db.rows
    ensures id in O.TxAll(db, ops).rows
    ensures var row := O.TxAll(db, ops).rows[id];
      row.spotId == db.rows[id].spotId && row.endsAt == db.rows[id].endsAt && row.booked == db.rows[id].booked
  {
    if ops != [] {
      ColumnsStay(db, ops[..|ops| - 1], id);
    }
  }

  /** How one write moves a booking in and out of being paid. */
  lemma PaidStep(db: Db, op: Op, id: Id)
    ensures Paid(RowOf(Tx(db, op).rows, id)) <==>
      || (Paid(RowOf(db.rows, id)) && !Cancels(op, id))
      || (op == Transition(id, Confirm) && id in db.rows && db.rows[id].status == Reserved)
    ensures id in db.rows && db.rows[id].status == Cancelled ==> id in Tx(db, op).rows && Tx(db, op).rows[id].status == Cancelled
    ensures Paid(RowOf(db.rows, id)) && Cancels(op, id) ==> id in Tx(db, op).rows && Tx(db, op).rows[id].status == Cancelled
  {
  }

  /** Once cancelled, for good; and a cancellation among the writes finds a paid booking paid or already
      cancelled. */
  lemma {:induction false} CancelledForGood(db: Db, ops: seq<Op>, id: Id)
    requires Paid(RowOf(db.rows, id))
    ensures id in O.TxAll(db, ops).rows
    ensures O.TxAll(db, ops).rows[id].status == if exists op | op in ops :: Cancels(op, id) then Cancelled else Confirmed
  {
    if ops != [] {
      var front, last := ops[..|ops| - 1], ops[|ops| - 1];
      assert ops == front + [last];
      CancelledForGood(db, front, id);
      PaidStep(O.TxAll(db, front), last, id);
    }
  }

  /** Some write confirmed the booking, and none after it cancelled it. */
  ghost predicate ConfirmedSince(db: Db, ops: seq<Op>, id: Id) {
    exists i :: 0 <= i < |ops| && ConfirmedAt(db, ops, id, i)
  }

  ghost predicate ConfirmedAt(db: Db, ops: seq<Op>, id: Id, i: nat)
    requires i < |ops|
  {
    && ops[i] == Transition(id, Confirm)
    && id in O.TxAll(db, ops[..i]).rows && O.TxAll(db, ops[..i]).rows[id].status == Reserved
    && forall j :: i < j < |ops| ==> !Cancels(ops[j], id)
  }

  lemma SinceSnoc(db: Db, ops: seq<Op>, op: Op, id: Id)
    ensures ConfirmedSince(db, ops + [op], id) <==>
      || (ConfirmedSince(db, ops, id) && !Cancels(op, id))
      || (op == Transition(id, Confirm) && id in O.TxAll(db, ops).rows && O.TxAll(db, ops).rows[id].status == Reserved)
  {
    var all := ops + [op];
    assert all[..|ops|] == ops && all[|ops|] == op;
    forall i: nat | i < |ops| ensures ConfirmedAt(db, all, id, i) <==> ConfirmedAt(db, ops, id, i) && !Cancels(op, id) {
      assert all[..i] == ops[..i] && all[i] == ops[i];
      assert forall j :: i < j < |ops| ==> all[j] == ops[j];
    }
    assert ConfirmedAt(db, all, id, |ops|) <==>
      op == Transition(id, Confirm) && id in O.TxAll(db, ops).rows && O.TxAll(db, ops).rows[id].status == Reserved;
  }

  /** A booking is paid after some writes exactly when it was and none cancelled it, or one confirmed it
      and none after that cancelled it. */
  lemma {:induction false} PaidIff(db: Db, ops: seq<Op>, id: Id)
    ensures Paid(RowOf(O.TxAll(db, ops).rows, id)) <==>
      || (Paid(RowOf(db.rows, id)) && forall op | op in ops :: !Cancels(op, id))
      || ConfirmedSince(db, ops, id)
  {
    if ops != [] {
      var front, last := ops[..|ops| - 1], ops[|ops| - 1];
      assert ops == front + [last];
      PaidIff(db, front, id);
      PaidStep(O.TxAll(db, front), last, id);
      SinceSnoc(db, front, last, id);
    }
  }

  // ---------------------------------------------------------------- one transaction among many

  /** The writes one writer asks for. */
  function Takes(acts: seq<O.Action>, w: nat): seq<Op> {
    if acts == [] then []
    else (if acts[0].Take? && acts[0].writer == w then [acts[0].op] else []) + Takes(acts[1..], w)
  }

  /** It has neither committed nor given up. */
  ghost predicate Open(acts: seq<O.Action>, w: nat) {
    forall i :: 0 <= i < |acts| && acts[i].writer == w ==> acts[i].Take?
  }

  lemma {:induction false} WorkGrows(s: O.State, acts: seq<O.Action>, w: nat)
    requires O.Run(s, acts) && w in s.writers && Open(acts, w)
    ensures w in O.After(s, acts).writers
    ensures O.Ops(O.After(s, acts).writers[w]) == O.Ops(s.writers[w]) + Takes(acts, w)
    decreases |acts|
  {
    if acts != [] {
      var t := O.Do(s, acts[0]);
      WorkStep(s, acts[0], w);
      OpenRest(acts, w);
      WorkGrows(t, acts[1..], w);
      assert O.After(s, acts) == O.After(t, acts[1..]);
      var one := if acts[0].Take? && acts[0].writer == w then [acts[0].op] else [];
      assert O.Ops(s.writers[w]) + one + Takes(acts[1..], w) == O.Ops(s.writers[w]) + (one + Takes(acts[1..], w));
    }
  }

  lemma OpenRest(acts: seq<O.Action>, w: nat)
    requires Open(acts, w) && acts != []
    ensures (acts[0].writer == w ==> acts[0].Take?) && Open(acts[1..], w)
  {
    assert forall i :: 0 <= i < |acts| - 1 ==> acts[1..][i] == acts[i + 1];
  }

  lemma WorkStep(s: O.State, act: O.Action, w: nat)
    requires O.Enabled(s, act) && w in s.writers && (act.writer == w ==> act.Take?)
    ensures w in O.Do(s, act).writers
    ensures O.Ops(O.Do(s, act).writers[w]) == O.Ops(s.writers[w]) + if act.Take? && act.writer == w then [act.op] else []
  {
  }

  lemma {:induction false} CommittedLast(s: O.State, acts: seq<O.Action>, w: nat)
    requires O.Run(s, acts + [O.Finish(w)])
    ensures O.Run(s, acts) && w in O.After(s, acts).writers
    ensures O.Committed(s, acts + [O.Finish(w)]) == O.Committed(s, acts) + O.Ops(O.After(s, acts).writers[w])
    decreases |acts|
  {
    var all := acts + [O.Finish(w)];
    if acts == [] {
      assert all[1..] == [];
    } else {
      assert all[0] == acts[0] && all[1..] == acts[1..] + [O.Finish(w)];
      CommittedLast(O.Do(s, acts[0]), acts[1..], w);
    }
  }

  /** Writer `w` reacts: it listed `ids` when the others were at `s`, asks for their cancellation one by
      one, and commits last, whatever the others do in between. */
  ghost predicate Reacts(s: O.State, acts: seq<O.Action>, w: nat, ids: seq<Id>) {
    && O.Run(s, acts + [O.Finish(w)]) && w in s.writers && s.writers[w] == []
    && Open(acts, w) && Takes(acts, w) == O.Transitions(Cancel(SpotUnavailable), ids, {})
  }

  /** What the reaction has to cancel, as the database was when it looked. */
  ghost predicate Lists(ids: seq<Id>, db: Db, event: SpotEvent, at: int, fits: (Hours, Booking) -> bool) {
    forall id :: id in ids <==> id in db.rows && Withdrawn(event, db.rows[id], at, fits)
  }

  lemma {:induction false} AllAsked(m: Move, ids: seq<Id>, id: Id)
    requires id in ids
    ensures Transition(id, m) in O.Transitions(m, ids, {})
  {
    var front, last := ids[..|ids| - 1], ids[|ids| - 1];
    assert ids == front + [last];
    if id != last {
      AllAsked(m, front, id);
    }
  }

  lemma ReactionCommits(s: O.State, acts: seq<O.Action>, w: nat, ids: seq<Id>)
    requires O.Inv(s) && Reacts(s, acts, w, ids)
    ensures var ops := O.Committed(s, acts + [O.Finish(w)]);
      && O.After(s, acts + [O.Finish(w)]).db == O.TxAll(s.db, ops)
      && forall id | id in ids :: Transition(id, Cancel(SpotUnavailable)) in ops
  {
    CommittedLast(s, acts, w);
    WorkGrows(s, acts, w);
    O.WritersStayGapless(s, acts + [O.Finish(w)]);
    forall id | id in ids ensures Transition(id, Cancel(SpotUnavailable)) in O.Ops(O.After(s, acts).writers[w]) {
      AllAsked(Cancel(SpotUnavailable), ids, id);
    }
  }

  /**
   What the reaction leaves. Once it has committed, beside any other writers: every booking it listed is
   cancelled, by it or by another; and the paid bookings that the new hours do not honour are exactly
   the ones to come that a write committed since the list was read confirmed, with no cancellation
   committed after that.
   */
  lemma LeftBehindIff(s: O.State, acts: seq<O.Action>, w: nat, ids: seq<Id>, event: SpotEvent, at: int,
                      fits: (Hours, Booking) -> bool, id: Id)
    requires O.Inv(s) && Reacts(s, acts, w, ids) && Lists(ids, s.db, event, at, fits) && BySlots(fits)
    ensures var rows := O.After(s, acts + [O.Finish(w)]).db.rows;
      && (id in ids ==> id in rows && rows[id].status == Cancelled)
      && (id in rows && Withdrawn(event, rows[id], at, fits) <==>
            id in rows && Unfit(event, rows[id], at, fits) && ConfirmedSince(s.db, O.Committed(s, acts + [O.Finish(w)]), id))
  {
    var ops := O.Committed(s, acts + [O.Finish(w)]);
    var rows := O.TxAll(s.db, ops).rows;
    ReactionCommits(s, acts, w, ids);
    PaidIff(s.db, ops, id);
    if id in ids {
      assert Cancels(Transition(id, Cancel(SpotUnavailable)), id);
      WithdrawnIff(event, s.db.rows[id], at, fits);
      CancelledForGood(s.db, ops, id);
    }
    if id in rows {
      WithdrawnIff(event, rows[id], at, fits);
      if id in s.db.rows {
        ColumnsStay(s.db, ops, id);
        UnfitStays(event, s.db.rows[id], rows[id], at, fits);
        WithdrawnIff(event, s.db.rows[id], at, fits);
      }
    }
  }

  /** A hold that is paid between the read of the list and the commit: the reaction had nothing to list,
      and the booking stays paid outside the hours. */
  lemma LateConfirmIsLeft(s: O.State, event: SpotEvent, at: int, fits: (Hours, Booking) -> bool, id: Id)
    requires O.Inv(s) && s.writers == map[0 := [], 1 := []] && BySlots(fits) && Lists([], s.db, event, at, fits)
    requires id in s.db.rows && s.db.rows[id].status == Reserved && Unfit(event, s.db.rows[id], at, fits)
    ensures var acts := [O.Take(1, Transition(id, Confirm)), O.Finish(1)];
      && Reacts(s, acts, 0, [])
      && var rows := O.After(s, acts + [O.Finish(0)]).db.rows; id in rows && Withdrawn(event, rows[id], at, fits)
  {
    var acts := [O.Take(1, Transition(id, Confirm)), O.Finish(1)];
    var ops := [Transition(id, Confirm)];
    LateRun(s, Transition(id, Confirm));
    NothingAsked(acts, s);
    assert ops[..0] == [];
    assert ConfirmedAt(s.db, ops, id, 0);
    ReactionCommits(s, acts, 0, []);
    ColumnsStay(s.db, ops, id);
    UnfitStays(event, s.db.rows[id], O.TxAll(s.db, ops).rows[id], at, fits);
    LeftBehindIff(s, acts, 0, [], event, at, fits, id);
  }

  lemma NothingAsked(acts: seq<O.Action>, s: O.State)
    requires O.Run(s, acts + [O.Finish(0)]) && 0 in s.writers && s.writers[0] == []
    requires forall i :: 0 <= i < |acts| ==> acts[i].writer != 0
    ensures Reacts(s, acts, 0, [])
  {
    NoTakes(acts, 0);
  }

  lemma {:induction false} NoTakes(acts: seq<O.Action>, w: nat)
    requires forall i :: 0 <= i < |acts| ==> acts[i].writer != w
    ensures Takes(acts, w) == []
  {
    if acts != [] {
      NoTakes(acts[1..], w);
    }
  }

  /** One other writer's write, committed before the reaction. */
  lemma LateRun(s: O.State, op: Op)
    requires s.writers == map[0 := [], 1 := []]
    ensures O.Run(s, [O.Take(1, op), O.Finish(1)] + [O.Finish(0)])
    ensures O.Committed(s, [O.Take(1, op), O.Finish(1)] + [O.Finish(0)]) == [op]
  {
    var s1 := O.Do(s, O.Take(1, op));
    var s2 := O.Do(s1, O.Finish(1));
    assert s1.writers[1] == [O.Held(op, O.View(s.db.rows, [], Target(op)))];
    assert O.Ops(s1.writers[1]) == [op] && s2.writers[0] == [] && O.Ops(s2.writers[0]) == [];
    RunFirst(s2, O.Finish(0), []);
    RunFirst(s1, O.Finish(1), [O.Finish(0)]);
    RunFirst(s, O.Take(1, op), [O.Finish(1), O.Finish(0)]);
    assert [O.Take(1, op)] + ([O.Finish(1)] + ([O.Finish(0)] + [])) == [O.Take(1, op), O.Finish(1)] + [O.Finish(0)];
    assert [O.Finish(1)] + ([O.Finish(0)] + []) == [O.Finish(1), O.Finish(0)] && [O.Finish(0)] + [] == [O.Finish(0)];
  }

  lemma RunFirst(s: O.State, act: O.Action, rest: seq<O.Action>)
    requires O.Enabled(s, act) && O.Run(O.Do(s, act), rest)
    ensures O.Run(s, [act] + rest)
    ensures O.Committed(s, [act] + rest) == (if act.Finish? then O.Ops(s.writers[act.writer]) else []) + O.Committed(O.Do(s, act), rest)
  {
    assert ([act] + rest)[1..] == rest;
  }

  lemma HoursBySlots(calendar: Calendar)
    ensures BySlots(ByHours(calendar))
  {
  }

  /** Judged by the service's own check. */
  lemma HoursLeftBehindIff(s: O.State, acts: seq<O.Action>, w: nat, ids: seq<Id>, spot: Id, hours: Hours, at: int,
                           calendar: Calendar, id: Id)
    requires O.Inv(s) && Reacts(s, acts, w, ids) && Lists(ids, s.db, SpotUpdated(spot, Some(hours)), at, ByHours(calendar))
    ensures var rows := O.After(s, acts + [O.Finish(w)]).db.rows;
      (id in rows && Upcoming(rows[id], spot, at) && !Fits(hours, rows[id].booked, calendar)) <==>
        (id in rows && rows[id].spotId == spot && rows[id].endsAt > at && !Fits(hours, rows[id].booked, calendar)
           && ConfirmedSince(s.db, O.Committed(s, acts + [O.Finish(w)]), id))
  {
    HoursBySlots(calendar);
    LeftBehindIff(s, acts, w, ids, SpotUpdated(spot, Some(hours)), at, ByHours(calendar), id);
  }
}
