/**
 payment-service's mirrors: the booking mirror as a fold of BOOKINGS, the host mirror as a fold of
 USERS, and what a worker may conclude from a mirror row before it moves money.
 */
module Mirror {
  import opened B = Bookings
  import opened PipelineExact
  import opened PipelineSafety
  import opened Versions
  import opened Wrappers
  import P = Pipeline

  datatype BookingMirror = BookingMirror(id: Id, spotId: Id, hostId: Id, renterId: Id, amountCents: int,
                                         booked: Booked, status: Status, holdUntil: Option<int>, endsAt: int,
                                         cancelReason: Option<CancelReason>, releaseReason: Option<ReleaseReason>)

  function MirrorCreated(b: NewBooking): BookingMirror {
    BookingMirror(b.bookingId, b.spotId, b.hostId, b.renterId, b.amountCents, b.booked, Reserved,
                  Some(b.expiresAt), b.endsAt, None, None)
  }

  /** A transition guarded on one status: the patched columns, or nothing written. */
  function MirrorTransition(d: Option<BookingMirror>, from: Status, to: Status,
                            release: Option<ReleaseReason>, cancel: Option<CancelReason>): Option<BookingMirror> {
    if d.None? || d.value.status != from then None
    else Some(d.value.(status := to, holdUntil := None, releaseReason := Else(release, d.value.releaseReason),
                       cancelReason := Else(cancel, d.value.cancelReason)))
  }

  /** A row written over another: a column it has no value for is left alone. */
  function Merged(stored: BookingMirror, row: BookingMirror): BookingMirror {
    row.(holdUntil := Else(row.holdUntil, stored.holdUntil), cancelReason := Else(row.cancelReason, stored.cancelReason),
         releaseReason := Else(row.releaseReason, stored.releaseReason))
  }

  /** The columns one BOOKINGS event writes. */
  function MirrorStep(d: Option<BookingMirror>, e: BookingEvent): Option<BookingMirror> {
    match e
    case BookingCreated(b) => Some(if d.None? then MirrorCreated(b) else Merged(d.value, MirrorCreated(b)))
    case BookingConfirmed => MirrorTransition(d, Reserved, Confirmed, None, None)
    case BookingReleased(why) => MirrorTransition(d, Reserved, Released, Some(why), None)
    case BookingCancelled(who) => MirrorTransition(d, Confirmed, Cancelled, None, Some(who))
    case BookingRated(_) => None
  }

  /** A create over a row sets every column but the two reasons, which it has no value for. */
  lemma CreateOverRow(d: BookingMirror, b: NewBooking)
    ensures MirrorStep(Some(d), BookingCreated(b)) ==
      Some(BookingMirror(b.bookingId, b.spotId, b.hostId, b.renterId, b.amountCents, b.booked, Reserved,
                         Some(b.expiresAt), b.endsAt, d.cancelReason, d.releaseReason))
  {
  }

  /** The columns of the owner's booking that payment-service keeps. */
  function MirrorOf(b: Booking): BookingMirror {
    BookingMirror(b.id, b.spotId, b.hostId, b.renterId, b.amount, b.booked, b.status, b.holdUntil, b.endsAt,
                  b.cancelReason, b.releaseReason)
  }

  function MirrorOption(b: Option<Booking>): Option<BookingMirror> {
    match b
    case None => None
    case Some(x) => Some(MirrorOf(x))
  }

  /** The mirror refines the owner: after any number of the owner's events, every shared column is
      the owner's. */
  lemma {:induction false} MirrorFollowsOwner(id: Id, es: seq<Envelope>)
    requires Legal(id, es)
    ensures P.Fold(MirrorStep, es) == MirrorOption(Replay(id, es))
    decreases |es|
  {
    if es != [] {
      MirrorFollowsOwner(id, es[..|es| - 1]);
    }
  }

  lemma {:induction false} LegalPrefix(id: Id, es: seq<Envelope>, k: nat)
    requires Legal(id, es) && k <= |es|
    ensures Legal(id, es[..k])
    decreases |es|
  {
    if k < |es| {
      LegalPrefix(id, es[..|es| - 1], k);
      assert es[..|es| - 1][..k] == es[..k];
    } else {
      assert es[..k] == es;
    }
  }

  /** A booking's creating event is one the mirror can project first. */
  lemma CreatedCreates(id: Id, es: seq<Envelope>)
    requires Legal(id, es) && es != []
    ensures es[0].payload.BookingCreated? && P.Creates(MirrorStep, es[0].payload)
  {
    LegalPrefix(id, es, 1);
    assert es[..1][..0] == [];
    assert Replay(id, es[..1][..0]) == None;
  }

  predicate Terminal(s: Status) {
    s == Released || s == Cancelled
  }

  /** Nothing happens to a booking after it was released or cancelled. */
  lemma {:induction false} TerminalIsLast(id: Id, es: seq<Envelope>, k: nat)
    requires Legal(id, es) && 1 <= k <= |es| && (es[k - 1].payload.BookingReleased? || es[k - 1].payload.BookingCancelled?)
    ensures k == |es| && Replay(id, es).Some? && Terminal(Replay(id, es).value.status)
    decreases |es|
  {
    if k < |es| {
      TerminalIsLast(id, es[..|es| - 1], k);
    }
  }

  /** Only the first event of a booking is its creation; the others find it there. */
  lemma CreatedOnlyFirst(id: Id, es: seq<Envelope>, i: nat)
    requires Legal(id, es) && 1 <= i < |es|
    ensures !es[i].payload.BookingCreated?
  {
    LegalPrefix(id, es, i + 1);
    assert es[..i + 1][..i] == es[..i];
    LegalPrefix(id, es, i);
    assert Replay(id, es[..i]).Some?;
  }

  // ---------------------------------------------------------------- the mirror behind the pipeline

  type State = P.State<BookingMirror, BookingEvent>
  type Action = P.Action<BookingEvent>

  /** The pipeline's log is what the owner enqueued. */
  ghost predicate Fed(log: P.Log<BookingEvent>, db: Db) {
    forall a: Id :: P.LogOf(log, a) == History(db.outbox, a)
  }

  lemma FirstIsCreate(db: Db, op: Op)
    requires Gapless(db, Target(op)) && Outcome(RowOf(db.rows, Target(op)), op).Some?
    ensures var t := Target(op);
      && Outcome(RowOf(db.rows, t), op).value.0.version == |History(db.outbox, t)| + 1
      && (History(db.outbox, t) == [] ==> P.Creates(MirrorStep, Outcome(RowOf(db.rows, t), op).value.1))
  {
  }

  lemma FedGrows(log: P.Log<BookingEvent>, db: Db, env: Envelope, rows: map<Id, Booking>)
    requires Fed(log, db)
    ensures Fed(Extend(log, env), Db(rows, db.outbox + [env]))
  {
    ExtendAt(log, env);
    forall a: Id ensures P.LogOf(Extend(log, env), a) == History(db.outbox + [env], a) {
      HistorySnoc(db.outbox, env, a);
    }
  }

  lemma CommitGrows(s: State, a: Id, e: BookingEvent)
    requires P.Enabled(MirrorStep, s, P.Commit(a, e))
    ensures P.Do(MirrorStep, s, P.Commit(a, e)).log == Extend(s.log, P.Envelope(a, |P.LogOf(s.log, a)| + 1, e))
  {
  }

  /** One accepted write, whatever made it. */
  lemma CommitFeeds(s: State, db: Db, t: Id, row: Booking, e: BookingEvent)
    requires Fed(s.log, db) && row.version == |History(db.outbox, t)| + 1
    requires History(db.outbox, t) == [] ==> P.Creates(MirrorStep, e)
    ensures P.Enabled(MirrorStep, s, P.Commit(t, e))
    ensures Fed(P.Do(MirrorStep, s, P.Commit(t, e)).log, Store(db, t, Some((row, e))))
  {
    assert P.LogOf(s.log, t) == History(db.outbox, t);
    FedGrows(s.log, db, P.Envelope(t, row.version, e), db.rows[t := row]);
    CommitGrows(s, t, e);
  }

  /** Every accepted transaction of the owner is a commit of the pipeline, and a refused one is no
      step of it at all. */
  lemma OwnerFeedsPipeline(s: State, db: Db, op: Op)
    requires Fed(s.log, db) && Gapless(db, Target(op))
    ensures Outcome(RowOf(db.rows, Target(op)), op).None? ==> Tx(db, op) == db
    ensures Outcome(RowOf(db.rows, Target(op)), op).Some? ==>
      var act := P.Commit(Target(op), Outcome(RowOf(db.rows, Target(op)), op).value.1);
      P.Enabled(MirrorStep, s, act) && Fed(P.Do(MirrorStep, s, act).log, Tx(db, op))
  {
    var t := Target(op);
    var outcome := Outcome(RowOf(db.rows, t), op);
    if outcome.Some? {
      FirstIsCreate(db, op);
      CommitFeeds(s, db, t, outcome.value.0, outcome.value.1);
    }
  }

  /** What the pipeline's projection of a booking holds is the owner's booking, as it stood at the
      version stored beside it. */
  lemma MirrorMatchesOwner(s: State, acts: seq<Action>, a: Id)
    requires P.Init(s) && P.Run(MirrorStep, s, acts) && P.Unforced(MirrorStep, s, acts, a)
    requires Legal(a, P.LogOf(P.After(MirrorStep, s, acts).log, a))
    ensures var t := P.After(MirrorStep, s, acts);
      a in t.rows ==>
        && 1 <= t.rows[a].version <= |P.LogOf(t.log, a)|
        && Replay(a, P.LogOf(t.log, a)[..t.rows[a].version]).Some?
        && t.rows[a].data == MirrorOf(Replay(a, P.LogOf(t.log, a)[..t.rows[a].version]).value)
  {
    ProjectionIsPrefixFold(MirrorStep, s, acts, a);
    var t := P.After(MirrorStep, s, acts);
    if a in t.rows {
      var k := t.rows[a].version;
      LegalPrefix(a, P.LogOf(t.log, a), k);
      MirrorFollowsOwner(a, P.LogOf(t.log, a)[..k]);
    }
  }

  ghost predicate EndedIn(rows: P.Rows<BookingMirror>, a: Id) {
    a in rows && Terminal(rows[a].data.status)
  }

  lemma EndedCommit(log: P.Log<BookingEvent>, stream: seq<P.Message<BookingEvent>>, rows: P.Rows<BookingMirror>,
                    lane: P.Lane<BookingMirror, BookingEvent>)
    requires LogOK(MirrorStep, log) && RowsOK(MirrorStep, log, rows) && LaneOK(MirrorStep, stream, rows, lane)
    requires lane.Written? && lane.row.Some? && InLog(log, lane.env)
    requires Legal(lane.env.agg, P.LogOf(log, lane.env.agg)) && EndedIn(rows, lane.env.agg)
    ensures lane.row.value.data == rows[lane.env.agg].data
  {
    var a := lane.env.agg;
    var es := P.LogOf(log, a);
    assert RowOK(MirrorStep, log, a, rows[a]);
    CreatedCreates(a, es);
    if lane.env.version >= 2 {
      CreatedOnlyFirst(a, es, lane.env.version - 1);
    }
  }

  lemma EndedStep(s: State, act: Action, a: Id)
    requires Inv(MirrorStep, s) && P.Enabled(MirrorStep, s, act) && Legal(a, P.LogOf(s.log, a)) && EndedIn(s.rows, a)
    ensures EndedIn(P.Do(MirrorStep, s, act).rows, a)
    ensures P.Do(MirrorStep, s, act).rows[a].data == s.rows[a].data
  {
    if act.CommitTx? && P.Do(MirrorStep, s, act).rows != s.rows && s.lanes[act.lane].env.agg == a {
      assert LaneOK(MirrorStep, s.stream, s.rows, s.lanes[act.lane]);
      EndedCommit(s.log, s.stream, s.rows, s.lanes[act.lane]);
    }
  }

  lemma LegalBefore(s: State, acts: seq<Action>, a: Id)
    requires Inv(MirrorStep, s) && P.Run(MirrorStep, s, acts)
    requires Legal(a, P.LogOf(P.After(MirrorStep, s, acts).log, a))
    ensures Legal(a, P.LogOf(s.log, a))
  {
    RunMonotone(MirrorStep, s, acts, a);
    var es := P.LogOf(P.After(MirrorStep, s, acts).log, a);
    LegalPrefix(a, es, |P.LogOf(s.log, a)|);
    assert es[..|P.LogOf(s.log, a)|] == P.LogOf(s.log, a);
  }

  /** Released and cancelled are never left: not by a duplicate, not by a late event, not by the
      hatch. */
  lemma {:induction false} EndedStays(s: State, acts: seq<Action>, a: Id)
    requires Inv(MirrorStep, s) && P.Run(MirrorStep, s, acts) && EndedIn(s.rows, a)
    requires Legal(a, P.LogOf(P.After(MirrorStep, s, acts).log, a))
    ensures EndedIn(P.After(MirrorStep, s, acts).rows, a)
    ensures P.After(MirrorStep, s, acts).rows[a].data == s.rows[a].data
    decreases |acts|
  {
    if acts != [] {
      LegalBefore(s, acts, a);
      EndedStep(s, acts[0], a);
      Step(MirrorStep, s, acts[0]);
      EndedStays(P.Do(MirrorStep, s, acts[0]), acts[1..], a);
    }
  }

  ghost predicate Ends(e: BookingEvent) {
    e.BookingReleased? || e.BookingCancelled?
  }

  /** A mirror row that has reached the event that ended its booking is the owner's ended row. */
  lemma ReachedIsEnded(s: State, acts: seq<Action>, a: Id, v: nat)
    requires P.Init(s) && P.Run(MirrorStep, s, acts) && P.Unforced(MirrorStep, s, acts, a)
    requires var t := P.After(MirrorStep, s, acts);
      && Legal(a, P.LogOf(t.log, a))
      && 1 <= v <= |P.LogOf(t.log, a)| && Ends(P.LogOf(t.log, a)[v - 1].payload) && v <= P.StoredOf(t.rows, a)
    ensures var t := P.After(MirrorStep, s, acts);
      && EndedIn(t.rows, a) && t.rows[a].version == v
      && Replay(a, P.LogOf(t.log, a)).Some? && t.rows[a].data == MirrorOf(Replay(a, P.LogOf(t.log, a)).value)
  {
    MirrorMatchesOwner(s, acts, a);
    var t := P.After(MirrorStep, s, acts);
    ReachedRow(a, P.LogOf(t.log, a), t.rows[a], v);
  }

  lemma ReachedRow(a: Id, es: seq<Envelope>, row: P.Row<BookingMirror>, v: nat)
    requires Legal(a, es) && 1 <= v <= row.version <= |es| && Ends(es[v - 1].payload)
    requires Replay(a, es[..row.version]).Some? && row.data == MirrorOf(Replay(a, es[..row.version]).value)
    ensures row.version == v && Terminal(row.data.status)
    ensures Replay(a, es).Some? && row.data == MirrorOf(Replay(a, es).value)
  {
    TerminalIsLast(a, es, v);
    assert es[..v] == es;
  }

  lemma RunFromInit(s: State, acts: seq<Action>)
    requires P.Init(s) && P.Run(MirrorStep, s, acts)
    ensures Inv(MirrorStep, P.After(MirrorStep, s, acts))
  {
    InitInv(MirrorStep, s);
    RunInv(MirrorStep, s, acts);
  }

  // ---------------------------------------------------------------- the hatch included

  /** A booking is reserved at version 1 and never again. */
  lemma {:induction false} StatusMoves(a: Id, es: seq<Envelope>)
    requires Legal(a, es) && es != []
    ensures Replay(a, es).Some? && (Replay(a, es).value.status == Reserved <==> |es| == 1)
    ensures |es| == 1 ==> MirrorOf(Replay(a, es).value) == MirrorStep(None, es[0].payload).value
    decreases |es|
  {
    if |es| > 1 {
      StatusMoves(a, es[..|es| - 1]);
    } else {
      assert es[..0] == [];
    }
  }

  lemma NotEndedBefore(a: Id, es: seq<Envelope>, k: nat)
    requires Legal(a, es) && 1 <= k < |es|
    ensures Replay(a, es[..k]).Some? && !Terminal(Replay(a, es[..k]).value.status)
  {
    LegalPrefix(a, es, k + 1);
    LegalPrefix(a, es, k);
    assert es[..k + 1][..k] == es[..k];
  }

  /** After its second event a booking is only rated, until it is cancelled. */
  lemma LaterEvents(a: Id, es: seq<Envelope>, i: nat)
    requires Legal(a, es) && 2 <= i < |es|
    ensures Replay(a, es[..i]).Some? && Replay(a, es[..i]).value.status == Confirmed
    ensures es[i].payload.BookingRated? || es[i].payload.BookingCancelled?
  {
    LegalPrefix(a, es, i);
    LegalPrefix(a, es, i + 1);
    assert es[..i + 1][..i] == es[..i];
    StatusMoves(a, es[..i]);
    NotEndedBefore(a, es, i);
  }

  /** Ratings show nowhere in the mirror. */
  lemma {:induction false} RatingsHide(a: Id, es: seq<Envelope>, u: nat, w: nat)
    requires Legal(a, es) && 2 <= u <= w < |es|
    ensures MirrorOption(Replay(a, es[..w])) == MirrorOption(Replay(a, es[..u]))
    decreases w
  {
    if u < w {
      RatingsHide(a, es, u, w - 1);
      LaterEvents(a, es, w - 1);
      LaterEvents(a, es, w);
      assert es[..w][..w - 1] == es[..w - 1];
    }
  }

  /** Which version of the owner's booking a mirror shows, by the versions that took effect on it. */
  ghost function Shown(vs: seq<int>): int
    requires vs != []
  {
    if 2 in vs then vs[|vs| - 1] else 1
  }

  /**
   Whatever gaps the hatch forced, a mirror shows the owner's booking: as of the last event that
   took effect on it if the second one did, and as it was created if the second one did not.
   */
  lemma {:induction false} PickedMirror(a: Id, es: seq<Envelope>, vs: seq<int>)
    requires Legal(a, es) && InRange(vs, |es|) && Increasing(vs) && vs != [] && vs[0] == 1
    ensures 1 <= Shown(vs) <= |es|
    ensures P.Fold(MirrorStep, Picked(es, vs)) == MirrorOption(Replay(a, es[..Shown(vs)]))
    decreases |vs|
  {
    if |vs| == 1 {
      assert Picked(es, vs) == es[..1];
      LegalPrefix(a, es, 1);
      MirrorFollowsOwner(a, es[..1]);
    } else {
      var front := vs[..|vs| - 1];
      assert vs == front + [vs[|vs| - 1]] && front[0] == vs[0];
      PickedMirror(a, es, front);
      PickedMore(a, es, front, vs[|vs| - 1]);
    }
  }

  /** One more event took effect. */
  lemma PickedMore(a: Id, es: seq<Envelope>, vs: seq<int>, v: int)
    requires Legal(a, es) && InRange(vs + [v], |es|) && Increasing(vs + [v]) && vs != [] && vs[0] == 1
    requires InRange(vs, |es|) && 1 <= Shown(vs) <= |es|
    requires P.Fold(MirrorStep, Picked(es, vs)) == MirrorOption(Replay(a, es[..Shown(vs)]))
    ensures 1 <= Shown(vs + [v]) <= |es|
    ensures P.Fold(MirrorStep, Picked(es, vs + [v])) == MirrorOption(Replay(a, es[..Shown(vs + [v])]))
  {
    var all := vs + [v];
    assert all[|vs|] == v && all[0] == 1 && all[|vs| - 1] == vs[|vs| - 1];
    if v == 2 {
      assert |vs| == 1;
      assert Picked(es, all) == es[..2];
      LegalPrefix(a, es, 2);
      MirrorFollowsOwner(a, es[..2]);
    } else {
      FoldSnoc(MirrorStep, es, vs, v);
      assert 2 in all <==> 2 in vs;
      if 2 in vs {
        ShownMoves(a, es, vs[|vs| - 1], v);
      } else {
        ShownStays(a, es, v);
      }
    }
  }

  /** Without the second event nothing later shows. */
  lemma ShownStays(a: Id, es: seq<Envelope>, v: nat)
    requires Legal(a, es) && 2 < v <= |es|
    ensures P.Put(MirrorStep, MirrorOption(Replay(a, es[..1])), es[v - 1].payload) == MirrorOption(Replay(a, es[..1]))
  {
    LaterEvents(a, es, v - 1);
    LegalPrefix(a, es, 1);
    StatusMoves(a, es[..1]);
  }

  /** From one shown version to a later one, past any ratings. */
  lemma ShownMoves(a: Id, es: seq<Envelope>, u: nat, v: nat)
    requires Legal(a, es) && 2 <= u < v <= |es|
    ensures Replay(a, es[..u]).Some?
    ensures P.Put(MirrorStep, MirrorOption(Replay(a, es[..u])), es[v - 1].payload) == MirrorOption(Replay(a, es[..v]))
  {
    RatingsHide(a, es, u, v - 1);
    NotEndedBefore(a, es, u);
    MirrorAdvances(a, es, v);
  }

  /** The mirror of a history, and the next event put on it. */
  lemma MirrorAdvances(a: Id, es: seq<Envelope>, v: nat)
    requires Legal(a, es) && 1 <= v <= |es|
    ensures P.Put(MirrorStep, MirrorOption(Replay(a, es[..v - 1])), es[v - 1].payload) == MirrorOption(Replay(a, es[..v]))
  {
    LegalPrefix(a, es, v);
    LegalPrefix(a, es, v - 1);
    MirrorFollowsOwner(a, es[..v]);
    MirrorFollowsOwner(a, es[..v - 1]);
    assert es[..v][..|es[..v]| - 1] == es[..v - 1];
  }

  // ---------------------------------------------------------------- in every run

  /** What a mirror row shows, hatch and duplicates included. */
  ghost predicate ShowsOwner(log: P.Log<BookingEvent>, rows: P.Rows<BookingMirror>, effects: map<Id, seq<int>>, a: Id) {
    a in rows ==>
      var vs, es := P.EffectsOf(effects, a), P.LogOf(log, a);
      && vs != [] && vs[0] == 1 && vs[|vs| - 1] == rows[a].version && 1 <= Shown(vs) <= |es|
      && Replay(a, es[..Shown(vs)]).Some?
      && rows[a].data == MirrorOf(Replay(a, es[..Shown(vs)]).value)
  }

  /** In every run, forced or not, each mirror row shows the owner's booking: as of its version if the
      owner's second event took effect, as it was created otherwise. */
  lemma MirrorShowsOwner(s: State, acts: seq<Action>, a: Id)
    requires P.Init(s) && P.Run(MirrorStep, s, acts) && Legal(a, P.LogOf(P.After(MirrorStep, s, acts).log, a))
    ensures var t := P.After(MirrorStep, s, acts); ShowsOwner(t.log, t.rows, t.effects, a)
  {
    EffectsStrictlyIncrease(MirrorStep, s, acts, a);
    var t := P.After(MirrorStep, s, acts);
    if a in t.rows {
      FoldShowsOwner(a, P.LogOf(t.log, a), P.EffectsOf(t.effects, a), t.rows[a]);
    }
  }

  lemma FoldShowsOwner(a: Id, es: seq<Envelope>, vs: seq<int>, row: P.Row<BookingMirror>)
    requires Legal(a, es) && FoldOK(MirrorStep, es, Some(row), vs) && Increasing(vs) && vs != []
    ensures vs[0] == 1 && 1 <= Shown(vs) <= |es| && Replay(a, es[..Shown(vs)]).Some?
    ensures row.data == MirrorOf(Replay(a, es[..Shown(vs)]).value)
  {
    if vs[0] > 1 {
      CreatedOnlyFirst(a, es, vs[0] - 1);
    }
    PickedMirror(a, es, vs);
  }

  /**
   A worker's question answered for every run: a mirror that has reached the event that ended its
   booking is ended if and only if the booking's second event took effect on it. Then it is the
   owner's ended booking; otherwise it still shows the reservation. A release is itself the second
   event, so it always shows.
   */
  lemma ReachedEndsIff(s: State, acts: seq<Action>, a: Id, v: nat)
    requires P.Init(s) && P.Run(MirrorStep, s, acts)
    requires var t := P.After(MirrorStep, s, acts);
      && Legal(a, P.LogOf(t.log, a))
      && 1 <= v <= |P.LogOf(t.log, a)| && Ends(P.LogOf(t.log, a)[v - 1].payload) && v <= P.StoredOf(t.rows, a)
    ensures var t := P.After(MirrorStep, s, acts);
      && a in t.rows && t.rows[a].version == v == |P.LogOf(t.log, a)|
      && (EndedIn(t.rows, a) <==> 2 in P.EffectsOf(t.effects, a))
      && (P.LogOf(t.log, a)[v - 1].payload.BookingReleased? ==> EndedIn(t.rows, a))
      && (EndedIn(t.rows, a) ==>
            Replay(a, P.LogOf(t.log, a)).Some? && t.rows[a].data == MirrorOf(Replay(a, P.LogOf(t.log, a)).value))
      && (!EndedIn(t.rows, a) ==> t.rows[a].data.status == Reserved)
  {
    MirrorShowsOwner(s, acts, a);
    RunFromInit(s, acts);
    var t := P.After(MirrorStep, s, acts);
    assert RowOK(MirrorStep, t.log, a, t.rows[a]);
    EndsIff(a, P.LogOf(t.log, a), P.EffectsOf(t.effects, a), v);
  }

  lemma EndsIff(a: Id, es: seq<Envelope>, vs: seq<int>, v: nat)
    requires Legal(a, es) && 1 <= v <= |es| && Ends(es[v - 1].payload)
    requires vs != [] && vs[0] == 1 && v <= vs[|vs| - 1] <= |es| && Replay(a, es[..Shown(vs)]).Some?
    requires 1 <= Shown(vs) <= |es|
    ensures v == |es| && vs[|vs| - 1] == v && Replay(a, es).Some?
    ensures Terminal(Replay(a, es[..Shown(vs)]).value.status) <==> 2 in vs
    ensures 2 in vs ==> es[..Shown(vs)] == es
    ensures 2 !in vs ==> Replay(a, es[..Shown(vs)]).value.status == Reserved
    ensures es[v - 1].payload.BookingReleased? ==> 2 in vs
  {
    TerminalIsLast(a, es, v);
    assert es[..v] == es;
    LegalPrefix(a, es, 1);
    StatusMoves(a, es[..1]);
    if es[v - 1].payload.BookingReleased? {
      ReleasedSecond(a, es);
      assert vs[|vs| - 1] in vs;
    }
  }

  /** Only a booking that was never confirmed is released, so that is its second event. */
  lemma ReleasedSecond(a: Id, es: seq<Envelope>)
    requires Legal(a, es) && es != [] && es[|es| - 1].payload.BookingReleased?
    ensures |es| == 2
  {
    var front := es[..|es| - 1];
    assert Replay(a, front).Some?;
    StatusMoves(a, front);
  }

  /**
   Settlement. A worker holding event `v` that ended booking `a`, whose poll has seen the mirror at
   `v` or above, finds the mirror row ended if and only if the booking's second event took effect;
   with no gap of the booking forced, always. A row found ended has the owner's columns, and it stays
   so while the worker settles beside any further steps, forced or not.
   */
  lemma SettlementIsSafe(s: State, before: seq<Action>, after: seq<Action>, a: Id, v: nat)
    requires P.Init(s) && P.Run(MirrorStep, s, before)
    requires var t := P.After(MirrorStep, s, before);
      && P.Run(MirrorStep, t, after) && Legal(a, P.LogOf(P.After(MirrorStep, t, after).log, a))
      && 1 <= v <= |P.LogOf(t.log, a)| && Ends(P.LogOf(t.log, a)[v - 1].payload) && v <= P.StoredOf(t.rows, a)
    ensures var t := P.After(MirrorStep, s, before);
      && (EndedIn(t.rows, a) <==> 2 in P.EffectsOf(t.effects, a))
      && (P.Unforced(MirrorStep, s, before, a) ==> EndedIn(t.rows, a))
      && (EndedIn(t.rows, a) ==>
            && t.rows[a].version == v
            && Replay(a, P.LogOf(t.log, a)).Some? && t.rows[a].data == MirrorOf(Replay(a, P.LogOf(t.log, a)).value)
            && EndedIn(P.After(MirrorStep, t, after).rows, a)
            && P.After(MirrorStep, t, after).rows[a].data == t.rows[a].data)
  {
    var t := P.After(MirrorStep, s, before);
    RunFromInit(s, before);
    LegalBefore(t, after, a);
    ReachedEndsIff(s, before, a, v);
    if P.Unforced(MirrorStep, s, before, a) {
      ReachedIsEnded(s, before, a, v);
    }
    if EndedIn(t.rows, a) {
      EndedStays(t, after, a);
    }
  }

  /**
   Two overlapping deliveries of a booking's creation, both of which read no row: on any row a run
   can produce, the second one to write is harmless if and only if the owner's second event has not
   taken effect. Otherwise it puts the booking back to reserved under a version that says otherwise.
   */
  lemma OverlappingCreateIsBenignIff(s: State, acts: seq<Action>, a: Id)
    requires P.Init(s) && P.Run(MirrorStep, s, acts)
    requires Legal(a, P.LogOf(P.After(MirrorStep, s, acts).log, a)) && a in P.After(MirrorStep, s, acts).rows
    ensures var t := P.After(MirrorStep, s, acts);
      && P.LogOf(t.log, a) != []
      && (P.ApplyRow(MirrorStep, Some(t.rows[a]), P.LogOf(t.log, a)[0]) == Some(t.rows[a]) <==> 2 !in P.EffectsOf(t.effects, a))
  {
    MirrorShowsOwner(s, acts, a);
    RunFromInit(s, acts);
    var t := P.After(MirrorStep, s, acts);
    var es, vs := P.LogOf(t.log, a), P.EffectsOf(t.effects, a);
    assert RowOK(MirrorStep, t.log, a, t.rows[a]);
    CreatedCreates(a, es);
    OneEventPerVersion(a, es, 0);
    LegalPrefix(a, es, Shown(vs));
    LegalPrefix(a, es, 1);
    StatusMoves(a, es[..Shown(vs)]);
    StatusMoves(a, es[..1]);
    assert es[..1][0] == es[0];
    EffectsStrictlyIncrease(MirrorStep, s, acts, a);
    if 2 in vs {
      assert vs[|vs| - 1] >= 2;
    }
  }

  // ---------------------------------------------------------------- two histories that hide their end

  function Told(id: Id, payloads: seq<BookingEvent>): seq<Envelope> {
    seq(|payloads|, i requires 0 <= i < |payloads| => P.Envelope(id, i + 1, payloads[i]))
  }

  lemma ToldSnoc(id: Id, payloads: seq<BookingEvent>, e: BookingEvent)
    requires Legal(id, Told(id, payloads)) && Happens(id, Replay(id, Told(id, payloads)), e).Some?
    ensures Legal(id, Told(id, payloads + [e]))
    ensures Replay(id, Told(id, payloads + [e])) == Happens(id, Replay(id, Told(id, payloads)), e)
  {
    assert Told(id, payloads + [e]) == Told(id, payloads) + [P.Envelope(id, |payloads| + 1, e)];
    LegalSnoc(id, Told(id, payloads), P.Envelope(id, |payloads| + 1, e));
  }

  /** Created and confirmed: what both histories begin with. */
  lemma ConfirmedHistory(b: NewBooking)
    ensures var id, told := b.bookingId, Told(b.bookingId, [BookingCreated(b), BookingConfirmed]);
      Legal(id, told) && Replay(id, told) == Some(CreatedRow(b).(status := Confirmed, holdUntil := None, version := 2))
  {
    var none: seq<BookingEvent> := [];
    assert Told(b.bookingId, none) == [];
    ToldSnoc(b.bookingId, none, BookingCreated(b));
    assert none + [BookingCreated(b)] == [BookingCreated(b)];
    ToldSnoc(b.bookingId, [BookingCreated(b)], BookingConfirmed);
    assert [BookingCreated(b)] + [BookingConfirmed] == [BookingCreated(b), BookingConfirmed];
  }

  /** Created, confirmed, cancelled, with the cancellation forced onto the created row: the row says
      version 3 and reserved. */
  lemma ForcedCancelHidesTheEnd(b: NewBooking, who: CancelReason)
    ensures var id := b.bookingId;
      var es := Told(id, [BookingCreated(b), BookingConfirmed, BookingCancelled(who)]);
      var rows := map[id := P.Row(1, MirrorCreated(b))];
      var forced := Gate(MirrorStep, rows, es[2], MAX_GAP_WAIT);
      && Legal(id, es)
      && forced.0 == Apply && id in forced.1 && forced.1[id] == P.Row(3, MirrorCreated(b)) && !EndedIn(forced.1, id)
  {
    ConfirmedHistory(b);
    ToldSnoc(b.bookingId, [BookingCreated(b), BookingConfirmed], BookingCancelled(who));
    assert [BookingCreated(b), BookingConfirmed] + [BookingCancelled(who)] == [BookingCreated(b), BookingConfirmed, BookingCancelled(who)];
  }

  /** Created, confirmed, rated, cancelled, with only the rating forced: the cancellation is then the
      next event, applied on its first delivery, and the row says version 4 and reserved. */
  lemma ForcedRatingHidesTheEnd(b: NewBooking, n: int, who: CancelReason)
    ensures var id := b.bookingId;
      var es := Told(id, [BookingCreated(b), BookingConfirmed, BookingRated(n), BookingCancelled(who)]);
      var rows := map[id := P.Row(1, MirrorCreated(b))];
      var forced := Gate(MirrorStep, rows, es[2], MAX_GAP_WAIT);
      var next := Gate(MirrorStep, forced.1, es[3], 1);
      && Legal(id, es)
      && forced.0 == Apply && next.0 == Apply && !IsGap(At(forced.1[id].version), es[3].version)
      && id in next.1 && next.1[id] == P.Row(4, MirrorCreated(b)) && !EndedIn(next.1, id)
  {
    ConfirmedHistory(b);
    var told := [BookingCreated(b), BookingConfirmed];
    ToldSnoc(b.bookingId, told, BookingRated(n));
    ToldSnoc(b.bookingId, told + [BookingRated(n)], BookingCancelled(who));
    assert told + [BookingRated(n)] + [BookingCancelled(who)] == [BookingCreated(b), BookingConfirmed, BookingRated(n), BookingCancelled(who)];
  }
}
