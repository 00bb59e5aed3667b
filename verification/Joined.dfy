/**
 booking-service and payment-service's mirror as one system: the owner's transactions commit to its
 table and its outbox, and the pipeline carries what was enqueued to the mirror, all interleaved.
 Nothing is assumed of the history: that it is legal follows from the guarded writes.
 */
module Joined {
  import opened Bookings
  import opened Mirror
  import opened PipelineSafety
  import opened Wrappers
  import O = Owners
  import P = Pipeline

  datatype Both = Both(owner: O.State, pipe: P.State<BookingMirror, BookingEvent>)

  datatype Step = Own(own: O.Action) | Carry(carry: P.Action<BookingEvent>)

  /** The outbox rows some writes add, as the pipeline's commits. */
  function Enqueued(db: Db, ops: seq<Op>): seq<P.Action<BookingEvent>> {
    if ops == [] then []
    else
      var before, last := O.TxAll(db, ops[..|ops| - 1]), ops[|ops| - 1];
      Enqueued(db, ops[..|ops| - 1]) +
      match Outcome(RowOf(before.rows, Target(last)), last)
      case None => []
      case Some((_, event)) => [P.Commit(Target(last), event)]
  }

  /** The owner's writes reach the outbox only through their own transaction. */
  ghost predicate Enabled(s: Both, step: Step) {
    match step
    case Own(act) => O.Enabled(s.owner, act)
    case Carry(act) => !act.Commit? && P.Enabled(MirrorStep, s.pipe, act) && !P.Stale(s.pipe, act)
  }

  /** Whatever either side can do on its own, it can do here. */
  lemma EitherSideMoves(s: Both, own: O.Action, carry: P.Action<BookingEvent>)
    ensures O.Enabled(s.owner, own) ==> Enabled(s, Own(own))
    ensures P.Enabled(MirrorStep, s.pipe, carry) && !P.Stale(s.pipe, carry) && !carry.Commit? ==> Enabled(s, Carry(carry))
  {
  }

  /** What a step is to the pipeline. */
  ghost function Carried(s: Both, step: Step): seq<P.Action<BookingEvent>>
    requires Enabled(s, step)
  {
    match step
    case Own(act) => if act.Finish? then Enqueued(s.owner.db, O.Ops(s.owner.writers[act.writer])) else []
    case Carry(act) => [act]
  }

  ghost predicate Next(s: Both, step: Step, t: Both) {
    && Enabled(s, step)
    && t.owner == (match step case Own(act) => O.Do(s.owner, act) case Carry(_) => s.owner)
    && P.Run(MirrorStep, s.pipe, Carried(s, step)) && t.pipe == P.After(MirrorStep, s.pipe, Carried(s, step))
  }

  /** A run, as the states it goes through. */
  ghost predicate Run(states: seq<Both>, steps: seq<Step>) {
    |states| == |steps| + 1 && forall i :: 0 <= i < |steps| ==> Next(states[i], steps[i], states[i + 1])
  }

  ghost predicate Init(s: Both) {
    && s.owner.db == Db(map[], []) && (forall w :: w in s.owner.writers ==> s.owner.writers[w] == [])
    && P.Init(s.pipe)
  }

  ghost predicate Linked(s: Both) {
    O.Inv(s.owner) && Fed(s.pipe.log, s.owner.db)
  }

  lemma {:induction false} EnqueuedRuns(pipe: P.State<BookingMirror, BookingEvent>, db: Db, ops: seq<Op>)
    requires Fed(pipe.log, db) && forall id :: Gapless(db, id)
    ensures P.Run(MirrorStep, pipe, Enqueued(db, ops))
    ensures Fed(P.After(MirrorStep, pipe, Enqueued(db, ops)).log, O.TxAll(db, ops))
  {
    if ops != [] {
      var front, last := ops[..|ops| - 1], ops[|ops| - 1];
      EnqueuedRuns(pipe, db, front);
      O.TxAllGapless(db, front);
      var mid, before := P.After(MirrorStep, pipe, Enqueued(db, front)), O.TxAll(db, front);
      OwnerFeedsPipeline(mid, before, last);
      match Outcome(RowOf(before.rows, Target(last)), last)
      case None =>
        assert Enqueued(db, ops) == Enqueued(db, front);
      case Some((_, event)) =>
        P.RunOne(MirrorStep, mid, P.Commit(Target(last), event));
        P.RunCat(MirrorStep, pipe, Enqueued(db, front), [P.Commit(Target(last), event)]);
    }
  }

  /** No step of the owner ever finds the pipeline unable to take what it enqueued. */
  lemma NextExists(s: Both, step: Step)
    requires Linked(s) && Enabled(s, step)
    ensures P.Run(MirrorStep, s.pipe, Carried(s, step))
  {
    match step
    case Own(act) =>
      if act.Finish? {
        EnqueuedRuns(s.pipe, s.owner.db, O.Ops(s.owner.writers[act.writer]));
      }
    case Carry(act) => P.RunOne(MirrorStep, s.pipe, act);
  }

  lemma CarryKeepsLog(s: P.State<BookingMirror, BookingEvent>, act: P.Action<BookingEvent>)
    requires P.Enabled(MirrorStep, s, act) && !P.Stale(s, act) && !act.Commit?
    ensures P.Run(MirrorStep, s, [act]) && P.After(MirrorStep, s, [act]).log == s.log
  {
    P.RunOne(MirrorStep, s, act);
  }

  lemma LinkedStep(s: Both, step: Step, t: Both)
    requires Linked(s) && Next(s, step, t)
    ensures Linked(t)
  {
    match step
    case Own(act) =>
      O.Step(s.owner, act);
      if act.Finish? {
        EnqueuedRuns(s.pipe, s.owner.db, O.Ops(s.owner.writers[act.writer]));
      }
    case Carry(act) => CarryKeepsLog(s.pipe, act);
  }

  /** A joint run is a run of the pipeline, and its histories are the owner's, legal as they stand. */
  lemma {:induction false} JointRun(states: seq<Both>, steps: seq<Step>) returns (acts: seq<P.Action<BookingEvent>>)
    requires Run(states, steps) && Linked(states[0])
    ensures Linked(states[|steps|])
    ensures P.Run(MirrorStep, states[0].pipe, acts) && P.After(MirrorStep, states[0].pipe, acts) == states[|steps|].pipe
    decreases |steps|
  {
    if steps == [] {
      acts := [];
    } else {
      var n := |steps| - 1;
      var front := JointRun(states[..n + 1], steps[..n]);
      assert Next(states[n], steps[n], states[n + 1]);
      LinkedStep(states[n], steps[n], states[n + 1]);
      P.RunCat(MirrorStep, states[0].pipe, front, Carried(states[n], steps[n]));
      acts := front + Carried(states[n], steps[n]);
    }
  }

  lemma InitLinked(s: Both)
    requires Init(s)
    ensures Linked(s)
  {
    O.EmptyInv(s.owner.writers);
  }

  /** What the owner's table says is what the pipeline's log replays to. */
  lemma LinkedIsLegal(s: Both, a: Id)
    requires Linked(s)
    ensures Legal(a, P.LogOf(s.pipe.log, a)) && Replay(a, P.LogOf(s.pipe.log, a)) == RowOf(s.owner.db.rows, a)
    ensures a in s.owner.db.rows ==> s.owner.db.rows[a].version == |P.LogOf(s.pipe.log, a)|
  {
    assert Gapless(s.owner.db, a);
  }

  /**
   From empty databases, whatever the owner's writers, the relays and the replicas do and wherever
   the hatch fires: every mirror row shows the owner's booking, as of its version or as created. A
   row at the owner's own version on which the second event took effect, or for which no gap was
   forced, is the owner's row.
   */
  lemma MirrorOfTheOwner(states: seq<Both>, steps: seq<Step>, a: Id) returns (acts: seq<P.Action<BookingEvent>>)
    requires Run(states, steps) && Init(states[0])
    ensures var t := states[|steps|];
      && P.Run(MirrorStep, states[0].pipe, acts) && P.After(MirrorStep, states[0].pipe, acts) == t.pipe
      && Legal(a, P.LogOf(t.pipe.log, a)) && Replay(a, P.LogOf(t.pipe.log, a)) == RowOf(t.owner.db.rows, a)
      && ShowsOwner(t.pipe.log, t.pipe.rows, t.pipe.effects, a)
    ensures var t := states[|steps|];
      a in t.pipe.rows && a in t.owner.db.rows && t.pipe.rows[a].version == t.owner.db.rows[a].version
      && (2 in P.EffectsOf(t.pipe.effects, a) || P.Unforced(MirrorStep, states[0].pipe, acts, a))
      ==> t.pipe.rows[a].data == MirrorOf(t.owner.db.rows[a])
  {
    InitLinked(states[0]);
    acts := JointRun(states, steps);
    var t := states[|steps|];
    LinkedIsLegal(t, a);
    MirrorShowsOwner(states[0].pipe, acts, a);
    var es := P.LogOf(t.pipe.log, a);
    assert es[..|es|] == es;
    if P.Unforced(MirrorStep, states[0].pipe, acts, a) {
      MirrorMatchesOwner(states[0].pipe, acts, a);
    }
  }
}
