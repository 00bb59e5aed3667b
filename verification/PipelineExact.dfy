/**
 What the projection holds when the escape hatch never applies over a gap of the aggregate in
 question: exactly the fold of a prefix of the owner's history, with everything acknowledged
 inside that prefix. The condition is per aggregate; other aggregates may force as they like.
 */
module PipelineExact {
  import opened Pipeline
  import opened PipelineSafety
  import opened Versions
  import opened Wrappers

  /** The row holds the first `version` events of the log and nothing else. */
  ghost predicate RowExact<D, E>(f: Projector<D, E>, log: Log<E>, a: AggId, row: Option<Row<D>>) {
    row.Some? ==>
      && 0 <= row.value.version <= |LogOf(log, a)|
      && Fold(f, LogOf(log, a)[..row.value.version]) == Some(row.value.data)
  }

  /** An acknowledged event is stored. */
  ghost predicate AckedOK<D, E>(stream: seq<Message<E>>, rows: Rows<D>, a: AggId) {
    forall i :: 0 <= i < |stream| && stream[i].acked && stream[i].env.agg == a ==>
      stream[i].env.version <= StoredOf(rows, a)
  }

  ghost predicate LaneExact<D, E>(rows: Rows<D>, lane: Lane<D, E>, a: AggId) {
    !lane.Idle? && lane.env.agg == a ==>
      && (lane.Finished? && lane.decision != Park ==> lane.env.version <= StoredOf(rows, a))
      && (lane.Written? && Verdict(lane) == Apply ==> !IsGap(lane.stored, lane.env.version))
  }

  ghost predicate Exact<D, E>(f: Projector<D, E>, s: State<D, E>, a: AggId) {
    && RowExact(f, s.log, a, RowOf(s.rows, a))
    && AckedOK(s.stream, s.rows, a)
    && (forall l :: l in s.lanes ==> LaneExact(s.rows, s.lanes[l], a))
  }

  /** Applying the next event to the fold of a prefix gives the fold of the longer prefix. */
  lemma CommitExact<D, E>(f: Projector<D, E>, log: Log<E>, stream: seq<Message<E>>, rows: Rows<D>, lane: Lane<D, E>)
    requires LogOK(f, log) && RowsOK(f, log, rows) && LaneOK(f, stream, rows, lane)
    requires lane.Written? && Verdict(lane) == Apply && InLog(log, lane.env) && !IsGap(lane.stored, lane.env.version)
    requires RowExact(f, log, lane.env.agg, RowOf(rows, lane.env.agg))
    ensures lane.row.Some? && RowExact(f, log, lane.env.agg, lane.row)
    ensures lane.env.version <= lane.row.value.version
  {
    var a, v := lane.env.agg, lane.env.version;
    var es := LogOf(log, a);
    assert Creates(f, es[0].payload);
    assert es[..v][..v - 1] == es[..v - 1];
    assert Fold(f, es[..v]) == Put(f, Fold(f, es[..v - 1]), es[v - 1].payload);
    if a in rows {
      assert RowOK(f, log, a, rows[a]);
    }
  }

  lemma CommitExactAt<D, E>(f: Projector<D, E>, s: State<D, E>, l: LaneId)
    requires Inv(f, s) && l in s.lanes && s.lanes[l].Written? && Verdict(s.lanes[l]) == Apply
    requires Exact(f, s, s.lanes[l].env.agg)
    ensures s.lanes[l].row.Some? && RowExact(f, s.log, s.lanes[l].env.agg, s.lanes[l].row)
    ensures s.lanes[l].env.version <= s.lanes[l].row.value.version
  {
    assert LaneOK(f, s.stream, s.rows, s.lanes[l]);
    assert LaneExact(s.rows, s.lanes[l], s.lanes[l].env.agg);
    CommitExact(f, s.log, s.stream, s.rows, s.lanes[l]);
  }

  lemma RowExactStep<D, E>(f: Projector<D, E>, s: State<D, E>, act: Action<E>, a: AggId)
    requires Inv(f, s) && Exact(f, s, a) && Enabled(f, s, act)
    ensures var t := Do(f, s, act); RowExact(f, t.log, a, RowOf(t.rows, a))
  {
    match act
    case Commit(b, e) =>
      ExtendAt(s.log, Envelope(b, |LogOf(s.log, b)| + 1, e));
      if a in s.rows {
        var v := s.rows[a].version;
        assert LogOf(Extend(s.log, Envelope(b, |LogOf(s.log, b)| + 1, e)), a)[..v] == LogOf(s.log, a)[..v];
      }
    case CommitTx(l) =>
      if Do(f, s, act).rows != s.rows && s.lanes[l].env.agg == a {
        assert LaneOK(f, s.stream, s.rows, s.lanes[l]);
        CommitExactAt(f, s, l);
      }
    case _ =>
  }

  lemma AckedStep<D, E>(f: Projector<D, E>, s: State<D, E>, act: Action<E>, a: AggId)
    requires Inv(f, s) && Exact(f, s, a) && Enabled(f, s, act)
    ensures var t := Do(f, s, act); AckedOK(t.stream, t.rows, a)
  {
    StepMonotone(f, s, act, a);
    if act.Settle? {
      assert LaneOK(f, s.stream, s.rows, s.lanes[act.lane]);
      assert LaneExact(s.rows, s.lanes[act.lane], a);
    }
  }

  lemma LaneExactUp<D, E>(rows: Rows<D>, rows': Rows<D>, lane: Lane<D, E>, a: AggId)
    requires LaneExact(rows, lane, a) && StoredOf(rows, a) <= StoredOf(rows', a)
    ensures LaneExact(rows', lane, a)
  {
  }

  lemma LanesExactStep<D, E>(f: Projector<D, E>, s: State<D, E>, act: Action<E>, a: AggId, k: LaneId)
    requires Inv(f, s) && Exact(f, s, a) && Enabled(f, s, act) && !Forced(s, act, a)
    requires k in s.lanes
    ensures k in Do(f, s, act).lanes && LaneExact(Do(f, s, act).rows, Do(f, s, act).lanes[k], a)
  {
    if Do(f, s, act).lanes[k] == s.lanes[k] {
      StepMonotone(f, s, act, a);
      LaneExactUp(s.rows, Do(f, s, act).rows, s.lanes[k], a);
    } else {
      MovedLaneExact(f, s, act, a, k);
    }
  }

  /** The lane that took the step. */
  lemma MovedLaneExact<D, E>(f: Projector<D, E>, s: State<D, E>, act: Action<E>, a: AggId, k: LaneId)
    requires Inv(f, s) && Exact(f, s, a) && Enabled(f, s, act) && !Forced(s, act, a)
    requires k in s.lanes && k in Do(f, s, act).lanes && Do(f, s, act).lanes[k] != s.lanes[k]
    ensures LaneExact(Do(f, s, act).rows, Do(f, s, act).lanes[k], a)
  {
    if act.CommitTx? {
      CommittedLaneExact(f, s, k, a);
    } else if act.Settle? {
      assert Do(f, s, act).lanes[k].Idle?;
    }
  }

  lemma CommittedLaneExact<D, E>(f: Projector<D, E>, s: State<D, E>, l: LaneId, a: AggId)
    requires Inv(f, s) && Exact(f, s, a) && Enabled(f, s, CommitTx(l))
    ensures LaneExact(Do(f, s, CommitTx(l)).rows, Do(f, s, CommitTx(l)).lanes[l], a)
  {
    var lane := s.lanes[l];
    assert LaneOK(f, s.stream, s.rows, lane);
    if lane.env.agg == a && Verdict(lane) == Apply {
      CommitExactAt(f, s, l);
    }
  }

  lemma ExactStep<D, E>(f: Projector<D, E>, s: State<D, E>, act: Action<E>, a: AggId)
    requires Inv(f, s) && Exact(f, s, a) && Enabled(f, s, act) && !Forced(s, act, a)
    ensures Exact(f, Do(f, s, act), a)
  {
    RowExactStep(f, s, act, a);
    AckedStep(f, s, act, a);
    forall k | k in Do(f, s, act).lanes ensures LaneExact(Do(f, s, act).rows, Do(f, s, act).lanes[k], a) {
      LanesExactStep(f, s, act, a, k);
    }
  }

  lemma {:induction false} RunExact<D, E>(f: Projector<D, E>, s: State<D, E>, acts: seq<Action<E>>, a: AggId)
    requires Inv(f, s) && Exact(f, s, a) && Run(f, s, acts) && Unforced(f, s, acts, a)
    ensures Exact(f, After(f, s, acts), a)
    decreases |acts|
  {
    if acts != [] {
      Step(f, s, acts[0]);
      ExactStep(f, s, acts[0], a);
      RunExact(f, Do(f, s, acts[0]), acts[1..], a);
    }
  }

  // ---------------------------------------------------------------- what a run guarantees

  /**
   After any run from an empty system, a row whose aggregate was never forced is the fold of
   exactly the owner's first `version` events, in order, and every acknowledged event is among
   them: whatever the interleaving, the crashes, the duplicates and the redeliveries were.
   */
  lemma ProjectionIsPrefixFold<D, E>(f: Projector<D, E>, s: State<D, E>, acts: seq<Action<E>>, a: AggId)
    requires Init(s) && Run(f, s, acts) && Unforced(f, s, acts, a)
    ensures var t := After(f, s, acts);
      && (a in t.rows ==>
            && 1 <= t.rows[a].version <= |LogOf(t.log, a)|
            && Fold(f, LogOf(t.log, a)[..t.rows[a].version]) == Some(t.rows[a].data))
      && AckedOK(t.stream, t.rows, a)
  {
    InitInv(f, s);
    RunInv(f, s, acts);
    RunExact(f, s, acts, a);
    assert a in After(f, s, acts).rows ==> RowOK(f, After(f, s, acts).log, a, After(f, s, acts).rows[a]);
  }

  /** Quiescence is convergence: with the outbox empty and the consumer drained, as `/readyz` asks, with
      nothing undelivered and nothing delivered and unacknowledged, the projection
      is the fold of the owner's whole history. */
  lemma QuiescentProjectionIsComplete<D, E>(f: Projector<D, E>, s: State<D, E>, acts: seq<Action<E>>, a: AggId)
    requires Init(s) && Run(f, s, acts) && Unforced(f, s, acts, a)
    ensures var t := After(f, s, acts);
      t.outbox == {} && (forall i :: 0 <= i < |t.stream| ==> t.stream[i].delivered > 0 && t.stream[i].acked) && LogOf(t.log, a) != [] ==>
        a in t.rows && t.rows[a].version == |LogOf(t.log, a)| && Fold(f, LogOf(t.log, a)) == Some(t.rows[a].data)
  {
    ProjectionIsPrefixFold(f, s, acts, a);
    InitInv(f, s);
    RunInv(f, s, acts);
    var t := After(f, s, acts);
    var es := LogOf(t.log, a);
    if t.outbox == {} && (forall i :: 0 <= i < |t.stream| ==> t.stream[i].delivered > 0 && t.stream[i].acked) && es != [] {
      LastIsStored(f, t, a);
      assert es[..|es|] == es;
    }
  }

  lemma LastIsStored<D, E>(f: Projector<D, E>, t: State<D, E>, a: AggId)
    requires Inv(f, t) && AckedOK(t.stream, t.rows, a) && t.outbox == {} && LogOf(t.log, a) != []
    requires forall i :: 0 <= i < |t.stream| ==> t.stream[i].acked
    ensures StoredOf(t.rows, a) >= |LogOf(t.log, a)|
  {
    var last := LogOf(t.log, a)[|LogOf(t.log, a)| - 1];
    assert last in t.outbox || InStream(t.stream, last);
    var i :| 0 <= i < |t.stream| && t.stream[i].env == last;
    assert t.stream[i].acked;
  }

  /** Gate and apply in one atomic step, on the row as it is now. */
  ghost function Gate<D, E>(f: Projector<D, E>, rows: Rows<D>, env: Envelope<E>, delivered: int): (Decision, Rows<D>) {
    var row := RowOf(rows, env.agg);
    var decision := Decide(AppliedOf(VersionOf(row)), env.version, delivered);
    (decision,
     if decision == Apply && ApplyRow(f, row, env).Some? then rows[env.agg := ApplyRow(f, row, env).value] else rows)
  }

  /**
   The phases of an apply refine that atomic step. Only a commit changes rows. A lane that parks
   changes nothing; one that will ack leaves the rows exactly as the atomic step would at the
   instant of the commit, and the atomic step would ack too. On a row that existed when it was
   read, the verdicts are the same.
   */
  lemma PhasesRefineGate<D, E>(f: Projector<D, E>, s: State<D, E>, act: Action<E>)
    requires Inv(f, s) && Enabled(f, s, act)
    ensures !act.CommitTx? ==> Do(f, s, act).rows == s.rows
    ensures act.CommitTx? ==>
      var lane := s.lanes[act.lane];
      var atomic := Gate(f, s.rows, lane.env, lane.delivered);
      && (Verdict(lane) == Park ==> Do(f, s, act).rows == s.rows)
      && (Verdict(lane) != Park ==> Do(f, s, act).rows == atomic.1 && atomic.0 != Park)
      && (lane.stored.At? ==> atomic.0 == Verdict(lane))
  {
    if act.CommitTx? {
      CommitRefinesGate(f, s, act.lane);
    }
  }

  lemma CommitRefinesGate<D, E>(f: Projector<D, E>, s: State<D, E>, l: LaneId)
    requires Inv(f, s) && Enabled(f, s, CommitTx(l))
    ensures
      var lane := s.lanes[l];
      var atomic := Gate(f, s.rows, lane.env, lane.delivered);
      && (Verdict(lane) == Park ==> Do(f, s, CommitTx(l)).rows == s.rows)
      && (Verdict(lane) != Park ==> Do(f, s, CommitTx(l)).rows == atomic.1 && atomic.0 != Park)
      && (lane.stored.At? ==> atomic.0 == Verdict(lane))
  {
    assert LaneOK(f, s.stream, s.rows, s.lanes[l]);
    CommittedRows(f, s, l);
    LaneGates(f, s.log, s.stream, s.rows, s.lanes[l]);
  }

  /** The rows once a lane's pending write, if any, is in them. */
  ghost function Landed<D, E>(rows: Rows<D>, lane: Lane<D, E>): Rows<D>
    requires lane.Written?
  {
    if lane.row.None? then rows else rows[lane.env.agg := lane.row.value]
  }

  lemma CommittedRows<D, E>(f: Projector<D, E>, s: State<D, E>, l: LaneId)
    requires Enabled(f, s, CommitTx(l))
    ensures Do(f, s, CommitTx(l)).rows == Landed(s.rows, s.lanes[l])
  {
  }

  lemma LaneGates<D, E>(f: Projector<D, E>, log: Log<E>, stream: seq<Message<E>>, rows: Rows<D>, lane: Lane<D, E>)
    requires LogOK(f, log) && RowsOK(f, log, rows) && LaneOK(f, stream, rows, lane) && lane.Written? && InLog(log, lane.env)
    ensures
      var atomic := Gate(f, rows, lane.env, lane.delivered);
      && (Verdict(lane) == Park ==> Landed(rows, lane) == rows)
      && (Verdict(lane) != Park ==> Landed(rows, lane) == atomic.1 && atomic.0 != Park)
      && (lane.stored.At? ==> atomic.0 == Verdict(lane))
  {
    var a := lane.env.agg;
    if lane.stored.Pending? && a in rows {
      assert RowOK(f, log, a, rows[a]);
      assert Creates(f, LogOf(log, a)[0].payload);
    }
  }

  /**
   Read your own writes: once a poll has seen version `v`, the row contains the owner's events
   1..v, at that moment and in every later state, and those events never change.
   */
  lemma ReadYourOwnWrites<D, E>(f: Projector<D, E>, s: State<D, E>, before: seq<Action<E>>, after: seq<Action<E>>,
                                a: AggId, v: nat)
    requires Init(s) && Run(f, s, before) && Unforced(f, s, before, a)
    requires var t := After(f, s, before); Run(f, t, after) && Unforced(f, t, after, a)
    requires 1 <= v <= StoredOf(After(f, s, before).rows, a)
    ensures var t := After(f, s, before);
      var u := After(f, t, after);
      && a in u.rows && v <= u.rows[a].version <= |LogOf(u.log, a)|
      && v <= |LogOf(t.log, a)| && LogOf(t.log, a) <= LogOf(u.log, a)
      && Fold(f, LogOf(u.log, a)[..u.rows[a].version]) == Some(u.rows[a].data)
  {
    var t := After(f, s, before);
    InitInv(f, s);
    RunInv(f, s, before);
    RunExact(f, s, before, a);
    RunMonotone(f, t, after, a);
    RunExact(f, t, after, a);
    assert RowOK(f, t.log, a, t.rows[a]);
  }

  /** The deliveries a run acts on: one per commit that will ack, in commit order. */
  ghost function Acted<D, E>(f: Projector<D, E>, s: State<D, E>, acts: seq<Action<E>>): seq<(Envelope<E>, int)>
    requires Run(f, s, acts)
    decreases |acts|
  {
    if acts == [] then [] else
    var rest := Acted(f, Do(f, s, acts[0]), acts[1..]);
    if acts[0].CommitTx? && Verdict(s.lanes[acts[0].lane]) != Park
    then [(s.lanes[acts[0].lane].env, s.lanes[acts[0].lane].delivered as int)] + rest
    else rest
  }

  ghost function GateAll<D, E>(f: Projector<D, E>, rows: Rows<D>, ds: seq<(Envelope<E>, int)>): Rows<D>
    decreases |ds|
  {
    if ds == [] then rows else GateAll(f, Gate(f, rows, ds[0].0, ds[0].1).1, ds[1..])
  }

  /** Whatever the phases of however many lanes interleave to, the rows are those of a system
      that gates and applies one delivery at a time. */
  lemma {:induction false} RunRefinesGates<D, E>(f: Projector<D, E>, s: State<D, E>, acts: seq<Action<E>>)
    requires Inv(f, s) && Run(f, s, acts)
    ensures After(f, s, acts).rows == GateAll(f, s.rows, Acted(f, s, acts))
    decreases |acts|
  {
    if acts != [] {
      var t := Do(f, s, acts[0]);
      Step(f, s, acts[0]);
      PhasesRefineGate(f, s, acts[0]);
      RunRefinesGates(f, t, acts[1..]);
      var ds := Acted(f, s, acts);
      if acts[0].CommitTx? && Verdict(s.lanes[acts[0].lane]) != Park {
        assert ds[1..] == Acted(f, t, acts[1..]);
      }
    }
  }
}
