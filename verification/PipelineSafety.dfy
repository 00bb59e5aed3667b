/**
 What every step of the pipeline keeps, the escape hatch included: nothing committed is lost,
 the lane that holds a row's lock has read what the row holds, and the versions that take
 effect on a row only go up.
 */
module PipelineSafety {
  import opened Pipeline
  import opened Versions
  import opened Wrappers

  /** The event is the one the log holds at its own version. */
  ghost predicate InLog<E>(log: Log<E>, env: Envelope<E>) {
    1 <= env.version <= |LogOf(log, env.agg)| && LogOf(log, env.agg)[env.version - 1] == env
  }

  /** The log numbers an aggregate's events 1, 2, 3, …, and the first is a create. */
  ghost predicate LogOK<D, E>(f: Projector<D, E>, log: Log<E>) {
    && (forall a: AggId, i: int :: 0 <= i < |LogOf(log, a)| ==>
          LogOf(log, a)[i].agg == a && LogOf(log, a)[i].version == i + 1)
    && (forall a: AggId :: LogOf(log, a) != [] ==> Creates(f, LogOf(log, a)[0].payload))
  }

  ghost predicate RelayOK<E>(log: Log<E>, stream: seq<Message<E>>, relay: Relay<E>) {
    && (forall i :: 0 <= i < |relay.batch| ==> InLog(log, relay.batch[i]))
    && (relay.published ==> relay.batch != [] && InStream(stream, relay.batch[0]))
  }

  /** Every committed event is still in the outbox or already in the stream. */
  ghost predicate NothingLost<E>(log: Log<E>, outbox: set<Envelope<E>>, stream: seq<Message<E>>) {
    forall a: AggId, i: int :: 0 <= i < |LogOf(log, a)| ==>
      LogOf(log, a)[i] in outbox || InStream(stream, LogOf(log, a)[i])
  }

  ghost predicate SupplyOK<E>(log: Log<E>, outbox: set<Envelope<E>>, relays: map<RelayId, Relay<E>>,
                                  stream: seq<Message<E>>) {
    && (forall env :: env in outbox ==> InLog(log, env))
    && (forall i :: 0 <= i < |stream| ==> InLog(log, stream[i].env))
    && (forall r :: r in relays ==> RelayOK(log, stream, relays[r]))
    && NothingLost(log, outbox, stream)
  }

  /** What a lane knows about the row it is working on. */
  ghost predicate LaneOK<D, E>(f: Projector<D, E>, stream: seq<Message<E>>, rows: Rows<D>, lane: Lane<D, E>) {
    && (!lane.Idle? ==> lane.at < |stream| && stream[lane.at].env == lane.env)
    && (lane.Gated? || lane.Written? ==>
          && !lane.stored.Unavailable?
          && (lane.stored.At? ==> VersionOf(RowOf(rows, lane.env.agg)) == Some(lane.stored.version)))
    && (lane.Written? ==> WrittenOK(f, rows, lane))
  }

  ghost predicate WrittenOK<D, E>(f: Projector<D, E>, rows: Rows<D>, lane: Lane<D, E>)
    requires lane.Written?
  {
    if Verdict(lane) == Apply then
      && lane.row == ApplyRow(f, RowOf(rows, lane.env.agg), lane.env)
      && (lane.stored.Pending? ==> StoredOf(rows, lane.env.agg) <= 1)
    else lane.row == None
  }

  ghost predicate LanesOK<D, E>(f: Projector<D, E>, stream: seq<Message<E>>, rows: Rows<D>,
                                lanes: map<LaneId, Lane<D, E>>) {
    forall l :: l in lanes ==> LaneOK(f, stream, rows, lanes[l])
  }

  ghost predicate Exclusive<D, E>(lanes: map<LaneId, Lane<D, E>>) {
    forall k, l, a :: k in lanes && l in lanes && Holds(lanes[k], a) && Holds(lanes[l], a) ==> k == l
  }

  ghost predicate RowOK<D, E>(f: Projector<D, E>, log: Log<E>, a: AggId, row: Row<D>) {
    && 1 <= row.version <= |LogOf(log, a)|
    && (row.version == 1 ==> Some(row.data) == f(None, LogOf(log, a)[0].payload))
  }

  ghost predicate RowsOK<D, E>(f: Projector<D, E>, log: Log<E>, rows: Rows<D>) {
    forall a :: a in rows ==> RowOK(f, log, a, rows[a])
  }

  ghost predicate Increasing(vs: seq<int>) {
    forall i, j :: 0 <= i < j < |vs| ==> vs[i] < vs[j]
  }

  ghost predicate EffectOK<D>(row: Option<Row<D>>, vs: seq<int>) {
    && Increasing(vs)
    && (row.Some? <==> vs != [])
    && (row.Some? ==> row.value.version == vs[|vs| - 1])
  }

  ghost predicate EffectsOK<D>(rows: Rows<D>, effects: map<AggId, seq<int>>) {
    forall a: AggId :: EffectOK(RowOf(rows, a), EffectsOf(effects, a))
  }

  ghost predicate Inv<D, E>(f: Projector<D, E>, s: State<D, E>) {
    && LogOK(f, s.log)
    && SupplyOK(s.log, s.outbox, s.relays, s.stream)
    && LanesOK(f, s.stream, s.rows, s.lanes)
    && Exclusive(s.lanes)
    && RowsOK(f, s.log, s.rows)
    && EffectsOK(s.rows, s.effects)
  }

  // ---------------------------------------------------------------- each step keeps each part

  ghost function Extend<E>(log: Log<E>, env: Envelope<E>): Log<E> {
    log[env.agg := LogOf(log, env.agg) + [env]]
  }

  lemma ExtendAt<E>(log: Log<E>, env: Envelope<E>)
    ensures forall a: AggId ::
      LogOf(Extend(log, env), a) == LogOf(log, a) + if a == env.agg then [env] else []
    ensures forall e :: InLog(log, e) ==> InLog(Extend(log, env), e)
  {
  }

  lemma LogAppend<D, E>(f: Projector<D, E>, log: Log<E>, env: Envelope<E>)
    requires LogOK(f, log) && env.version == |LogOf(log, env.agg)| + 1
    requires LogOf(log, env.agg) == [] ==> Creates(f, env.payload)
    ensures LogOK(f, Extend(log, env))
  {
    var log' := Extend(log, env);
    ExtendAt(log, env);
    forall a: AggId, i: int | 0 <= i < |LogOf(log', a)|
      ensures LogOf(log', a)[i].agg == a && LogOf(log', a)[i].version == i + 1
    {
      if i < |LogOf(log, a)| {
        assert LogOf(log', a)[i] == LogOf(log, a)[i];
      }
    }
    forall a: AggId | LogOf(log', a) != [] ensures Creates(f, LogOf(log', a)[0].payload) {
      if LogOf(log, a) != [] {
        assert LogOf(log', a)[0] == LogOf(log, a)[0];
      }
    }
  }

  lemma LogStep<D, E>(f: Projector<D, E>, s: State<D, E>, act: Action<E>)
    requires LogOK(f, s.log) && Enabled(f, s, act)
    ensures LogOK(f, Do(f, s, act).log)
  {
    match act
    case Commit(a, e) => LogAppend(f, s.log, Envelope(a, |LogOf(s.log, a)| + 1, e));
    case _ =>
  }

  /** The second stream holds everything the first holds, in the same places. */
  ghost predicate Keeps<E>(old_: seq<Message<E>>, new_: seq<Message<E>>) {
    |old_| <= |new_| && forall i :: 0 <= i < |old_| ==> new_[i].env == old_[i].env
  }

  lemma KeepsInStream<E>(old_: seq<Message<E>>, new_: seq<Message<E>>, env: Envelope<E>)
    requires Keeps(old_, new_) && InStream(old_, env)
    ensures InStream(new_, env)
  {
    var i :| 0 <= i < |old_| && old_[i].env == env;
    assert new_[i].env == env;
  }

  lemma SupplyKept<E>(log: Log<E>, outbox: set<Envelope<E>>, relays: map<RelayId, Relay<E>>,
                      old_: seq<Message<E>>, new_: seq<Message<E>>)
    requires SupplyOK(log, outbox, relays, old_) && Keeps(old_, new_)
    requires forall i :: |old_| <= i < |new_| ==> InLog(log, new_[i].env)
    ensures SupplyOK(log, outbox, relays, new_)
  {
    forall env | InStream(old_, env) ensures InStream(new_, env) {
      KeepsInStream(old_, new_, env);
    }
  }

  lemma SupplyCommit<E>(log: Log<E>, env: Envelope<E>, outbox: set<Envelope<E>>, relays: map<RelayId, Relay<E>>,
                        stream: seq<Message<E>>)
    requires SupplyOK(log, outbox, relays, stream) && env.version == |LogOf(log, env.agg)| + 1
    ensures SupplyOK(Extend(log, env), outbox + {env}, relays, stream)
  {
    var log' := Extend(log, env);
    ExtendAt(log, env);
    forall a: AggId, i: int | 0 <= i < |LogOf(log', a)|
      ensures LogOf(log', a)[i] in outbox + {env} || InStream(stream, LogOf(log', a)[i])
    {
      if i < |LogOf(log, a)| {
        assert LogOf(log', a)[i] == LogOf(log, a)[i];
      }
    }
    forall r | r in relays ensures RelayOK(log', stream, relays[r]) {
      assert RelayOK(log, stream, relays[r]);
    }
  }

  lemma SupplyRelay<E>(log: Log<E>, outbox: set<Envelope<E>>, relays: map<RelayId, Relay<E>>,
                       stream: seq<Message<E>>, r: RelayId, relay: Relay<E>)
    requires SupplyOK(log, outbox, relays, stream) && RelayOK(log, stream, relay)
    ensures SupplyOK(log, outbox, relays[r := relay], stream)
  {
  }

  lemma SupplyDelete<E>(log: Log<E>, outbox: set<Envelope<E>>, relays: map<RelayId, Relay<E>>,
                        stream: seq<Message<E>>, env: Envelope<E>)
    requires SupplyOK(log, outbox, relays, stream) && InStream(stream, env)
    ensures SupplyOK(log, outbox - {env}, relays, stream)
  {
  }

  lemma SupplyStep<D, E>(f: Projector<D, E>, s: State<D, E>, act: Action<E>)
    requires SupplyOK(s.log, s.outbox, s.relays, s.stream) && Enabled(f, s, act)
    ensures var t := Do(f, s, act); SupplyOK(t.log, t.outbox, t.relays, t.stream)
  {
    match act
    case Commit(a, e) =>
      SupplyCommit(s.log, Envelope(a, |LogOf(s.log, a)| + 1, e), s.outbox, s.relays, s.stream);
    case Load(r, batch) =>
      SupplyRelay(s.log, s.outbox, s.relays, s.stream, r, Relay(batch, false));
    case Publish(r, dropped) => SupplyPublish(s.log, s.outbox, s.relays, s.stream, r, dropped);
    case Delete(r) =>
      var relay := s.relays[r];
      assert RelayOK(s.log, s.stream, relay);
      SupplyDelete(s.log, s.outbox, s.relays, s.stream, relay.batch[0]);
      SupplyRelay(s.log, s.outbox - {relay.batch[0]}, s.relays, s.stream, r, Relay(relay.batch[1..], false));
    case RelayCrash(r) => SupplyRelay(s.log, s.outbox, s.relays, s.stream, r, Relay([], false));
    case Deliver(l, at) => SupplyKept(s.log, s.outbox, s.relays, s.stream, Do(f, s, act).stream);
    case Settle(l) => SupplyKept(s.log, s.outbox, s.relays, s.stream, Do(f, s, act).stream);
    case _ =>
  }

  lemma SupplyPublish<E>(log: Log<E>, outbox: set<Envelope<E>>, relays: map<RelayId, Relay<E>>,
                         stream: seq<Message<E>>, r: RelayId, dropped: bool)
    requires SupplyOK(log, outbox, relays, stream)
    requires r in relays && relays[r].batch != []
    requires dropped ==> InStream(stream, relays[r].batch[0])
    ensures SupplyOK(log, outbox, relays[r := relays[r].(published := true)],
                     if dropped then stream else stream + [Message(relays[r].batch[0], 0, false)])
  {
    var env := relays[r].batch[0];
    assert RelayOK(log, stream, relays[r]);
    var stream' := if dropped then stream else stream + [Message(env, 0, false)];
    SupplyKept(log, outbox, relays, stream, stream');
    assert !dropped ==> stream'[|stream|].env == env;
    SupplyRelay(log, outbox, relays, stream', r, relays[r].(published := true));
  }

  // ---------------------------------------------------------------- lanes and locks

  lemma LaneFrame<D, E>(f: Projector<D, E>, stream: seq<Message<E>>, rows: Rows<D>, lane: Lane<D, E>,
                        a: AggId, row: Row<D>)
    requires LaneOK(f, stream, rows, lane) && !Holds(lane, a)
    ensures LaneOK(f, stream, rows[a := row], lane)
  {
  }

  lemma LanesKept<D, E>(f: Projector<D, E>, old_: seq<Message<E>>, new_: seq<Message<E>>, rows: Rows<D>,
                        lanes: map<LaneId, Lane<D, E>>)
    requires LanesOK(f, old_, rows, lanes) && Keeps(old_, new_)
    ensures LanesOK(f, new_, rows, lanes)
  {
    forall l | l in lanes ensures LaneOK(f, new_, rows, lanes[l]) {
      assert LaneOK(f, old_, rows, lanes[l]);
    }
  }

  lemma LaneSet<D, E>(f: Projector<D, E>, stream: seq<Message<E>>, rows: Rows<D>,
                      lanes: map<LaneId, Lane<D, E>>, l: LaneId, lane: Lane<D, E>)
    requires LanesOK(f, stream, rows, lanes) && LaneOK(f, stream, rows, lane)
    ensures LanesOK(f, stream, rows, lanes[l := lane])
  {
  }

  lemma LaneWrite<D, E>(f: Projector<D, E>, stream: seq<Message<E>>, rows: Rows<D>, lane: Lane<D, E>)
    requires lane.Gated? && LaneOK(f, stream, rows, lane)
    requires Verdict(lane) == Apply && lane.stored.Pending? ==> StoredOf(rows, lane.env.agg) <= 1
    ensures LaneOK(f, stream, rows, Written(lane.at, lane.env, lane.delivered, lane.stored,
              if Verdict(lane) == Apply then ApplyRow(f, RowOf(rows, lane.env.agg), lane.env) else None))
  {
  }

  lemma LanesCommit<D, E>(f: Projector<D, E>, stream: seq<Message<E>>, rows: Rows<D>,
                          lanes: map<LaneId, Lane<D, E>>, l: LaneId, row: Row<D>)
    requires LanesOK(f, stream, rows, lanes) && Exclusive(lanes)
    requires l in lanes && lanes[l].Written? && lanes[l].row.Some?
    ensures LanesOK(f, stream, rows[lanes[l].env.agg := row],
                    lanes[l := Finished(lanes[l].at, lanes[l].env, Verdict(lanes[l]))])
  {
    var lane := lanes[l];
    assert LaneOK(f, stream, rows, lane);
    assert Holds(lane, lane.env.agg);
    forall k | k in lanes && k != l ensures LaneOK(f, stream, rows[lane.env.agg := row], lanes[k]) {
      assert LaneOK(f, stream, rows, lanes[k]);
      LaneFrame(f, stream, rows, lanes[k], lane.env.agg, row);
    }
  }

  lemma LanesStep<D, E>(f: Projector<D, E>, s: State<D, E>, act: Action<E>)
    requires Inv(f, s) && Enabled(f, s, act) && !Stale(s, act)
    ensures var t := Do(f, s, act); LanesOK(f, t.stream, t.rows, t.lanes)
  {
    var t := Do(f, s, act);
    match act
    case Publish(r, dropped) => LanesKept(f, s.stream, t.stream, s.rows, s.lanes);
    case Deliver(l, at) =>
      LanesKept(f, s.stream, t.stream, s.rows, s.lanes);
      LaneSet(f, t.stream, s.rows, s.lanes, l, t.lanes[l]);
    case Settle(l) =>
      LanesKept(f, s.stream, t.stream, s.rows, s.lanes);
      LaneSet(f, t.stream, s.rows, s.lanes, l, Idle);
    case Lock(l) =>
      assert LaneOK(f, s.stream, s.rows, s.lanes[l]);
      LaneSet(f, s.stream, s.rows, s.lanes, l, t.lanes[l]);
    case Write(l) =>
      assert LaneOK(f, s.stream, s.rows, s.lanes[l]);
      LaneWrite(f, s.stream, s.rows, s.lanes[l]);
      LaneSet(f, s.stream, s.rows, s.lanes, l, t.lanes[l]);
    case CommitTx(l) =>
      assert LaneOK(f, s.stream, s.rows, s.lanes[l]);
      if t.rows == s.rows {
        LaneSet(f, s.stream, s.rows, s.lanes, l, t.lanes[l]);
      } else {
        LanesCommit(f, s.stream, s.rows, s.lanes, l, s.lanes[l].row.value);
      }
    case LaneCrash(l) => LaneSet(f, s.stream, s.rows, s.lanes, l, Idle);
    case _ =>
  }

  lemma ExclusiveSet<D, E>(lanes: map<LaneId, Lane<D, E>>, l: LaneId, lane: Lane<D, E>)
    requires Exclusive(lanes)
    requires !lane.Idle? ==> (Holds(lane, lane.env.agg) ==> LockFree(lanes, l, lane.env.agg))
    ensures Exclusive(lanes[l := lane])
  {
  }

  lemma ExclusiveStep<D, E>(f: Projector<D, E>, s: State<D, E>, act: Action<E>)
    requires Exclusive(s.lanes) && Enabled(f, s, act)
    ensures Exclusive(Do(f, s, act).lanes)
  {
    var t := Do(f, s, act);
    if act.Deliver? || act.Lock? || act.Write? || act.CommitTx? || act.Settle? || act.LaneCrash? {
      var l := act.lane;
      assert act.Write? && s.lanes[l].stored.At? ==> Holds(s.lanes[l], s.lanes[l].env.agg);
      ExclusiveSet(s.lanes, l, t.lanes[l]);
    }
  }

  // ---------------------------------------------------------------- rows and effects

  /** A commit that changes a row moves it to its event's version, which is above the stored one. */
  lemma CommitMovesUp<D, E>(f: Projector<D, E>, log: Log<E>, stream: seq<Message<E>>, rows: Rows<D>, lane: Lane<D, E>)
    requires LogOK(f, log) && RowsOK(f, log, rows) && LaneOK(f, stream, rows, lane)
    requires lane.Written? && lane.row.Some? && InLog(log, lane.env) && lane.row != RowOf(rows, lane.env.agg)
    ensures lane.row.value.version == lane.env.version > StoredOf(rows, lane.env.agg)
    ensures RowOK(f, log, lane.env.agg, lane.row.value)
  {
    var a := lane.env.agg;
    assert Creates(f, LogOf(log, a)[0].payload);
    if a in rows {
      assert RowOK(f, log, a, rows[a]);
    }
  }

  lemma Moved<D, E>(f: Projector<D, E>, s: State<D, E>, l: LaneId)
    requires Inv(f, s) && l in s.lanes && s.lanes[l].Written?
    requires s.lanes[l].row.Some? && s.lanes[l].row != RowOf(s.rows, s.lanes[l].env.agg)
    ensures s.lanes[l].row.value.version == s.lanes[l].env.version > StoredOf(s.rows, s.lanes[l].env.agg)
    ensures RowOK(f, s.log, s.lanes[l].env.agg, s.lanes[l].row.value)
  {
    assert LaneOK(f, s.stream, s.rows, s.lanes[l]);
    CommitMovesUp(f, s.log, s.stream, s.rows, s.lanes[l]);
  }

  lemma RowsExtend<D, E>(f: Projector<D, E>, log: Log<E>, rows: Rows<D>, env: Envelope<E>)
    requires RowsOK(f, log, rows)
    ensures RowsOK(f, Extend(log, env), rows)
  {
    ExtendAt(log, env);
    forall b | b in rows ensures RowOK(f, Extend(log, env), b, rows[b]) {
      assert RowOK(f, log, b, rows[b]);
    }
  }

  lemma RowsSet<D, E>(f: Projector<D, E>, log: Log<E>, rows: Rows<D>, a: AggId, row: Row<D>)
    requires RowsOK(f, log, rows) && RowOK(f, log, a, row)
    ensures RowsOK(f, log, rows[a := row])
  {
  }

  lemma RowsStep<D, E>(f: Projector<D, E>, s: State<D, E>, act: Action<E>)
    requires Inv(f, s) && Enabled(f, s, act)
    ensures var t := Do(f, s, act); RowsOK(f, t.log, t.rows)
  {
    match act
    case Commit(a, e) => RowsExtend(f, s.log, s.rows, Envelope(a, |LogOf(s.log, a)| + 1, e));
    case CommitTx(l) =>
      if Do(f, s, act).rows != s.rows {
        Moved(f, s, l);
        RowsSet(f, s.log, s.rows, s.lanes[l].env.agg, s.lanes[l].row.value);
      }
    case _ =>
  }

  lemma EffectsSet<D>(rows: Rows<D>, effects: map<AggId, seq<int>>, a: AggId, row: Row<D>)
    requires EffectsOK(rows, effects) && StoredOf(rows, a) < row.version
    ensures EffectsOK(rows[a := row], effects[a := EffectsOf(effects, a) + [row.version]])
  {
    var effects' := effects[a := EffectsOf(effects, a) + [row.version]];
    forall b: AggId ensures EffectOK(RowOf(rows[a := row], b), EffectsOf(effects', b)) {
      assert EffectOK(RowOf(rows, b), EffectsOf(effects, b));
    }
  }

  lemma EffectsStep<D, E>(f: Projector<D, E>, s: State<D, E>, act: Action<E>)
    requires Inv(f, s) && Enabled(f, s, act)
    ensures var t := Do(f, s, act); EffectsOK(t.rows, t.effects)
  {
    match act
    case CommitTx(l) =>
      if Do(f, s, act).rows != s.rows {
        Moved(f, s, l);
        EffectsSet(s.rows, s.effects, s.lanes[l].env.agg, s.lanes[l].row.value);
      }
    case _ =>
  }

  lemma Step<D, E>(f: Projector<D, E>, s: State<D, E>, act: Action<E>)
    requires Inv(f, s) && Enabled(f, s, act) && !Stale(s, act)
    ensures Inv(f, Do(f, s, act))
  {
    LogStep(f, s, act);
    SupplyStep(f, s, act);
    LanesStep(f, s, act);
    ExclusiveStep(f, s, act);
    RowsStep(f, s, act);
    EffectsStep(f, s, act);
  }

  // ---------------------------------------------------------------- every run

  lemma InitInv<D, E>(f: Projector<D, E>, s: State<D, E>)
    requires Init(s)
    ensures Inv(f, s)
  {
  }

  lemma {:induction false} RunInv<D, E>(f: Projector<D, E>, s: State<D, E>, acts: seq<Action<E>>)
    requires Inv(f, s) && Run(f, s, acts)
    ensures Inv(f, After(f, s, acts))
    decreases |acts|
  {
    if acts != [] {
      Step(f, s, acts[0]);
      RunInv(f, Do(f, s, acts[0]), acts[1..]);
    }
  }

  /** The stored version of no row ever goes down, and a log only grows. */
  lemma StepMonotone<D, E>(f: Projector<D, E>, s: State<D, E>, act: Action<E>, a: AggId)
    requires Inv(f, s) && Enabled(f, s, act)
    ensures StoredOf(s.rows, a) <= StoredOf(Do(f, s, act).rows, a)
    ensures LogOf(s.log, a) <= LogOf(Do(f, s, act).log, a)
    ensures EffectsOf(s.effects, a) <= EffectsOf(Do(f, s, act).effects, a)
  {
    if act.CommitTx? && Do(f, s, act).rows != s.rows {
      Moved(f, s, act.lane);
    }
  }

  lemma {:induction false} RunMonotone<D, E>(f: Projector<D, E>, s: State<D, E>, acts: seq<Action<E>>, a: AggId)
    requires Inv(f, s) && Run(f, s, acts)
    ensures StoredOf(s.rows, a) <= StoredOf(After(f, s, acts).rows, a)
    ensures LogOf(s.log, a) <= LogOf(After(f, s, acts).log, a)
    ensures EffectsOf(s.effects, a) <= EffectsOf(After(f, s, acts).effects, a)
    decreases |acts|
  {
    if acts != [] {
      Step(f, s, acts[0]);
      StepMonotone(f, s, acts[0], a);
      RunMonotone(f, Do(f, s, acts[0]), acts[1..], a);
    }
  }

  // ---------------------------------------------------------------- effects and columns

  /** The events at the given versions of a history. */
  ghost function Picked<E>(es: seq<Envelope<E>>, vs: seq<int>): seq<Envelope<E>>
    requires forall i :: 0 <= i < |vs| ==> 1 <= vs[i] <= |es|
  {
    seq(|vs|, i requires 0 <= i < |vs| => es[vs[i] - 1])
  }

  ghost predicate InRange(vs: seq<int>, n: nat) {
    forall i :: 0 <= i < |vs| ==> 1 <= vs[i] <= n
  }

  /** The row holds the fold of exactly the events that took effect on it. */
  ghost predicate FoldOK<D, E>(f: Projector<D, E>, es: seq<Envelope<E>>, row: Option<Row<D>>, vs: seq<int>) {
    && InRange(vs, |es|)
    && (vs != [] ==> f(None, es[vs[0] - 1].payload).Some?)
    && Fold(f, Picked(es, vs)) == match row case None => None case Some(r) => Some(r.data)
  }

  ghost predicate FoldsOK<D, E>(f: Projector<D, E>, s: State<D, E>) {
    forall a: AggId :: FoldOK(f, LogOf(s.log, a), RowOf(s.rows, a), EffectsOf(s.effects, a))
  }

  lemma FoldSnoc<D, E>(f: Projector<D, E>, es: seq<Envelope<E>>, vs: seq<int>, v: int)
    requires InRange(vs, |es|) && 1 <= v <= |es|
    ensures InRange(vs + [v], |es|)
    ensures Fold(f, Picked(es, vs + [v])) == Put(f, Fold(f, Picked(es, vs)), es[v - 1].payload)
  {
    var all := Picked(es, vs + [v]);
    assert all[..|all| - 1] == Picked(es, vs) && all[|all| - 1] == es[v - 1];
  }

  lemma FoldExtends<D, E>(f: Projector<D, E>, es: seq<Envelope<E>>, env: Envelope<E>, row: Option<Row<D>>, vs: seq<int>)
    requires FoldOK(f, es, row, vs)
    ensures FoldOK(f, es + [env], row, vs)
  {
    assert Picked(es + [env], vs) == Picked(es, vs);
  }

  /** An event applied puts its columns on the columns that were there. */
  lemma ApplyFolds<D, E>(f: Projector<D, E>, es: seq<Envelope<E>>, row: Option<Row<D>>, env: Envelope<E>, vs: seq<int>)
    requires FoldOK(f, es, row, vs) && (row.Some? <==> vs != [])
    requires 1 <= env.version <= |es| && es[env.version - 1] == env && ApplyRow(f, row, env).Some?
    ensures FoldOK(f, es, ApplyRow(f, row, env), vs + [env.version])
  {
    FoldSnoc(f, es, vs, env.version);
    assert vs == [] ==> Picked(es, vs) == [];
  }

  lemma CommitApplies<D, E>(f: Projector<D, E>, s: State<D, E>, l: LaneId)
    requires Inv(f, s) && l in s.lanes && s.lanes[l].Written? && s.lanes[l].row.Some?
    ensures InLog(s.log, s.lanes[l].env)
    ensures s.lanes[l].row == ApplyRow(f, RowOf(s.rows, s.lanes[l].env.agg), s.lanes[l].env)
  {
    assert LaneOK(f, s.stream, s.rows, s.lanes[l]);
  }

  lemma CommitFolds<D, E>(f: Projector<D, E>, s: State<D, E>, l: LaneId)
    requires Inv(f, s) && FoldsOK(f, s) && l in s.lanes && s.lanes[l].Written? && s.lanes[l].row.Some?
    ensures FoldOK(f, LogOf(s.log, s.lanes[l].env.agg), s.lanes[l].row,
                   EffectsOf(s.effects, s.lanes[l].env.agg) + [s.lanes[l].env.version])
  {
    var a := s.lanes[l].env.agg;
    CommitApplies(f, s, l);
    assert EffectOK(RowOf(s.rows, a), EffectsOf(s.effects, a));
    ApplyFolds(f, LogOf(s.log, a), RowOf(s.rows, a), s.lanes[l].env, EffectsOf(s.effects, a));
  }

  /** Only a commit of the owner or of a lane touches an aggregate's history, row and effects. */
  lemma Untouched<D, E>(f: Projector<D, E>, s: State<D, E>, act: Action<E>, a: AggId)
    requires Enabled(f, s, act) && !(act.Commit? && act.agg == a) && !(act.CommitTx? && s.lanes[act.lane].env.agg == a)
    ensures LogOf(Do(f, s, act).log, a) == LogOf(s.log, a)
    ensures RowOf(Do(f, s, act).rows, a) == RowOf(s.rows, a)
    ensures EffectsOf(Do(f, s, act).effects, a) == EffectsOf(s.effects, a)
  {
  }

  lemma FoldAtCommitTx<D, E>(f: Projector<D, E>, s: State<D, E>, l: LaneId)
    requires Inv(f, s) && FoldsOK(f, s) && Enabled(f, s, CommitTx(l))
    ensures var t := Do(f, s, CommitTx(l));
      var a := s.lanes[l].env.agg;
      FoldOK(f, LogOf(t.log, a), RowOf(t.rows, a), EffectsOf(t.effects, a))
  {
    var a := s.lanes[l].env.agg;
    assert FoldOK(f, LogOf(s.log, a), RowOf(s.rows, a), EffectsOf(s.effects, a));
    if s.lanes[l].row.Some? {
      CommitFolds(f, s, l);
    }
  }

  lemma FoldAtCommit<D, E>(f: Projector<D, E>, s: State<D, E>, a: AggId, e: E)
    requires FoldsOK(f, s) && Enabled(f, s, Commit(a, e))
    ensures var t := Do(f, s, Commit(a, e)); FoldOK(f, LogOf(t.log, a), RowOf(t.rows, a), EffectsOf(t.effects, a))
  {
    assert FoldOK(f, LogOf(s.log, a), RowOf(s.rows, a), EffectsOf(s.effects, a));
    FoldExtends(f, LogOf(s.log, a), Envelope(a, |LogOf(s.log, a)| + 1, e), RowOf(s.rows, a), EffectsOf(s.effects, a));
  }

  /** What one step does to one aggregate's history, row and effects. */
  lemma FoldStepAt<D, E>(f: Projector<D, E>, s: State<D, E>, act: Action<E>, a: AggId)
    requires Inv(f, s) && FoldsOK(f, s) && Enabled(f, s, act)
    ensures FoldOK(f, LogOf(Do(f, s, act).log, a), RowOf(Do(f, s, act).rows, a), EffectsOf(Do(f, s, act).effects, a))
  {
    if act.Commit? && act.agg == a {
      FoldAtCommit(f, s, a, act.payload);
    } else if act.CommitTx? && s.lanes[act.lane].env.agg == a {
      FoldAtCommitTx(f, s, act.lane);
    } else {
      Untouched(f, s, act, a);
      assert FoldOK(f, LogOf(s.log, a), RowOf(s.rows, a), EffectsOf(s.effects, a));
    }
  }

  lemma FoldStep<D, E>(f: Projector<D, E>, s: State<D, E>, act: Action<E>)
    requires Inv(f, s) && FoldsOK(f, s) && Enabled(f, s, act)
    ensures FoldsOK(f, Do(f, s, act))
  {
    var t := Do(f, s, act);
    forall a: AggId ensures FoldOK(f, LogOf(t.log, a), RowOf(t.rows, a), EffectsOf(t.effects, a)) {
      FoldStepAt(f, s, act, a);
    }
  }

  lemma {:induction false} RunFolds<D, E>(f: Projector<D, E>, s: State<D, E>, acts: seq<Action<E>>)
    requires Inv(f, s) && FoldsOK(f, s) && Run(f, s, acts)
    ensures FoldsOK(f, After(f, s, acts))
    decreases |acts|
  {
    if acts != [] {
      Step(f, s, acts[0]);
      FoldStep(f, s, acts[0]);
      RunFolds(f, Do(f, s, acts[0]), acts[1..]);
    }
  }

  lemma InitFolds<D, E>(f: Projector<D, E>, s: State<D, E>)
    requires Init(s)
    ensures FoldsOK(f, s)
  {
  }

  /**
   In every run from an empty system, whatever the escape hatch forces: the versions that changed a
   row strictly increase, the last of them is the one stored, and the row's columns are the fold of
   exactly those events of the owner, each of them once. Every committed event is still in the
   outbox or in the stream.
   */
  lemma EffectsStrictlyIncrease<D, E>(f: Projector<D, E>, s: State<D, E>, acts: seq<Action<E>>, a: AggId)
    requires Init(s) && Run(f, s, acts)
    ensures var t := After(f, s, acts);
      && Increasing(EffectsOf(t.effects, a))
      && (a in t.rows ==> EffectsOf(t.effects, a) != [] && StoredOf(t.rows, a) == EffectsOf(t.effects, a)[|EffectsOf(t.effects, a)| - 1])
      && (a !in t.rows ==> EffectsOf(t.effects, a) == [])
      && FoldOK(f, LogOf(t.log, a), RowOf(t.rows, a), EffectsOf(t.effects, a))
      && NothingLost(t.log, t.outbox, t.stream)
  {
    InitInv(f, s);
    RunInv(f, s, acts);
    InitFolds(f, s);
    RunFolds(f, s, acts);
    assert EffectOK(RowOf(After(f, s, acts).rows, a), EffectsOf(After(f, s, acts).effects, a));
  }

  /** Two lanes past the gate never hold the same stored row: one of them would have read the
      version before the other's commit, and both would conclude they are next. */
  lemma NeverBothNext<D, E>(f: Projector<D, E>, s: State<D, E>, acts: seq<Action<E>>, k: LaneId, l: LaneId)
    requires Init(s) && Run(f, s, acts) && k != l
    ensures var t := After(f, s, acts);
      k in t.lanes && l in t.lanes && (t.lanes[k].Gated? || t.lanes[k].Written?) && (t.lanes[l].Gated? || t.lanes[l].Written?)
      && t.lanes[k].env.agg == t.lanes[l].env.agg
      && Verdict(t.lanes[k]) == Apply && Verdict(t.lanes[l]) == Apply
      ==> t.lanes[k].stored.Pending? || t.lanes[l].stored.Pending?
  {
    InitInv(f, s);
    RunInv(f, s, acts);
    var t := After(f, s, acts);
    if k in t.lanes && l in t.lanes && (t.lanes[k].Gated? || t.lanes[k].Written?) && (t.lanes[l].Gated? || t.lanes[l].Written?)
       && t.lanes[k].stored.At? && t.lanes[l].stored.At? && t.lanes[k].env.agg == t.lanes[l].env.agg {
      assert Holds(t.lanes[k], t.lanes[k].env.agg) && Holds(t.lanes[l], t.lanes[k].env.agg);
    }
    assert k in t.lanes ==> LaneOK(f, t.stream, t.rows, t.lanes[k]);
    assert l in t.lanes ==> LaneOK(f, t.stream, t.rows, t.lanes[l]);
  }
}
