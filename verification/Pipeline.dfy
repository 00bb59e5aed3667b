/**
 The event pipeline as a step system: owner commits, the outbox and its relays, the stream
 with its delivery counts, and the projection that every replica's apply lanes write.

 A projector is any function `f` from the current data columns of a row (`None` for no row)
 and an event to the columns it writes (`None` when it writes nothing). The version column is
 the pipeline's own: it is written after `f`, and only moves forward.

 Everything nondeterministic about the real system is in the choice of actions: which replica
 runs, what a relay happens to read, whether the broker drops a duplicate, which unacked
 message is delivered next and how often, and where a process dies.
 */
module Pipeline {
  import opened Versions
  import opened Wrappers

  type AggId = nat
  type RelayId = nat
  type LaneId = nat

  /**
   One event as it travels. `version` is the aggregate's version after it. Event ids are unique,
   one per committed event, so an id is represented by the event itself: two copies share an id
   exactly when they are equal.
   */
  datatype Envelope<E> = Envelope(agg: AggId, version: int, payload: E)

  /** One message of the stream: what it carries, how often it was delivered, whether it is acked. */
  datatype Message<E> = Message(env: Envelope<E>, delivered: nat, acked: bool)

  /** A relay inside one `drain`: the rows it has read and not yet finished, and whether the
      first of them is published but not yet deleted. */
  datatype Relay<E> = Relay(batch: seq<Envelope<E>>, published: bool)

  datatype Row<D> = Row(version: int, data: D)

  /** The phases of one apply: message in hand, version read under the lock, writes made,
      transaction committed. */
  datatype Lane<D, E> =
    | Idle
    | Received(at: nat, env: Envelope<E>, delivered: nat)
    | Gated(at: nat, env: Envelope<E>, delivered: nat, stored: Applied)
    | Written(at: nat, env: Envelope<E>, delivered: nat, stored: Applied, row: Option<Row<D>>)
    | Finished(at: nat, env: Envelope<E>, decision: Decision)

  datatype State<D, E(==)> = State(
    log: map<AggId, seq<Envelope<E>>>,      // what the owner committed, per aggregate
    outbox: set<Envelope<E>>,
    relays: map<RelayId, Relay<E>>,
    stream: seq<Message<E>>,
    lanes: map<LaneId, Lane<D, E>>,
    rows: map<AggId, Row<D>>,
    effects: map<AggId, seq<int>>           // the versions that changed each row, in order
  )

  datatype Action<E> =
    | Commit(agg: AggId, payload: E)
    | Load(relay: RelayId, batch: seq<Envelope<E>>)
    | Publish(relay: RelayId, dropped: bool)
    | Delete(relay: RelayId)
    | RelayCrash(relay: RelayId)
    | Deliver(lane: LaneId, at: nat)
    | Lock(lane: LaneId)
    | Write(lane: LaneId)
    | CommitTx(lane: LaneId)
    | Settle(lane: LaneId)
    | LaneCrash(lane: LaneId)

  type Projector<!D, !E> = (Option<D>, E) -> Option<D>

  const BATCH: nat := 128

  // ---------------------------------------------------------------- folding

  /** The data columns after one event. */
  ghost function Put<D, E>(f: Projector<D, E>, d: Option<D>, e: E): Option<D> {
    match f(d, e)
    case Some(x) => Some(x)
    case None => d
  }

  /** The data columns after a history, replayed one event at a time. */
  ghost function Fold<D, E>(f: Projector<D, E>, es: seq<Envelope<E>>): Option<D> {
    if es == [] then None else Put(f, Fold(f, es[..|es| - 1]), es[|es| - 1].payload)
  }

  /** A create inserts the row, and applied to the row it inserted it changes nothing. */
  ghost predicate Creates<D, E>(f: Projector<D, E>, e: E) {
    f(None, e).Some? && Put(f, f(None, e), e) == f(None, e)
  }

  /** One apply against a row: the projector's columns, then the version. */
  ghost function ApplyRow<D, E>(f: Projector<D, E>, row: Option<Row<D>>, env: Envelope<E>): Option<Row<D>> {
    match row
    case None =>
      (match f(None, env.payload)
       case None => None
       case Some(d) => Some(Row(SetVersion(0, env.version), d)))
    case Some(r) => Some(Row(SetVersion(r.version, env.version), Put(f, Some(r.data), env.payload).value))
  }

  // ---------------------------------------------------------------- reading a state

  type Log<E> = map<AggId, seq<Envelope<E>>>
  type Rows<D> = map<AggId, Row<D>>

  ghost function LogOf<E>(log: Log<E>, a: AggId): seq<Envelope<E>> {
    if a in log then log[a] else []
  }

  ghost function RowOf<D>(rows: Rows<D>, a: AggId): Option<Row<D>> {
    if a in rows then Some(rows[a]) else None
  }

  ghost function EffectsOf(effects: map<AggId, seq<int>>, a: AggId): seq<int> {
    if a in effects then effects[a] else []
  }

  ghost function VersionOf<D>(row: Option<Row<D>>): Option<int> {
    match row
    case None => None
    case Some(r) => Some(r.version)
  }

  /** The version a projection has stored, 0 for no row. */
  ghost function StoredOf<D>(rows: Rows<D>, a: AggId): int {
    if a in rows then rows[a].version else 0
  }

  ghost predicate InStream<E>(stream: seq<Message<E>>, env: Envelope<E>) {
    exists i :: 0 <= i < |stream| && stream[i].env == env
  }

  /** The gate's verdict for a lane that has read the version. */
  ghost function Verdict<D, E>(lane: Lane<D, E>): Decision
    requires lane.Gated? || lane.Written?
  {
    Decide(lane.stored, lane.env.version, lane.delivered)
  }

  /** `FOR UPDATE` locks a row that exists; a write locks the row it writes. A read that found
      no row holds nothing. */
  ghost predicate Holds<D, E>(lane: Lane<D, E>, a: AggId) {
    && (lane.Gated? || lane.Written?)
    && lane.env.agg == a
    && (lane.stored.At? || (lane.Written? && Verdict(lane) == Apply))
  }

  ghost predicate LockFree<D, E>(lanes: map<LaneId, Lane<D, E>>, l: LaneId, a: AggId) {
    forall k :: k in lanes && k != l ==> !Holds(lanes[k], a)
  }

  // ---------------------------------------------------------------- the steps

  ghost predicate Enabled<D, E>(f: Projector<D, E>, s: State<D, E>, act: Action<E>) {
    match act
    case Commit(a, e) => LogOf(s.log, a) == [] ==> Creates(f, e)
    case Load(r, batch) =>
      && r in s.relays && s.relays[r].batch == [] && |batch| <= BATCH
      && forall i :: 0 <= i < |batch| ==> batch[i] in s.outbox
    case Publish(r, dropped) =>
      && r in s.relays && s.relays[r].batch != [] && !s.relays[r].published
      && (dropped ==> InStream(s.stream, s.relays[r].batch[0]))
    case Delete(r) =>
      r in s.relays && s.relays[r].batch != [] && s.relays[r].published
    case RelayCrash(r) => r in s.relays
    case Deliver(l, at) =>
      l in s.lanes && s.lanes[l].Idle? && at < |s.stream| && !s.stream[at].acked
    case Lock(l) =>
      && l in s.lanes && s.lanes[l].Received?
      && (s.lanes[l].env.agg in s.rows ==> LockFree(s.lanes, l, s.lanes[l].env.agg))
    case Write(l) =>
      && l in s.lanes && s.lanes[l].Gated?
      && (Verdict(s.lanes[l]) == Apply ==> LockFree(s.lanes, l, s.lanes[l].env.agg))
    case CommitTx(l) => l in s.lanes && s.lanes[l].Written?
    case Settle(l) => l in s.lanes && s.lanes[l].Finished? && s.lanes[l].at < |s.stream|
    case LaneCrash(l) => l in s.lanes
  }

  ghost function Do<D, E>(f: Projector<D, E>, s: State<D, E>, act: Action<E>): State<D, E>
    requires Enabled(f, s, act)
  {
    match act
    case Commit(a, e) =>
      var env := Envelope(a, |LogOf(s.log, a)| + 1, e);
      s.(log := s.log[a := LogOf(s.log, a) + [env]], outbox := s.outbox + {env})
    case Load(r, batch) => s.(relays := s.relays[r := Relay(batch, false)])
    case Publish(r, dropped) =>
      var env := s.relays[r].batch[0];
      s.(relays := s.relays[r := s.relays[r].(published := true)],
         stream := if dropped then s.stream else s.stream + [Message(env, 0, false)])
    case Delete(r) =>
      s.(relays := s.relays[r := Relay(s.relays[r].batch[1..], false)],
         outbox := s.outbox - {s.relays[r].batch[0]})
    case RelayCrash(r) => s.(relays := s.relays[r := Relay([], false)])
    case Deliver(l, at) =>
      var m := s.stream[at];
      s.(stream := s.stream[at := m.(delivered := m.delivered + 1)],
         lanes := s.lanes[l := Received(at, m.env, m.delivered + 1)])
    case Lock(l) =>
      var lane := s.lanes[l];
      s.(lanes := s.lanes[l := Gated(lane.at, lane.env, lane.delivered, AppliedOf(VersionOf(RowOf(s.rows, lane.env.agg))))])
    case Write(l) =>
      var lane := s.lanes[l];
      s.(lanes := s.lanes[l := Written(lane.at, lane.env, lane.delivered, lane.stored,
           if Verdict(lane) == Apply then ApplyRow(f, RowOf(s.rows, lane.env.agg), lane.env) else None)])
    case CommitTx(l) =>
      var lane := s.lanes[l];
      var a := lane.env.agg;
      var done := s.(lanes := s.lanes[l := Finished(lane.at, lane.env, Verdict(lane))]);
      if lane.row.None? || lane.row == RowOf(s.rows, a) then done
      else done.(rows := s.rows[a := lane.row.value], effects := s.effects[a := EffectsOf(s.effects, a) + [lane.env.version]])
    case Settle(l) =>
      var lane := s.lanes[l];
      s.(lanes := s.lanes[l := Idle],
         stream := if lane.decision == Park then s.stream
                   else s.stream[lane.at := s.stream[lane.at].(acked := true)])
    case LaneCrash(l) => s.(lanes := s.lanes[l := Idle])
  }

  /** A write decided on "no row" that lands on a row two or more versions old. */
  ghost predicate Stale<D, E>(s: State<D, E>, act: Action<E>) {
    && act.Write? && act.lane in s.lanes && s.lanes[act.lane].Gated?
    && Verdict(s.lanes[act.lane]) == Apply
    && s.lanes[act.lane].stored.Pending?
    && StoredOf(s.rows, s.lanes[act.lane].env.agg) > 1
  }

  /** The escape hatch: an apply over a gap of aggregate `a`. */
  ghost predicate Forced<D, E>(s: State<D, E>, act: Action<E>, a: AggId) {
    && act.Write? && act.lane in s.lanes && s.lanes[act.lane].Gated?
    && s.lanes[act.lane].env.agg == a
    && Verdict(s.lanes[act.lane]) == Apply
    && IsGap(s.lanes[act.lane].stored, s.lanes[act.lane].env.version)
  }

  // ---------------------------------------------------------------- runs

  ghost predicate Init<D, E>(s: State<D, E>) {
    && s.log == map[] && s.outbox == {} && s.stream == []
    && s.rows == map[] && s.effects == map[]
    && (forall r :: r in s.relays ==> s.relays[r] == Relay([], false))
    && (forall l :: l in s.lanes ==> s.lanes[l] == Idle)
  }

  /** A run: every action is enabled, and no write decided on "no row" is stale. */
  ghost predicate Run<D, E>(f: Projector<D, E>, s: State<D, E>, acts: seq<Action<E>>)
    decreases |acts|
  {
    acts == [] || (Enabled(f, s, acts[0]) && !Stale(s, acts[0]) && Run(f, Do(f, s, acts[0]), acts[1..]))
  }

  ghost function After<D, E>(f: Projector<D, E>, s: State<D, E>, acts: seq<Action<E>>): State<D, E>
    requires Run(f, s, acts)
    decreases |acts|
  {
    if acts == [] then s else After(f, Do(f, s, acts[0]), acts[1..])
  }

  /** No step of the run forces a gap of aggregate `a`. */
  ghost predicate Unforced<D, E>(f: Projector<D, E>, s: State<D, E>, acts: seq<Action<E>>, a: AggId)
    requires Run(f, s, acts)
    decreases |acts|
  {
    acts == [] || (!Forced(s, acts[0], a) && Unforced(f, Do(f, s, acts[0]), acts[1..], a))
  }

  lemma {:induction false} RunCat<D, E>(f: Projector<D, E>, s: State<D, E>, first: seq<Action<E>>, second: seq<Action<E>>)
    requires Run(f, s, first) && Run(f, After(f, s, first), second)
    ensures Run(f, s, first + second) && After(f, s, first + second) == After(f, After(f, s, first), second)
    decreases |first|
  {
    if first == [] {
      assert first + second == second;
    } else {
      RunCat(f, Do(f, s, first[0]), first[1..], second);
      assert (first + second)[1..] == first[1..] + second;
    }
  }

  lemma RunTwo<D, E>(f: Projector<D, E>, s: State<D, E>, one: Action<E>, two: Action<E>)
    requires Enabled(f, s, one) && !Stale(s, one)
    requires Enabled(f, Do(f, s, one), two) && !Stale(Do(f, s, one), two)
    ensures Run(f, s, [one, two]) && After(f, s, [one, two]) == Do(f, Do(f, s, one), two)
  {
    RunOne(f, s, one);
    RunOne(f, Do(f, s, one), two);
    RunCat(f, s, [one], [two]);
    assert [one] + [two] == [one, two];
  }

  lemma RunOne<D, E>(f: Projector<D, E>, s: State<D, E>, act: Action<E>)
    requires Enabled(f, s, act) && !Stale(s, act)
    ensures Run(f, s, [act]) && After(f, s, [act]) == Do(f, s, act)
  {
    assert [act][1..] == [];
    assert Run(f, Do(f, s, act), []);
  }

  /** Two steps, then the rest. */
  lemma RunThen<D, E>(f: Projector<D, E>, s: State<D, E>, one: Action<E>, two: Action<E>, t: State<D, E>, rest: seq<Action<E>>)
    requires Enabled(f, s, one) && !Stale(s, one)
    requires Enabled(f, Do(f, s, one), two) && !Stale(Do(f, s, one), two)
    requires Do(f, Do(f, s, one), two) == t && Run(f, t, rest)
    ensures Run(f, s, [one, two] + rest) && After(f, s, [one, two] + rest) == After(f, t, rest)
  {
    RunTwo(f, s, one, two);
    RunCat(f, s, [one, two], rest);
  }

  /** A run can be looked at from any point of it. */
  lemma {:induction false} RunSplit<D, E>(f: Projector<D, E>, s: State<D, E>, acts: seq<Action<E>>, n: nat, a: AggId)
    requires Run(f, s, acts) && n <= |acts|
    ensures Run(f, s, acts[..n]) && Run(f, After(f, s, acts[..n]), acts[n..])
    ensures After(f, After(f, s, acts[..n]), acts[n..]) == After(f, s, acts)
    ensures Unforced(f, s, acts, a) ==> Unforced(f, s, acts[..n], a)
    decreases n
  {
    if n == 0 {
      assert acts[..0] == [] && acts[0..] == acts;
    } else {
      var t := Do(f, s, acts[0]);
      RunSplit(f, t, acts[1..], n - 1, a);
      assert acts[..n] == [acts[0]] + acts[1..][..n - 1];
      assert acts[..n][1..] == acts[1..][..n - 1];
      assert acts[n..] == acts[1..][n - 1..];
    }
  }
}
