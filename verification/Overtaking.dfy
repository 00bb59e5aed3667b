/**
 What the escape hatch can cost a booking mirror, told by the steps of a run: an event past the second
 overtakes it when the hatch applies it to a row that is still at version 1.
 */
module Overtaking {
  import opened Absorption
  import opened Bookings
  import opened Mirror
  import opened PipelineExact
  import opened PipelineSafety
  import opened Projection
  import opened Versions
  import opened Wrappers
  import P = Pipeline

  // ---------------------------------------------------------------- for any projector

  /** A lane commits an event past the second onto a row of `a` at version 1. */
  ghost predicate Overtakes<D, E>(s: P.State<D, E>, act: P.Action<E>, a: P.AggId) {
    && act.CommitTx? && act.lane in s.lanes && s.lanes[act.lane].Written?
    && s.lanes[act.lane].env.agg == a && s.lanes[act.lane].env.version > 2 && s.lanes[act.lane].row.Some?
    && a in s.rows && s.rows[a].version == 1
  }

  ghost predicate Overtaken<D, E>(f: P.Projector<D, E>, s: P.State<D, E>, acts: seq<P.Action<E>>, a: P.AggId)
    requires P.Run(f, s, acts)
    decreases |acts|
  {
    acts != [] && (Overtakes(s, acts[0], a) || Overtaken(f, P.Do(f, s, acts[0]), acts[1..], a))
  }

  /** Only the hatch does it: the event was over a gap when the lane read the version, and its
      deliveries were used up. */
  lemma OvertakesByTheHatch<D, E>(f: P.Projector<D, E>, s: P.State<D, E>, act: P.Action<E>, a: P.AggId)
    requires Inv(f, s) && Overtakes(s, act, a)
    ensures var lane := s.lanes[act.lane];
      IsGap(lane.stored, lane.env.version) && lane.delivered >= MAX_GAP_WAIT && P.Verdict(lane) == Apply
  {
    assert LaneOK(f, s.stream, s.rows, s.lanes[act.lane]);
  }

  /** No event but the first inserts a row. */
  ghost predicate OnlyFirstCreates<D, E>(f: P.Projector<D, E>, es: seq<P.Envelope<E>>) {
    forall i :: 1 <= i < |es| ==> f(None, es[i].payload).None?
  }

  lemma YoungEffects<D, E>(f: P.Projector<D, E>, s: P.State<D, E>, a: P.AggId)
    requires Inv(f, s) && FoldsOK(f, s) && P.StoredOf(s.rows, a) <= 1
    ensures P.EffectsOf(s.effects, a) == if a in s.rows then [1] else []
  {
    var vs := P.EffectsOf(s.effects, a);
    assert EffectOK(P.RowOf(s.rows, a), vs);
    assert FoldOK(f, P.LogOf(s.log, a), P.RowOf(s.rows, a), vs);
    if a in s.rows {
      assert vs[|vs| - 1] <= 1;
    }
  }

  lemma YoungCommit<D, E>(f: P.Projector<D, E>, s: P.State<D, E>, l: P.LaneId, a: P.AggId)
    requires Inv(f, s) && FoldsOK(f, s) && P.Enabled(f, s, P.CommitTx(l)) && s.lanes[l].env.agg == a
    requires P.StoredOf(s.rows, a) <= 1 && OnlyFirstCreates(f, P.LogOf(s.log, a))
    ensures YoungMoves(s, P.CommitTx(l), P.Do(f, s, P.CommitTx(l)), a)
  {
    var t := P.Do(f, s, P.CommitTx(l));
    YoungEffects(f, s, a);
    CommitTxIs(f, s, l);
    if s.lanes[l].row.Some? {
      CommitApplies(f, s, l);
      if s.lanes[l].row != P.RowOf(s.rows, a) {
        Step(f, s, P.CommitTx(l));
        FoldStepAt(f, s, P.CommitTx(l), a);
        Second(f, P.LogOf(t.log, a), P.RowOf(t.rows, a), P.EffectsOf(s.effects, a), s.lanes[l].env.version);
      }
    }
  }

  lemma CommitTxIs<D, E>(f: P.Projector<D, E>, s: P.State<D, E>, l: P.LaneId)
    requires P.Enabled(f, s, P.CommitTx(l))
    ensures var t, lane := P.Do(f, s, P.CommitTx(l)), s.lanes[l];
      && t.log == s.log
      && (lane.row.None? || lane.row == P.RowOf(s.rows, lane.env.agg) ==> t.rows == s.rows && t.effects == s.effects)
      && (lane.row.Some? && lane.row != P.RowOf(s.rows, lane.env.agg) ==>
            && P.RowOf(t.rows, lane.env.agg) == lane.row
            && P.EffectsOf(t.effects, lane.env.agg) == P.EffectsOf(s.effects, lane.env.agg) + [lane.env.version])
  {
  }

  /** The second effect on a row, or the first. */
  lemma Second<D, E>(f: P.Projector<D, E>, es: seq<P.Envelope<E>>, row: Option<P.Row<D>>, vs: seq<int>, v: int)
    requires OnlyFirstCreates(f, es) && FoldOK(f, es, row, vs + [v]) && (vs == [] || vs == [1])
    requires row.Some? && row.value.version == v && Increasing(vs + [v])
    ensures vs == [] ==> v == 1
    ensures vs == [1] ==> v > 1
  {
    assert (vs + [v])[|vs|] == v;
  }

  /** What a step makes of a row that is absent or at version 1: it stays so, or its second event takes
      effect, or a later one overtakes that. */
  ghost predicate YoungMoves<D, E>(s: P.State<D, E>, act: P.Action<E>, t: P.State<D, E>, a: P.AggId) {
    var vs := P.EffectsOf(t.effects, a);
    if Overtakes(s, act, a) then P.StoredOf(t.rows, a) > 2 && |vs| == 2 && vs[0] == 1 && vs[1] > 2
    else P.StoredOf(t.rows, a) > 1 ==> vs == [1, 2]
  }

  lemma YoungStep<D, E>(f: P.Projector<D, E>, s: P.State<D, E>, act: P.Action<E>, a: P.AggId)
    requires Inv(f, s) && FoldsOK(f, s) && P.Enabled(f, s, act)
    requires P.StoredOf(s.rows, a) <= 1 && OnlyFirstCreates(f, P.LogOf(s.log, a))
    ensures YoungMoves(s, act, P.Do(f, s, act), a)
  {
    if act.CommitTx? && s.lanes[act.lane].env.agg == a {
      YoungCommit(f, s, act.lane, a);
    } else {
      NoMove(f, s, act, a);
    }
  }

  lemma NoMove<D, E>(f: P.Projector<D, E>, s: P.State<D, E>, act: P.Action<E>, a: P.AggId)
    requires P.Enabled(f, s, act) && !(act.CommitTx? && s.lanes[act.lane].env.agg == a)
    ensures P.StoredOf(P.Do(f, s, act).rows, a) == P.StoredOf(s.rows, a)
  {
  }

  lemma {:induction false} OldNotOvertaken<D, E>(f: P.Projector<D, E>, s: P.State<D, E>, acts: seq<P.Action<E>>, a: P.AggId)
    requires Inv(f, s) && P.Run(f, s, acts) && P.StoredOf(s.rows, a) > 1
    ensures !Overtaken(f, s, acts, a)
    decreases |acts|
  {
    if acts != [] {
      StepMonotone(f, s, acts[0], a);
      Step(f, s, acts[0]);
      OldNotOvertaken(f, P.Do(f, s, acts[0]), acts[1..], a);
    }
  }

  lemma PrefixCreates<D, E>(f: P.Projector<D, E>, es: seq<P.Envelope<E>>, all: seq<P.Envelope<E>>)
    requires es <= all && OnlyFirstCreates(f, all)
    ensures OnlyFirstCreates(f, es)
  {
  }

  /** A row past version 1 had its second event take effect if and only if no later event overtook it. */
  lemma {:induction false} SecondTookIff<D, E>(f: P.Projector<D, E>, s: P.State<D, E>, acts: seq<P.Action<E>>, a: P.AggId)
    requires Inv(f, s) && FoldsOK(f, s) && P.Run(f, s, acts)
    requires P.StoredOf(s.rows, a) <= 1 && OnlyFirstCreates(f, P.LogOf(P.After(f, s, acts).log, a))
    ensures var t := P.After(f, s, acts);
      if P.StoredOf(t.rows, a) > 1 then 2 in P.EffectsOf(t.effects, a) <==> !Overtaken(f, s, acts, a)
      else !Overtaken(f, s, acts, a)
    decreases |acts|
  {
    if acts != [] {
      var next, rest := P.Do(f, s, acts[0]), acts[1..];
      Step(f, s, acts[0]);
      FoldStep(f, s, acts[0]);
      RunMonotone(f, s, acts, a);
      PrefixCreates(f, P.LogOf(s.log, a), P.LogOf(P.After(f, s, acts).log, a));
      YoungStep(f, s, acts[0], a);
      if P.StoredOf(next.rows, a) <= 1 {
        SecondTookIff(f, next, rest, a);
      } else {
        OldNotOvertaken(f, next, rest, a);
        SecondStays(f, next, rest, a);
      }
    }
  }

  lemma SecondStays<D, E>(f: P.Projector<D, E>, s: P.State<D, E>, acts: seq<P.Action<E>>, a: P.AggId)
    requires Inv(f, s) && P.Run(f, s, acts) && P.StoredOf(s.rows, a) > 1
    requires |P.EffectsOf(s.effects, a)| == 2 && P.EffectsOf(s.effects, a)[0] == 1
    ensures P.StoredOf(P.After(f, s, acts).rows, a) > 1
    ensures 2 in P.EffectsOf(P.After(f, s, acts).effects, a) <==> P.EffectsOf(s.effects, a)[1] == 2
  {
    RunMonotone(f, s, acts, a);
    RunInv(f, s, acts);
    var t := P.After(f, s, acts);
    assert EffectOK(P.RowOf(t.rows, a), P.EffectsOf(t.effects, a));
    assert P.EffectsOf(t.effects, a)[1] == P.EffectsOf(s.effects, a)[1];
    SecondIn(P.EffectsOf(t.effects, a));
  }

  lemma SecondIn(vs: seq<int>)
    requires Increasing(vs) && |vs| >= 2 && vs[0] == 1
    ensures 2 in vs <==> vs[1] == 2
  {
  }

  // ---------------------------------------------------------------- for the booking mirror

  /**
   A mirror that has reached the event that ended its booking is ended if and only if no event
   overtook the booking's second one: the condition of `ReachedEndsIff`, told by the steps of the run.
   */
  lemma EndsUnlessOvertaken(s: State, acts: seq<Action>, a: Id, v: nat)
    requires P.Init(s) && P.Run(MirrorStep, s, acts)
    requires var t := P.After(MirrorStep, s, acts);
      && Legal(a, P.LogOf(t.log, a))
      && 1 <= v <= |P.LogOf(t.log, a)| && Ends(P.LogOf(t.log, a)[v - 1].payload) && v <= P.StoredOf(t.rows, a)
    ensures EndedIn(P.After(MirrorStep, s, acts).rows, a) <==> !Overtaken(MirrorStep, s, acts, a)
    ensures 2 in P.EffectsOf(P.After(MirrorStep, s, acts).effects, a) <==> !Overtaken(MirrorStep, s, acts, a)
  {
    var t := P.After(MirrorStep, s, acts);
    ReachedEndsIff(s, acts, a, v);
    InitInv(MirrorStep, s);
    InitFolds(MirrorStep, s);
    BookingsCreateFirst(a, P.LogOf(t.log, a));
    CreatedCreates(a, P.LogOf(t.log, a));
    SecondTookIff(MirrorStep, s, acts, a);
  }

  lemma BookingsCreateFirst(a: Id, es: seq<Envelope>)
    requires Legal(a, es)
    ensures OnlyFirstCreates(MirrorStep, es)
  {
    forall i: nat | 1 <= i < |es| ensures MirrorStep(None, es[i].payload).None? {
      CreatedOnlyFirst(a, es, i);
    }
  }

  // ---------------------------------------------------------------- two runs that hide their end

  /** One event, from the owner's commit to the stream, by relay 0. */
  function Emit<E>(a: P.AggId, e: E, env: P.Envelope<E>): seq<P.Action<E>> {
    [P.Commit(a, e), P.Load(0, [env])] + [P.Publish(0, false), P.Delete(0)]
  }

  ghost predicate Rested<D, E>(s: P.State<D, E>) {
    s.outbox == {} && s.relays == map[0 := P.Relay([], false)] && s.lanes == map[0 := P.Idle]
  }

  lemma EmitRuns<D, E>(f: P.Projector<D, E>, s: P.State<D, E>, a: P.AggId, e: E)
    requires Rested(s) && (P.LogOf(s.log, a) == [] ==> P.Creates(f, e))
    ensures var env := P.Envelope(a, |P.LogOf(s.log, a)| + 1, e);
      && P.Run(f, s, Emit(a, e, env))
      && P.After(f, s, Emit(a, e, env)) ==
         s.(log := s.log[a := P.LogOf(s.log, a) + [env]], stream := s.stream + [P.Message(env, 0, false)])
  {
    var env := P.Envelope(a, |P.LogOf(s.log, a)| + 1, e);
    EmitLoads(f, s, a, e, env);
    EmitShips(f, P.After(f, s, [P.Commit(a, e), P.Load(0, [env])]), env);
    P.RunCat(f, s, [P.Commit(a, e), P.Load(0, [env])], [P.Publish(0, false), P.Delete(0)]);
  }

  lemma EmitLoads<D, E>(f: P.Projector<D, E>, s: P.State<D, E>, a: P.AggId, e: E, env: P.Envelope<E>)
    requires Rested(s) && (P.LogOf(s.log, a) == [] ==> P.Creates(f, e)) && env == P.Envelope(a, |P.LogOf(s.log, a)| + 1, e)
    ensures P.Run(f, s, [P.Commit(a, e), P.Load(0, [env])])
    ensures P.After(f, s, [P.Commit(a, e), P.Load(0, [env])]) ==
      s.(log := s.log[a := P.LogOf(s.log, a) + [env]], outbox := {env}, relays := map[0 := P.Relay([env], false)])
  {
    var s1 := s.(log := s.log[a := P.LogOf(s.log, a) + [env]], outbox := {env});
    assert P.Do(f, s, P.Commit(a, e)) == s1;
    assert P.Enabled(f, s1, P.Load(0, [env]));
    assert P.Do(f, s1, P.Load(0, [env])).relays == map[0 := P.Relay([env], false)];
    P.RunTwo(f, s, P.Commit(a, e), P.Load(0, [env]));
  }

  lemma EmitShips<D, E>(f: P.Projector<D, E>, s: P.State<D, E>, env: P.Envelope<E>)
    requires s.outbox == {env} && s.relays == map[0 := P.Relay([env], false)]
    ensures P.Run(f, s, [P.Publish(0, false), P.Delete(0)])
    ensures P.After(f, s, [P.Publish(0, false), P.Delete(0)]) ==
      s.(outbox := {}, relays := map[0 := P.Relay([], false)], stream := s.stream + [P.Message(env, 0, false)])
  {
    var s1 := s.(relays := map[0 := P.Relay([env], true)], stream := s.stream + [P.Message(env, 0, false)]);
    assert P.Do(f, s, P.Publish(0, false)).relays == s1.relays;
    assert P.Do(f, s, P.Publish(0, false)) == s1;
    assert [env][1..] == [];
    assert P.Do(f, s1, P.Delete(0)).relays == map[0 := P.Relay([], false)];
    P.RunTwo(f, s, P.Publish(0, false), P.Delete(0));
  }

  /** An empty system: one relay, one lane. */
  function Empty(): State {
    P.State(map[], {}, map[0 := P.Relay([], false)], [], map[0 := P.Idle], map[], map[])
  }

  function Fresh(es: seq<Envelope>): seq<P.Message<BookingEvent>> {
    seq(|es|, i requires 0 <= i < |es| => P.Message(es[i], 0, false))
  }

  /** A history in the stream, nothing of it delivered yet. */
  function Published(id: Id, payloads: seq<BookingEvent>): State {
    Empty().(log := map[id := Told(id, payloads)], stream := Fresh(Told(id, payloads)))
  }

  lemma {:induction false} Publishing(id: Id, payloads: seq<BookingEvent>) returns (acts: seq<Action>)
    requires payloads != [] && payloads[0].BookingCreated?
    ensures P.Run(MirrorStep, Empty(), acts) && P.After(MirrorStep, Empty(), acts) == Published(id, payloads)
    decreases |payloads|
  {
    var front, last := payloads[..|payloads| - 1], payloads[|payloads| - 1];
    var env := P.Envelope(id, |payloads|, last);
    assert Told(id, payloads) == Told(id, front) + [env];
    assert Fresh(Told(id, payloads)) == Fresh(Told(id, front)) + [P.Message(env, 0, false)];
    if front == [] {
      EmitRuns(MirrorStep, Empty(), id, last);
      assert Told(id, front) == [] && Fresh(Told(id, front)) == [];
      acts := Emit(id, last, env);
    } else {
      acts := Publishing(id, front);
      EmitRuns(MirrorStep, Published(id, front), id, last);
      P.RunCat(MirrorStep, Empty(), acts, Emit(id, last, env));
      acts := acts + Emit(id, last, env);
    }
  }

  function Times(i: nat, n: nat): (order: seq<nat>)
    ensures |order| == n && forall k :: 0 <= k < n ==> order[k] == i
  {
    seq(n, _ => i)
  }

  /** A gap is parked on each of its first deliveries. */
  lemma {:induction false} Parked<D, E>(f: P.Projector<D, E>, stream: seq<P.Message<E>>, rows: P.Rows<D>, i: nat, n: nat)
    requires i < |stream| && stream[i].delivered == 0 && !stream[i].acked && n < MAX_GAP_WAIT
    requires IsGap(AppliedOf(P.VersionOf(P.RowOf(rows, stream[i].env.agg))), stream[i].env.version)
    ensures ServeAll(f, stream, rows, Times(i, n)) == (stream[i := P.Message(stream[i].env, n, false)], rows)
  {
    if n == 0 {
      assert stream[i := stream[i]] == stream;
    } else {
      Parked(f, stream, rows, i, n - 1);
      ServeOnce(f, stream, rows, i, n);
      var before := stream[i := P.Message(stream[i].env, n - 1, false)];
      assert Served(before, i, Park) == stream[i := P.Message(stream[i].env, n, false)];
    }
  }

  /** One more delivery applies it over the gap. */
  lemma ForcedAtLast<D, E>(f: P.Projector<D, E>, stream: seq<P.Message<E>>, rows: P.Rows<D>, i: nat)
    requires i < |stream| && stream[i].delivered == 0 && !stream[i].acked
    requires IsGap(AppliedOf(P.VersionOf(P.RowOf(rows, stream[i].env.agg))), stream[i].env.version)
    ensures ServeAll(f, stream, rows, Times(i, MAX_GAP_WAIT)) ==
      (stream[i := P.Message(stream[i].env, MAX_GAP_WAIT, true)], Gate(f, rows, stream[i].env, MAX_GAP_WAIT).1)
  {
    Parked(f, stream, rows, i, MAX_GAP_WAIT - 1);
    ServeOnce(f, stream, rows, i, MAX_GAP_WAIT);
    var before := stream[i := P.Message(stream[i].env, MAX_GAP_WAIT - 1, false)];
    assert Served(before, i, Apply) == stream[i := P.Message(stream[i].env, MAX_GAP_WAIT, true)];
  }

  /** The last of several deliveries of one message. */
  lemma ServeOnce<D, E>(f: P.Projector<D, E>, stream: seq<P.Message<E>>, rows: P.Rows<D>, i: nat, n: nat)
    requires i < |stream| && n > 0
    ensures var (before, held) := ServeAll(f, stream, rows, Times(i, n - 1));
      ServeAll(f, stream, rows, Times(i, n)) ==
        if before[i].acked then (before, held)
        else
          var gate := Gate(f, held, before[i].env, before[i].delivered + 1);
          (Served(before, i, gate.0), gate.1)
  {
    assert Times(i, n)[..n - 1] == Times(i, n - 1);
  }

  function CreatedOnly(b: NewBooking): P.Rows<BookingMirror> {
    map[b.bookingId := P.Row(1, MirrorCreated(b))]
  }

  lemma CreatedServed(b: NewBooking, es: seq<Envelope>)
    requires es != [] && es[0] == P.Envelope(b.bookingId, 1, BookingCreated(b))
    ensures ServeAll(MirrorStep, Fresh(es), map[], [0]) == (Fresh(es)[0 := P.Message(es[0], 1, true)], CreatedOnly(b))
  {
    assert [0][..0] == [];
    assert ServeAll(MirrorStep, Fresh(es), map[], []) == (Fresh(es), map[]);
  }

  /** The creation is delivered, the confirmation is late, and the third event is delivered until the
      hatch opens. */
  lemma ThirdForced(b: NewBooking, es: seq<Envelope>)
    requires |es| >= 3 && es[0] == P.Envelope(b.bookingId, 1, BookingCreated(b)) && es[2].agg == b.bookingId && es[2].version == 3
    ensures InStreamRange([0] + Times(2, MAX_GAP_WAIT), |es|)
    ensures ServeAll(MirrorStep, Fresh(es), map[], [0] + Times(2, MAX_GAP_WAIT)) ==
      (Fresh(es)[0 := P.Message(es[0], 1, true)][2 := P.Message(es[2], MAX_GAP_WAIT, true)],
       Gate(MirrorStep, CreatedOnly(b), es[2], MAX_GAP_WAIT).1)
  {
    CreatedServed(b, es);
    ServeAllCat(MirrorStep, Fresh(es), map[], [0], Times(2, MAX_GAP_WAIT));
    ForcedAtLast(MirrorStep, Fresh(es)[0 := P.Message(es[0], 1, true)], CreatedOnly(b), 2);
  }

  /** From an empty system, over the given deliveries. */
  lemma Delivered(id: Id, payloads: seq<BookingEvent>, order: seq<nat>) returns (acts: seq<Action>)
    requires payloads != [] && payloads[0].BookingCreated? && InStreamRange(order, |payloads|)
    ensures P.Init(Empty()) && P.Run(MirrorStep, Empty(), acts)
    ensures var t := P.After(MirrorStep, Empty(), acts);
      P.LogOf(t.log, id) == Told(id, payloads) && t.rows == ServeAll(MirrorStep, Fresh(Told(id, payloads)), map[], order).1
  {
    var first := Publishing(id, payloads);
    var second := LaneIsARun(MirrorStep, Published(id, payloads), 0, order);
    P.RunCat(MirrorStep, Empty(), first, second);
    acts := first + second;
  }

  /** The first of the two histories that hide their end, as a run: the cancellation overtakes. */
  lemma CancelOvertakes(b: NewBooking, who: CancelReason) returns (acts: seq<Action>)
    ensures var es := Told(b.bookingId, [BookingCreated(b), BookingConfirmed, BookingCancelled(who)]);
      && P.Init(Empty()) && P.Run(MirrorStep, Empty(), acts)
      && P.LogOf(P.After(MirrorStep, Empty(), acts).log, b.bookingId) == es && Legal(b.bookingId, es)
      && P.RowOf(P.After(MirrorStep, Empty(), acts).rows, b.bookingId) == Some(P.Row(3, MirrorCreated(b)))
      && Overtaken(MirrorStep, Empty(), acts, b.bookingId)
  {
    var payloads := [BookingCreated(b), BookingConfirmed, BookingCancelled(who)];
    ForcedCancelHidesTheEnd(b, who);
    ThirdForced(b, Told(b.bookingId, payloads));
    acts := Delivered(b.bookingId, payloads, [0] + Times(2, MAX_GAP_WAIT));
    EndsUnlessOvertaken(Empty(), acts, b.bookingId, 3);
  }

  /** The second: a rating overtakes, and the cancellation is then the next event. */
  lemma RatingOvertakes(b: NewBooking, n: int, who: CancelReason) returns (acts: seq<Action>)
    ensures var es := Told(b.bookingId, [BookingCreated(b), BookingConfirmed, BookingRated(n), BookingCancelled(who)]);
      && P.Init(Empty()) && P.Run(MirrorStep, Empty(), acts)
      && P.LogOf(P.After(MirrorStep, Empty(), acts).log, b.bookingId) == es && Legal(b.bookingId, es)
      && P.RowOf(P.After(MirrorStep, Empty(), acts).rows, b.bookingId) == Some(P.Row(4, MirrorCreated(b)))
      && Overtaken(MirrorStep, Empty(), acts, b.bookingId)
  {
    var payloads := [BookingCreated(b), BookingConfirmed, BookingRated(n), BookingCancelled(who)];
    var es := Told(b.bookingId, payloads);
    ForcedRatingHidesTheEnd(b, n, who);
    ThirdForced(b, es);
    var order := [0] + Times(2, MAX_GAP_WAIT);
    assert (order + [3])[..|order|] == order;
    acts := Delivered(b.bookingId, payloads, order + [3]);
    EndsUnlessOvertaken(Empty(), acts, b.bookingId, 4);
  }

  // ---------------------------------------------------------------- steps beside each other

  /** A forced gap is one aggregate's own. */
  lemma ForcedIsOwn<D, E>(s: P.State<D, E>, act: P.Action<E>, a: P.AggId, b: P.AggId)
    requires P.Forced(s, act, a) && a != b
    ensures !P.Forced(s, act, b)
  {
  }

  /** A lane may crash at any point of an apply, and its message, if it was not acknowledged, can be
      delivered again, on that lane or on any idle one; nothing else has changed. */
  lemma CrashLosesNothing<D, E>(f: P.Projector<D, E>, s: P.State<D, E>, l: P.LaneId)
    requires Inv(f, s) && l in s.lanes && !s.lanes[l].Idle?
    ensures P.Enabled(f, s, P.LaneCrash(l))
    ensures var t := P.Do(f, s, P.LaneCrash(l));
      && t.log == s.log && t.outbox == s.outbox && t.relays == s.relays && t.stream == s.stream && t.rows == s.rows
      && s.lanes[l].at < |t.stream| && t.stream[s.lanes[l].at].env == s.lanes[l].env
      && (!t.stream[s.lanes[l].at].acked ==> P.Enabled(f, t, P.Deliver(l, s.lanes[l].at)))
  {
    assert LaneOK(f, s.stream, s.rows, s.lanes[l]);
  }

  /** The lane's steps up to its write. */
  function Begin<E>(l: P.LaneId): seq<P.Action<E>> {
    [P.Deliver(l, 0), P.Lock(l)]
  }

  function Finish<E>(l: P.LaneId): seq<P.Action<E>> {
    [P.Write(l), P.CommitTx(l)]
  }

  lemma OneBegins<D, E>(f: P.Projector<D, E>, s: P.State<D, E>, l: P.LaneId)
    requires l in s.lanes && s.lanes[l].Idle? && s.rows == map[] && |s.stream| > 0 && !s.stream[0].acked
    ensures P.Run(f, s, Begin(l))
    ensures P.After(f, s, Begin(l)) ==
      s.(stream := s.stream[0 := s.stream[0].(delivered := s.stream[0].delivered + 1)],
         lanes := s.lanes[l := P.Gated(0, s.stream[0].env, s.stream[0].delivered + 1, Pending)])
  {
    var s1 := P.Do(f, s, P.Deliver(l, 0));
    P.RunTwo(f, s, P.Deliver(l, 0), P.Lock(l));
    assert P.Do(f, s1, P.Lock(l)).lanes == s.lanes[l := P.Gated(0, s.stream[0].env, s.stream[0].delivered + 1, Pending)];
  }

  lemma OneFinishes<D, E>(f: P.Projector<D, E>, s: P.State<D, E>, l: P.LaneId, env: P.Envelope<E>)
    requires l in s.lanes && s.lanes[l].Gated? && s.lanes[l].env == env && s.lanes[l].stored == Pending
    requires env.version == 1 && P.Creates(f, env.payload) && P.LockFree(s.lanes, l, env.agg)
    requires s.rows == map[] || s.rows == map[env.agg := P.Row(1, f(None, env.payload).value)]
    ensures P.Run(f, s, Finish(l))
    ensures var t := P.After(f, s, Finish(l));
      && t.rows == map[env.agg := P.Row(1, f(None, env.payload).value)]
      && t.lanes == s.lanes[l := P.Finished(s.lanes[l].at, env, Apply)]
  {
    var s1 := P.Do(f, s, P.Write(l));
    P.RunTwo(f, s, P.Write(l), P.CommitTx(l));
    assert s1.lanes[l].row == Some(P.Row(1, f(None, env.payload).value));
    assert P.Do(f, s1, P.CommitTx(l)).lanes == s.lanes[l := P.Finished(s.lanes[l].at, env, Apply)];
  }

  /** Two overlapping deliveries of a create, both of which read no row, are a run: the second write lands
      on the row the first one inserted, and changes nothing. */
  lemma CreatesOverlap<D, E>(f: P.Projector<D, E>, s: P.State<D, E>, env: P.Envelope<E>)
    requires s.rows == map[] && s.stream == [P.Message(env, 0, false)] && s.lanes == map[0 := P.Idle, 1 := P.Idle]
    requires env.version == 1 && P.Creates(f, env.payload)
    ensures var acts := (Begin(0) + Begin(1)) + (Finish(0) + Finish(1));
      P.Run(f, s, acts) && P.After(f, s, acts).rows == map[env.agg := P.Row(1, f(None, env.payload).value)]
  {
    OneBegins(f, s, 0);
    var s1 := P.After(f, s, Begin(0));
    OneBegins(f, s1, 1);
    var s2 := P.After(f, s1, Begin(1));
    OneFinishes(f, s2, 0, env);
    var s3 := P.After(f, s2, Finish(0));
    OneFinishes(f, s3, 1, env);
    P.RunCat(f, s, Begin(0), Begin(1));
    P.RunCat(f, s2, Finish(0), Finish(1));
    P.RunCat(f, s, Begin(0) + Begin(1), Finish(0) + Finish(1));
  }
}
