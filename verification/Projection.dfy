/**
 One replica's side of a projection, as the objects that do the work: the gated transaction, the
 lane that acknowledges, the poll that waits for a version, and their place in the step system.
 */
module Projection {
  import opened Pipeline
  import opened PipelineExact
  import opened PipelineSafety
  import opened Versions
  import opened Wrappers

  /** A projection's database and the durable consumer it shares with the other replicas. */
  class Replica<D, E> {
    const f: Projector<D, E>
    var rows: map<AggId, Row<D>>
    var stream: seq<Message<E>>

    constructor (f: Projector<D, E>, stream: seq<Message<E>>)
      ensures this.f == f && this.rows == map[] && this.stream == stream
    {
      this.f, this.rows, this.stream := f, map[], stream;
    }

    /** `version_reader!`, the projector's half. */
    method VersionAt(a: AggId) returns (stored: Applied)
      ensures stored == AppliedOf(VersionOf(RowOf(rows, a)))
    {
      stored := if a in rows then At(rows[a].version) else Pending;
    }

    /** `set_version!`: a missing row is a no-op, and no version is ever wound back. The gap it
        reports is the number of events never applied here. */
    method SetVersion(a: AggId, v: int) returns (missing: Option<int>)
      modifies this`rows
      ensures rows == if a in old(rows) then old(rows)[a := old(rows)[a].(version := Versions.SetVersion(old(rows)[a].version, v))] else old(rows)
      ensures missing == VersionGap(VersionOf(RowOf(old(rows), a)), v)
    {
      var stored := if a in rows then Some(rows[a].version) else None;
      missing := VersionGap(stored, v);
      if a in rows && rows[a].version < v {
        rows := rows[a := rows[a].(version := v)];
      }
    }

    /** Read the version under the lock, decide, apply: one transaction. */
    method Apply(env: Envelope<E>, delivered: nat) returns (decision: Decision)
      modifies this`rows
      ensures (decision, rows) == Gate(f, old(rows), env, delivered)
    {
      var a := env.agg;
      var stored := VersionAt(a);
      decision := Decide(stored, env.version, delivered);
      if decision == Decision.Apply {
        var written := f(if a in rows then Some(rows[a].data) else None, env.payload);
        if written.Some? {
          rows := rows[a := Row(if a in rows then rows[a].version else 0, written.value)];
        }
        var missing := SetVersion(a, env.version);
        ghost var row := ApplyRow(f, RowOf(old(rows), a), env);
        assert rows == if row.Some? then old(rows)[a := row.value] else old(rows);
      }
    }

    /** One delivery: apply, then acknowledge unless it was parked. */
    method Handle(at: nat) returns (decision: Decision)
      requires at < |stream| && !stream[at].acked
      modifies this
      ensures (decision, rows) == Gate(f, old(rows), old(stream)[at].env, old(stream)[at].delivered + 1)
      ensures stream == Served(old(stream), at, decision)
    {
      var m := stream[at];
      stream := stream[at := m.(delivered := m.delivered + 1)];
      decision := Apply(m.env, m.delivered + 1);
      if decision != Park {
        stream := stream[at := stream[at].(acked := true)];
      }
    }

    /** The apply loop, over whatever the broker hands out; a message that is acknowledged by then
        is not delivered again. The source has up to four messages in hand at once: this is one
        lane's share of them, served one after the other. The overlap of lanes is the step system's,
        where `PipelineExact.RunRefinesGates` shows that it comes to the same rows. */
    method Lane(order: seq<nat>)
      requires forall i :: 0 <= i < |order| ==> order[i] < |stream|
      modifies this
      ensures (stream, rows) == ServeAll(f, old(stream), old(rows), order)
    {
      var i := 0;
      while i < |order|
        invariant 0 <= i <= |order| && |stream| == |old(stream)|
        invariant (stream, rows) == ServeAll(f, old(stream), old(rows), order[..i])
      {
        assert order[..i + 1][..i] == order[..i];
        if !stream[order[i]].acked {
          var decision := Handle(order[i]);
        }
        i := i + 1;
      }
      assert order[..|order|] == order;
    }
  }

  /** A message after one delivery that ended in `decision`. */
  function Served<E>(stream: seq<Message<E>>, at: nat, decision: Decision): seq<Message<E>>
    requires at < |stream|
  {
    stream[at := Message(stream[at].env, stream[at].delivered + 1, stream[at].acked || decision != Park)]
  }

  ghost function ServeAll<D, E>(f: Projector<D, E>, stream: seq<Message<E>>, rows: Rows<D>, order: seq<nat>): (r: (seq<Message<E>>, Rows<D>))
    requires forall i :: 0 <= i < |order| ==> order[i] < |stream|
    ensures |r.0| == |stream|
    decreases |order|
  {
    if order == [] then (stream, rows) else
    var (before, held) := ServeAll(f, stream, rows, order[..|order| - 1]);
    var at := order[|order| - 1];
    if before[at].acked then (before, held)
    else
      var gate := Gate(f, held, before[at].env, before[at].delivered + 1);
      (Served(before, at, gate.0), gate.1)
  }

  // ---------------------------------------------------------------- as a run of the step system

  /** One delivery, start to finish, on one lane. */
  function Serve<E>(l: LaneId, at: nat): seq<Action<E>> {
    [Deliver(l, at), Lock(l), Write(l), CommitTx(l), Settle(l)]
  }

  ghost predicate Quiet<D, E>(lanes: map<LaneId, Lane<D, E>>, l: LaneId) {
    l in lanes && lanes[l].Idle? && forall k, a: AggId :: k in lanes ==> !Holds(lanes[k], a)
  }

  ghost predicate LaneSet<D, E>(s: State<D, E>, t: State<D, E>, l: LaneId, lane: Lane<D, E>) {
    t.lanes == s.lanes[l := lane] && t.log == s.log && t.outbox == s.outbox && t.relays == s.relays
  }

  lemma ServeDeliver<D, E>(f: Projector<D, E>, s: State<D, E>, l: LaneId, at: nat)
    requires l in s.lanes && s.lanes[l].Idle? && at < |s.stream| && !s.stream[at].acked
    ensures Enabled(f, s, Deliver(l, at)) && !Stale(s, Deliver(l, at))
    ensures var t := Do(f, s, Deliver(l, at));
      && LaneSet(s, t, l, Received(at, s.stream[at].env, s.stream[at].delivered + 1))
      && t.rows == s.rows && t.stream == s.stream[at := s.stream[at].(delivered := s.stream[at].delivered + 1)]
  {
  }

  lemma ServeLock<D, E>(f: Projector<D, E>, s: State<D, E>, l: LaneId)
    requires l in s.lanes && s.lanes[l].Received? && LockFree(s.lanes, l, s.lanes[l].env.agg)
    ensures Enabled(f, s, Lock(l)) && !Stale(s, Lock(l))
    ensures var t := Do(f, s, Lock(l));
      && LaneSet(s, t, l, Gated(s.lanes[l].at, s.lanes[l].env, s.lanes[l].delivered, AppliedOf(VersionOf(RowOf(s.rows, s.lanes[l].env.agg)))))
      && t.rows == s.rows && t.stream == s.stream
  {
  }

  lemma ServeWrite<D, E>(f: Projector<D, E>, s: State<D, E>, l: LaneId)
    requires l in s.lanes && s.lanes[l].Gated? && LockFree(s.lanes, l, s.lanes[l].env.agg)
    requires s.lanes[l].stored == AppliedOf(VersionOf(RowOf(s.rows, s.lanes[l].env.agg)))
    ensures Enabled(f, s, Write(l)) && !Stale(s, Write(l))
    ensures var t := Do(f, s, Write(l));
      var lane := s.lanes[l];
      && LaneSet(s, t, l, Written(lane.at, lane.env, lane.delivered, lane.stored,
           if Verdict(lane) == Apply then ApplyRow(f, RowOf(s.rows, lane.env.agg), lane.env) else None))
      && t.rows == s.rows && t.stream == s.stream
  {
  }

  lemma ServeCommit<D, E>(f: Projector<D, E>, s: State<D, E>, l: LaneId)
    requires l in s.lanes && s.lanes[l].Written?
    requires s.lanes[l].stored == AppliedOf(VersionOf(RowOf(s.rows, s.lanes[l].env.agg)))
    requires s.lanes[l].row == if Verdict(s.lanes[l]) == Apply then ApplyRow(f, RowOf(s.rows, s.lanes[l].env.agg), s.lanes[l].env) else None
    ensures Enabled(f, s, CommitTx(l)) && !Stale(s, CommitTx(l))
    ensures var t := Do(f, s, CommitTx(l));
      var lane := s.lanes[l];
      && LaneSet(s, t, l, Finished(lane.at, lane.env, Verdict(lane)))
      && t.rows == Gate(f, s.rows, lane.env, lane.delivered).1 && Verdict(lane) == Gate(f, s.rows, lane.env, lane.delivered).0
      && t.stream == s.stream
  {
    var a := s.lanes[l].env.agg;
    assert a in s.rows ==> s.rows[a := s.rows[a]] == s.rows;
  }

  lemma ServeSettle<D, E>(f: Projector<D, E>, s: State<D, E>, l: LaneId)
    requires l in s.lanes && s.lanes[l].Finished? && s.lanes[l].at < |s.stream|
    ensures Enabled(f, s, Settle(l)) && !Stale(s, Settle(l))
    ensures var t := Do(f, s, Settle(l));
      && LaneSet(s, t, l, Idle) && t.rows == s.rows
      && t.stream == if s.lanes[l].decision == Park then s.stream
                     else s.stream[s.lanes[l].at := s.stream[s.lanes[l].at].(acked := true)]
  {
  }

  lemma ServeFront<D, E>(f: Projector<D, E>, s: State<D, E>, l: LaneId, at: nat)
    requires Quiet(s.lanes, l) && at < |s.stream| && !s.stream[at].acked
    ensures Run(f, s, [Deliver(l, at), Lock(l)])
    ensures var t := After(f, s, [Deliver(l, at), Lock(l)]);
      var m := s.stream[at];
      && LaneSet(s, t, l, Gated(at, m.env, m.delivered + 1, AppliedOf(VersionOf(RowOf(s.rows, m.env.agg)))))
      && t.rows == s.rows && t.stream == s.stream[at := m.(delivered := m.delivered + 1)]
  {
    ServeDeliver(f, s, l, at);
    ServeLock(f, Do(f, s, Deliver(l, at)), l);
    RunTwo(f, s, Deliver(l, at), Lock(l));
  }

  lemma ServeMiddle<D, E>(f: Projector<D, E>, s: State<D, E>, l: LaneId)
    requires l in s.lanes && s.lanes[l].Gated? && LockFree(s.lanes, l, s.lanes[l].env.agg)
    requires s.lanes[l].stored == AppliedOf(VersionOf(RowOf(s.rows, s.lanes[l].env.agg)))
    ensures Run(f, s, [Write(l), CommitTx(l)])
    ensures var t := After(f, s, [Write(l), CommitTx(l)]);
      var lane := s.lanes[l];
      var gate := Gate(f, s.rows, lane.env, lane.delivered);
      && LaneSet(s, t, l, Finished(lane.at, lane.env, gate.0)) && t.rows == gate.1 && t.stream == s.stream
  {
    ServeWrite(f, s, l);
    ServeCommit(f, Do(f, s, Write(l)), l);
    RunTwo(f, s, Write(l), CommitTx(l));
  }

  /** The five steps of one delivery, while no other lane holds a lock, are `Replica.Handle`. */
  lemma ServeIsHandle<D, E>(f: Projector<D, E>, s: State<D, E>, l: LaneId, at: nat)
    requires Quiet(s.lanes, l) && at < |s.stream| && !s.stream[at].acked
    ensures Run(f, s, Serve(l, at))
    ensures var t := After(f, s, Serve(l, at));
      var gate := Gate(f, s.rows, s.stream[at].env, s.stream[at].delivered + 1);
      && t.rows == gate.1 && t.stream == Served(s.stream, at, gate.0)
      && t.log == s.log && t.outbox == s.outbox && t.relays == s.relays && t.lanes == s.lanes
  {
    ServeFront(f, s, l, at);
    var s2 := After(f, s, [Deliver(l, at), Lock(l)]);
    ServeMiddle(f, s2, l);
    var s4 := After(f, s2, [Write(l), CommitTx(l)]);
    ServeSettle(f, s4, l);
    RunOne(f, s4, Settle(l));
    RunCat(f, s2, [Write(l), CommitTx(l)], [Settle(l)]);
    RunCat(f, s, [Deliver(l, at), Lock(l)], [Write(l), CommitTx(l)] + [Settle(l)]);
    assert Serve<E>(l, at) == [Deliver(l, at), Lock(l)] + ([Write(l), CommitTx(l)] + [Settle(l)]);
    assert Do(f, s4, Settle(l)).lanes == s.lanes;
  }

  /**
   Whatever order the broker hands messages out in, what the apply loop does to the rows and to the
   stream is a run of the step system, so every guarantee about runs is a guarantee about `Lane`.
   */
  lemma {:induction false} LaneIsARun<D, E>(f: Projector<D, E>, s: State<D, E>, l: LaneId, order: seq<nat>) returns (acts: seq<Action<E>>)
    requires Quiet(s.lanes, l) && forall i :: 0 <= i < |order| ==> order[i] < |s.stream|
    ensures Run(f, s, acts)
    ensures var t := After(f, s, acts);
      && (t.stream, t.rows) == ServeAll(f, s.stream, s.rows, order)
      && t.log == s.log && t.outbox == s.outbox && t.relays == s.relays && t.lanes == s.lanes
    decreases |order|
  {
    if order == [] {
      acts := [];
    } else {
      var front, at := order[..|order| - 1], order[|order| - 1];
      acts := LaneIsARun(f, s, l, front);
      var t := After(f, s, acts);
      if !t.stream[at].acked {
        ServeIsHandle(f, t, l, at);
        RunCat(f, s, acts, Serve(l, at));
        acts := acts + Serve(l, at);
      }
    }
  }
}
