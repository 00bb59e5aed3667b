/**
 The disorder bound on the apply loop itself: what `Rounds` counts for one aggregate is what serving
 the same deliveries does to the stream and to the projection's rows.
 */
module Absorption {
  import opened Pipeline
  import opened PipelineExact
  import opened Projection
  import opened Rounds
  import opened Versions
  import opened Wrappers
  import W = Window

  /** Where the messages of one aggregate's versions lo+1..hi stand in the stream. */
  ghost predicate Placed<E>(stream: seq<Message<E>>, a: AggId, at: map<nat, nat>, lo: nat, hi: nat) {
    && (forall v: nat :: lo < v <= hi ==> v in at && at[v] < |stream|)
    && (forall v: nat :: lo < v <= hi && v in at && at[v] < |stream| ==> stream[at[v]].env.agg == a && stream[at[v]].env.version == v)
    && (forall v: nat, w: nat :: lo < v < w <= hi && v in at && w in at ==> at[v] != at[w])
  }

  /** The first event of an aggregate inserts its row. */
  ghost predicate Inserts<D, E>(f: Projector<D, E>, stream: seq<Message<E>>, at: map<nat, nat>) {
    1 in at && at[1] < |stream| ==> f(None, stream[at[1]].env.payload).Some?
  }

  /** The stream positions of versions, in order. */
  function Places(at: map<nat, nat>, order: seq<nat>): (places: seq<nat>)
    ensures |places| == |order| && forall i :: 0 <= i < |order| && order[i] in at ==> places[i] == at[order[i]]
  {
    seq(|order|, i requires 0 <= i < |order| => if order[i] in at then at[order[i]] else 0)
  }

  function AllPlaces(at: map<nat, nat>, orders: seq<seq<nat>>): seq<nat> {
    if orders == [] then [] else Places(at, orders[0]) + AllPlaces(at, orders[1..])
  }

  /**
   The stream and the rows agree with an outcome in the middle of a round: the row is at the stored
   version, exactly the versions parked or still to come are unacknowledged, and each was delivered
   as often as the round says.
   */
  ghost predicate Tracks<D, E>(o: Outcome, rest: seq<nat>, stream: seq<Message<E>>, rows: Rows<D>, a: AggId, at: map<nat, nat>,
                               lo: nat, hi: nat, delivered: nat) {
    && Placed(stream, a, at, lo, hi)
    && StoredOf(rows, a) == o.stored && (a in rows <==> o.stored > 0)
    && (forall v: nat :: v in rest || v in o.parked ==> lo < v <= hi)
    && (forall i, j :: 0 <= i < j < |rest| ==> rest[i] != rest[j])
    && (forall v: nat :: lo < v <= hi ==> (!stream[at[v]].acked <==> v in rest || v in o.parked))
    && (forall v: nat :: v in rest ==> v !in o.parked && stream[at[v]].delivered + 1 == delivered)
    && (forall v: nat :: v in o.parked ==> stream[at[v]].delivered == delivered)
  }

  /** One delivery of the round. */
  lemma TakeIsGate<D, E>(f: Projector<D, E>, o: Outcome, v: nat, rows: Rows<D>, env: Envelope<E>, delivered: nat)
    requires StoredOf(rows, env.agg) == o.stored && (env.agg in rows <==> o.stored > 0) && env.version == v
    requires !Take(o, v, delivered).forced && (v == 1 ==> f(None, env.payload).Some?) && v >= 1
    ensures var gate := Gate(f, rows, env, delivered);
      && gate.0 == Decide(Read(o.stored), v, delivered)
      && StoredOf(gate.1, env.agg) == Take(o, v, delivered).stored
      && (env.agg in gate.1 <==> Take(o, v, delivered).stored > 0)
  {
    assert AppliedOf(VersionOf(RowOf(rows, env.agg))) == Read(o.stored);
  }

  lemma TakeTracks<D, E>(f: Projector<D, E>, o: Outcome, rest: seq<nat>, stream: seq<Message<E>>, rows: Rows<D>, a: AggId,
                         at: map<nat, nat>, lo: nat, hi: nat, delivered: nat)
    requires rest != [] && Tracks(o, rest, stream, rows, a, at, lo, hi, delivered) && Inserts(f, stream, at)
    requires !Take(o, rest[0], delivered).forced
    ensures lo < rest[0] <= hi && rest[0] in at && at[rest[0]] < |stream| && !stream[at[rest[0]]].acked
    ensures var gate := Gate(f, rows, stream[at[rest[0]]].env, stream[at[rest[0]]].delivered + 1);
      var after := Served(stream, at[rest[0]], gate.0);
      Tracks(Take(o, rest[0], delivered), rest[1..], after, gate.1, a, at, lo, hi, delivered) && Inserts(f, after, at)
  {
    var v := rest[0];
    assert v in rest;
    var m := stream[at[v]];
    var gate := Gate(f, rows, m.env, delivered);
    TakeIsGate(f, o, v, rows, m.env, delivered);
    assert forall w: nat :: w in rest <==> w == v || w in rest[1..];
    assert v !in rest[1..];
  }

  /** The events of some versions. */
  ghost function Events<E>(stream: seq<Message<E>>, at: map<nat, nat>, vs: seq<nat>): seq<Envelope<E>>
    requires forall i :: 0 <= i < |vs| ==> vs[i] in at && at[vs[i]] < |stream|
  {
    seq(|vs|, i requires 0 <= i < |vs| => stream[at[vs[i]]].env)
  }

  /** A row after some events, one after the other. */
  ghost function Chained<D, E>(f: Projector<D, E>, row: Option<Row<D>>, es: seq<Envelope<E>>): Option<Row<D>> {
    if es == [] then row else ApplyRow(f, Chained(f, row, es[..|es| - 1]), es[|es| - 1])
  }

  /** The row is what it was, with the events of the versions applied so far on it, in that order. */
  ghost predicate Follows<D, E>(f: Projector<D, E>, base: Option<Row<D>>, o: Outcome, stream: seq<Message<E>>, rows: Rows<D>,
                                a: AggId, at: map<nat, nat>) {
    && (forall i :: 0 <= i < |o.applied| ==> o.applied[i] in at && at[o.applied[i]] < |stream|)
    && RowOf(rows, a) == Chained(f, base, Events(stream, at, o.applied))
  }

  lemma GateApplies<D, E>(f: Projector<D, E>, rows: Rows<D>, env: Envelope<E>, delivered: int)
    ensures var gate := Gate(f, rows, env, delivered);
      RowOf(gate.1, env.agg) == if gate.0 == Apply then ApplyRow(f, RowOf(rows, env.agg), env) else RowOf(rows, env.agg)
  {
  }

  lemma ChainedSnoc<D, E>(f: Projector<D, E>, row: Option<Row<D>>, es: seq<Envelope<E>>, e: Envelope<E>)
    ensures Chained(f, row, es + [e]) == ApplyRow(f, Chained(f, row, es), e)
  {
    assert (es + [e])[..|es|] == es;
  }

  /** One delivery, on the row. */
  lemma TakeFollows<D, E>(f: Projector<D, E>, base: Option<Row<D>>, o: Outcome, v: nat, stream: seq<Message<E>>, rows: Rows<D>,
                          a: AggId, at: map<nat, nat>, decision: Decision, delivered: nat)
    requires Follows(f, base, o, stream, rows, a, at) && v in at && at[v] < |stream|
    requires stream[at[v]].env.agg == a && decision == Gate(f, rows, stream[at[v]].env, delivered).0 == Decide(Read(o.stored), v, delivered)
    ensures Follows(f, base, Take(o, v, delivered), Served(stream, at[v], decision), Gate(f, rows, stream[at[v]].env, delivered).1, a, at)
  {
    var after, o' := Served(stream, at[v], decision), Take(o, v, delivered);
    GateApplies(f, rows, stream[at[v]].env, delivered);
    assert Events(after, at, o.applied) == Events(stream, at, o.applied);
    if decision == Apply {
      assert Events(after, at, o'.applied) == Events(stream, at, o.applied) + [stream[at[v]].env];
      ChainedSnoc(f, base, Events(stream, at, o.applied), stream[at[v]].env);
    }
  }

  ghost predicate InStreamRange(order: seq<nat>, n: nat) {
    forall i :: 0 <= i < |order| ==> order[i] < n
  }

  /** Serving some messages and then some more is serving them all. */
  lemma {:induction false} ServeAllCat<D, E>(f: Projector<D, E>, stream: seq<Message<E>>, rows: Rows<D>, first: seq<nat>, second: seq<nat>)
    requires InStreamRange(first, |stream|) && InStreamRange(second, |stream|)
    ensures InStreamRange(first + second, |stream|)
    ensures ServeAll(f, stream, rows, first + second) ==
      ServeAll(f, ServeAll(f, stream, rows, first).0, ServeAll(f, stream, rows, first).1, second)
    decreases |second|
  {
    if second == [] {
      assert first + second == first;
    } else {
      ServeAllCat(f, stream, rows, first, second[..|second| - 1]);
      assert (first + second)[..|first + second| - 1] == first + second[..|second| - 1];
    }
  }

  lemma ServeFirst<D, E>(f: Projector<D, E>, stream: seq<Message<E>>, rows: Rows<D>, i: nat, rest: seq<nat>)
    requires i < |stream| && !stream[i].acked && InStreamRange(rest, |stream|)
    ensures InStreamRange([i] + rest, |stream|)
    ensures var gate := Gate(f, rows, stream[i].env, stream[i].delivered + 1);
      ServeAll(f, stream, rows, [i] + rest) == ServeAll(f, Served(stream, i, gate.0), gate.1, rest)
  {
    ServeAllCat(f, stream, rows, [i], rest);
    assert [i][..0] == [];
    assert ServeAll(f, stream, rows, []) == (stream, rows);
  }

  lemma TracksRange<D, E>(o: Outcome, rest: seq<nat>, stream: seq<Message<E>>, rows: Rows<D>, a: AggId, at: map<nat, nat>,
                          lo: nat, hi: nat, delivered: nat)
    requires Tracks(o, rest, stream, rows, a, at, lo, hi, delivered)
    ensures InStreamRange(Places(at, rest), |stream|)
  {
    forall i | 0 <= i < |rest| ensures Places(at, rest)[i] < |stream| {
      assert rest[i] in rest;
    }
  }

  lemma HeadServed<D, E>(f: Projector<D, E>, stream: seq<Message<E>>, rows: Rows<D>, at: map<nat, nat>, rest: seq<nat>, i: nat)
    requires rest != [] && InStreamRange(Places(at, rest), |stream|)
    requires rest[0] in at && at[rest[0]] == i < |stream| && !stream[i].acked
    ensures InStreamRange(Places(at, rest[1..]), |stream|)
    ensures var gate := Gate(f, rows, stream[i].env, stream[i].delivered + 1);
      ServeAll(f, stream, rows, Places(at, rest)) == ServeAll(f, Served(stream, i, gate.0), gate.1, Places(at, rest[1..]))
  {
    assert Places(at, rest)[1..] == Places(at, rest[1..]);
    assert forall j :: 0 <= j < |rest| - 1 ==> Places(at, rest[1..])[j] == Places(at, rest)[j + 1];
    ServeFirst(f, stream, rows, i, Places(at, rest[1..]));
    assert Places(at, rest) == [i] + Places(at, rest[1..]);
  }

  /** `Tracks` for the versions, `Follows` for the columns. */
  ghost predicate Mirrors<D, E>(f: Projector<D, E>, base: Option<Row<D>>, o: Outcome, rest: seq<nat>, stream: seq<Message<E>>, rows: Rows<D>,
                                a: AggId, at: map<nat, nat>, lo: nat, hi: nat, delivered: nat) {
    Tracks(o, rest, stream, rows, a, at, lo, hi, delivered) && Inserts(f, stream, at) && Follows(f, base, o, stream, rows, a, at)
  }

  /** The first delivery of what is left of a round, served. */
  lemma TakeIsServed<D, E>(f: Projector<D, E>, base: Option<Row<D>>, o: Outcome, rest: seq<nat>, stream: seq<Message<E>>, rows: Rows<D>,
                           a: AggId, at: map<nat, nat>, lo: nat, hi: nat, delivered: nat) returns (s: seq<Message<E>>, r: Rows<D>)
    requires rest != [] && Mirrors(f, base, o, rest, stream, rows, a, at, lo, hi, delivered)
    requires !Take(o, rest[0], delivered).forced
    ensures |s| == |stream| && InStreamRange(Places(at, rest), |stream|) && InStreamRange(Places(at, rest[1..]), |stream|)
    ensures ServeAll(f, stream, rows, Places(at, rest)) == ServeAll(f, s, r, Places(at, rest[1..]))
    ensures Mirrors(f, base, Take(o, rest[0], delivered), rest[1..], s, r, a, at, lo, hi, delivered)
  {
    TakeTracks(f, o, rest, stream, rows, a, at, lo, hi, delivered);
    var i := at[rest[0]];
    assert rest[0] in rest && stream[i].env.agg == a && stream[i].env.version == rest[0];
    var gate := Gate(f, rows, stream[i].env, stream[i].delivered + 1);
    s, r := Served(stream, i, gate.0), gate.1;
    TakeIsGate(f, o, rest[0], rows, stream[i].env, delivered);
    TakeFollows(f, base, o, rest[0], stream, rows, a, at, gate.0, delivered);
    TracksRange(o, rest, stream, rows, a, at, lo, hi, delivered);
    HeadServed(f, stream, rows, at, rest, i);
  }

  /** One round of the counting model is the apply loop over the same deliveries. */
  lemma {:induction false} RoundIsServed<D, E>(f: Projector<D, E>, base: Option<Row<D>>, o: Outcome, rest: seq<nat>, stream: seq<Message<E>>,
                                               rows: Rows<D>, a: AggId, at: map<nat, nat>, lo: nat, hi: nat, delivered: nat)
    requires Mirrors(f, base, o, rest, stream, rows, a, at, lo, hi, delivered) && !Round(o, rest, delivered).forced
    ensures InStreamRange(Places(at, rest), |stream|)
    ensures var (s, r) := ServeAll(f, stream, rows, Places(at, rest));
      Mirrors(f, base, Round(o, rest, delivered), [], s, r, a, at, lo, hi, delivered)
    decreases |rest|
  {
    if rest == [] {
      assert Places(at, rest) == [];
    } else {
      if Take(o, rest[0], delivered).forced {
        ForcedStays(Take(o, rest[0], delivered), rest[1..], delivered);
      }
      var s, r := TakeIsServed(f, base, o, rest, stream, rows, a, at, lo, hi, delivered);
      RoundIsServed(f, base, Take(o, rest[0], delivered), rest[1..], s, r, a, at, lo, hi, delivered);
    }
  }

  lemma {:induction false} ForcedForGood(o: Outcome, orders: seq<seq<nat>>, before: nat)
    requires o.forced
    ensures Rounds.Rounds(o, orders, before).forced
    decreases |orders|
  {
    if orders != [] {
      ForcedStays(o.(parked := {}), orders[0], before + 1);
      ForcedForGood(Round(o.(parked := {}), orders[0], before + 1), orders[1..], before + 1);
    }
  }

  lemma {:induction false} RoundsAreServed<D, E>(f: Projector<D, E>, base: Option<Row<D>>, o: Outcome, orders: seq<seq<nat>>,
                                                 stream: seq<Message<E>>, rows: Rows<D>,
                                                 a: AggId, at: map<nat, nat>, lo: nat, hi: nat, before: nat)
    requires Mirrors(f, base, o, [], stream, rows, a, at, lo, hi, before)
    requires Schedule(o, orders, before) && !Rounds.Rounds(o, orders, before).forced
    ensures InStreamRange(AllPlaces(at, orders), |stream|)
    ensures var (s, r) := ServeAll(f, stream, rows, AllPlaces(at, orders));
      Mirrors(f, base, Rounds.Rounds(o, orders, before), [], s, r, a, at, lo, hi, before + |orders|)
    decreases |orders|
  {
    if orders != [] {
      var begun := o.(parked := {});
      var p := Round(begun, orders[0], before + 1);
      if p.forced {
        ForcedForGood(p, orders[1..], before + 1);
      }
      RoundBegins(f, base, o, orders[0], stream, rows, a, at, lo, hi, before);
      RoundIsServed(f, base, begun, orders[0], stream, rows, a, at, lo, hi, before + 1);
      var (s, r) := ServeAll(f, stream, rows, Places(at, orders[0]));
      RoundsAreServed(f, base, p, orders[1..], s, r, a, at, lo, hi, before + 1);
      ServeAllCat(f, stream, rows, Places(at, orders[0]), AllPlaces(at, orders[1..]));
    }
  }

  lemma RoundBegins<D, E>(f: Projector<D, E>, base: Option<Row<D>>, o: Outcome, order: seq<nat>, stream: seq<Message<E>>, rows: Rows<D>,
                          a: AggId, at: map<nat, nat>, lo: nat, hi: nat, before: nat)
    requires Mirrors(f, base, o, [], stream, rows, a, at, lo, hi, before) && Delivers(order, o.parked)
    ensures Mirrors(f, base, o.(parked := {}), order, stream, rows, a, at, lo, hi, before + 1)
  {
  }

  // ---------------------------------------------------------------- beside other aggregates

  /** Two replicas that agree on one aggregate: the same events, its messages and its row alike. */
  ghost predicate Agree<D, E>(s: seq<Message<E>>, r: Rows<D>, t: seq<Message<E>>, q: Rows<D>, a: AggId) {
    && |s| == |t| && RowOf(r, a) == RowOf(q, a)
    && forall i :: 0 <= i < |s| ==> s[i].env == t[i].env && (s[i].env.agg == a ==> s[i] == t[i])
  }

  /** The deliveries that are the aggregate's. */
  function Mine<E>(stream: seq<Message<E>>, a: AggId, order: seq<nat>): (mine: seq<nat>)
    requires InStreamRange(order, |stream|)
    ensures InStreamRange(mine, |stream|)
    ensures forall i :: 0 <= i < |mine| ==> mine[i] < |stream| && stream[mine[i]].env.agg == a
  {
    if order == [] then []
    else Mine(stream, a, order[..|order| - 1]) + if stream[order[|order| - 1]].env.agg == a then [order[|order| - 1]] else []
  }

  /** One more delivery. */
  ghost function Handed<D, E>(f: Projector<D, E>, s: seq<Message<E>>, r: Rows<D>, i: nat): (seq<Message<E>>, Rows<D>)
    requires i < |s|
  {
    if s[i].acked then (s, r)
    else
      var gate := Gate(f, r, s[i].env, s[i].delivered + 1);
      (Served(s, i, gate.0), gate.1)
  }

  lemma ServeAllLast<D, E>(f: Projector<D, E>, stream: seq<Message<E>>, rows: Rows<D>, order: seq<nat>, i: nat)
    requires InStreamRange(order, |stream|) && i < |stream|
    ensures InStreamRange(order + [i], |stream|)
    ensures ServeAll(f, stream, rows, order + [i]) ==
      Handed(f, ServeAll(f, stream, rows, order).0, ServeAll(f, stream, rows, order).1, i)
  {
    assert (order + [i])[..|order|] == order;
  }

  lemma AgreeBeside<D, E>(f: Projector<D, E>, s: seq<Message<E>>, r: Rows<D>, t: seq<Message<E>>, q: Rows<D>, a: AggId, i: nat)
    requires Agree(s, r, t, q, a) && i < |s| && s[i].env.agg != a
    ensures Agree(Handed(f, s, r, i).0, Handed(f, s, r, i).1, t, q, a)
  {
  }

  lemma AgreeTogether<D, E>(f: Projector<D, E>, s: seq<Message<E>>, r: Rows<D>, t: seq<Message<E>>, q: Rows<D>, a: AggId, i: nat)
    requires Agree(s, r, t, q, a) && i < |s| && s[i].env.agg == a
    ensures Agree(Handed(f, s, r, i).0, Handed(f, s, r, i).1, Handed(f, t, q, i).0, Handed(f, t, q, i).1, a)
  {
    GateApplies(f, r, s[i].env, s[i].delivered + 1);
    GateApplies(f, q, t[i].env, t[i].delivered + 1);
  }

  /** Deliveries of other aggregates in between make no difference to one aggregate. */
  lemma {:induction false} MineServed<D, E>(f: Projector<D, E>, stream: seq<Message<E>>, rows: Rows<D>, a: AggId, order: seq<nat>)
    requires InStreamRange(order, |stream|)
    ensures var (s, r) := ServeAll(f, stream, rows, order);
      var (t, q) := ServeAll(f, stream, rows, Mine(stream, a, order));
      Agree(s, r, t, q, a)
    decreases |order|
  {
    if order != [] {
      var front, i := order[..|order| - 1], order[|order| - 1];
      assert order == front + [i];
      MineServed(f, stream, rows, a, front);
      ServedKeepsEvents(f, stream, rows, front);
      ServeAllLast(f, stream, rows, front, i);
      var (s, r) := ServeAll(f, stream, rows, front);
      var (t, q) := ServeAll(f, stream, rows, Mine(stream, a, front));
      if stream[i].env.agg == a {
        assert Mine(stream, a, order) == Mine(stream, a, front) + [i];
        ServeAllLast(f, stream, rows, Mine(stream, a, front), i);
        AgreeTogether(f, s, r, t, q, a, i);
      } else {
        assert Mine(stream, a, order) == Mine(stream, a, front);
        AgreeBeside(f, s, r, t, q, a, i);
      }
    }
  }

  lemma {:induction false} MineCat<E>(stream: seq<Message<E>>, a: AggId, first: seq<nat>, second: seq<nat>)
    requires InStreamRange(first, |stream|) && InStreamRange(second, |stream|)
    ensures InStreamRange(first + second, |stream|)
    ensures Mine(stream, a, first + second) == Mine(stream, a, first) + Mine(stream, a, second)
    decreases |second|
  {
    if second == [] {
      assert first + second == first;
    } else {
      MineCat(stream, a, first, second[..|second| - 1]);
      assert (first + second)[..|first + second| - 1] == first + second[..|second| - 1];
    }
  }

  function Flatten(orders: seq<seq<nat>>): seq<nat> {
    if orders == [] then [] else orders[0] + Flatten(orders[1..])
  }

  /** A round delivers the aggregate's versions `versions`, in that order, whatever else it delivers. */
  ghost predicate Brings<E>(stream: seq<Message<E>>, a: AggId, at: map<nat, nat>, order: seq<nat>, versions: seq<nat>) {
    && InStreamRange(order, |stream|)
    && (forall i :: 0 <= i < |versions| ==> versions[i] in at)
    && Mine(stream, a, order) == Places(at, versions)
  }

  ghost predicate AllBring<E>(stream: seq<Message<E>>, a: AggId, at: map<nat, nat>, orders: seq<seq<nat>>, rounds: seq<seq<nat>>) {
    |orders| == |rounds| && forall i :: 0 <= i < |rounds| ==> Brings(stream, a, at, orders[i], rounds[i])
  }

  lemma {:induction false} FlattenMine<E>(stream: seq<Message<E>>, a: AggId, at: map<nat, nat>, orders: seq<seq<nat>>, rounds: seq<seq<nat>>)
    requires AllBring(stream, a, at, orders, rounds)
    ensures InStreamRange(Flatten(orders), |stream|) && Mine(stream, a, Flatten(orders)) == AllPlaces(at, rounds)
    decreases |orders|
  {
    if orders != [] {
      assert Brings(stream, a, at, orders[0], rounds[0]);
      FlattenMine(stream, a, at, orders[1..], rounds[1..]);
      MineCat(stream, a, orders[0], Flatten(orders[1..]));
    }
  }

  /** What is left when the versions up to `hi` were served: the row, and the messages. */
  ghost predicate Absorbed<D, E>(f: Projector<D, E>, base: Option<Row<D>>, stream: seq<Message<E>>, s: seq<Message<E>>, r: Rows<D>, a: AggId,
                                 at: map<nat, nat>, lo: nat, hi: nat)
    requires lo <= hi && Placed(stream, a, at, lo, hi)
  {
    && StoredOf(r, a) == hi
    && RowOf(r, a) == Chained(f, base, Events(stream, at, Upto(lo, hi)))
    && |s| == |stream| && forall v: nat :: lo < v <= hi ==> s[at[v]].acked && s[at[v]].env == stream[at[v]].env
  }

  /** Nothing else delivered. */
  lemma AloneAbsorbed<D, E>(f: Projector<D, E>, stream: seq<Message<E>>, rows: Rows<D>, a: AggId, at: map<nat, nat>,
                            o: Outcome, k: nat, rounds: seq<seq<nat>>, before: nat)
    requires Starts(o, k) && Placed(stream, a, at, o.stored, o.stored + k) && Inserts(f, stream, at)
    requires forall v: nat :: v in o.parked ==> !stream[at[v]].acked && stream[at[v]].delivered == before
    requires StoredOf(rows, a) == o.stored && (a in rows <==> o.stored > 0)
    requires before + k <= MAX_GAP_WAIT && |rounds| >= k && Schedule(o, rounds, before)
    ensures InStreamRange(AllPlaces(at, rounds), |stream|)
    ensures var (s, r) := ServeAll(f, stream, rows, AllPlaces(at, rounds));
      Absorbed(f, RowOf(rows, a), stream, s, r, a, at, o.stored, o.stored + k)
  {
    BeginsMirrored(f, stream, rows, a, at, o, k, before);
    DisorderIsAbsorbed(o, k, rounds, before);
    RoundsAreServed(f, RowOf(rows, a), o, rounds, stream, rows, a, at, o.stored, o.stored + k, before);
    ServedKeepsEvents(f, stream, rows, AllPlaces(at, rounds));
    var (s, r) := ServeAll(f, stream, rows, AllPlaces(at, rounds));
    EndsAbsorbed(f, RowOf(rows, a), Rounds.Rounds(o, rounds, before), stream, s, r, a, at, o.stored, o.stored + k, before + |rounds|);
  }

  lemma BeginsMirrored<D, E>(f: Projector<D, E>, stream: seq<Message<E>>, rows: Rows<D>, a: AggId, at: map<nat, nat>,
                             o: Outcome, k: nat, before: nat)
    requires Starts(o, k) && Placed(stream, a, at, o.stored, o.stored + k) && Inserts(f, stream, at)
    requires forall v: nat :: v in o.parked ==> !stream[at[v]].acked && stream[at[v]].delivered == before
    requires StoredOf(rows, a) == o.stored && (a in rows <==> o.stored > 0)
    ensures Mirrors(f, RowOf(rows, a), o, [], stream, rows, a, at, o.stored, o.stored + k, before)
  {
    assert Events(stream, at, o.applied) == [];
  }

  lemma EndsAbsorbed<D, E>(f: Projector<D, E>, base: Option<Row<D>>, p: Outcome, stream: seq<Message<E>>, s: seq<Message<E>>, r: Rows<D>,
                           a: AggId, at: map<nat, nat>, lo: nat, hi: nat, delivered: nat)
    requires lo <= hi && Placed(stream, a, at, lo, hi) && Mirrors(f, base, p, [], s, r, a, at, lo, hi, delivered)
    requires p.stored == hi && p.parked == {} && p.applied == Upto(lo, hi)
    requires |s| == |stream| && forall i :: 0 <= i < |s| ==> s[i].env == stream[i].env
    ensures Absorbed(f, base, stream, s, r, a, at, lo, hi)
  {
    assert Events(s, at, Upto(lo, hi)) == Events(stream, at, Upto(lo, hi));
  }

  lemma {:induction false} ServedKeepsEvents<D, E>(f: Projector<D, E>, stream: seq<Message<E>>, rows: Rows<D>, order: seq<nat>)
    requires InStreamRange(order, |stream|)
    ensures var s := ServeAll(f, stream, rows, order).0;
      |s| == |stream| && forall i :: 0 <= i < |s| ==> s[i].env == stream[i].env
  {
    if order != [] {
      ServedKeepsEvents(f, stream, rows, order[..|order| - 1]);
    }
  }

  lemma AgreeAbsorbed<D, E>(f: Projector<D, E>, base: Option<Row<D>>, stream: seq<Message<E>>, s: seq<Message<E>>, r: Rows<D>,
                            t: seq<Message<E>>, q: Rows<D>, a: AggId, at: map<nat, nat>, lo: nat, hi: nat)
    requires lo <= hi && Placed(stream, a, at, lo, hi) && Agree(s, r, t, q, a) && Absorbed(f, base, stream, t, q, a, at, lo, hi)
    ensures Absorbed(f, base, stream, s, r, a, at, lo, hi)
  {
    forall v: nat | lo < v <= hi ensures s[at[v]] == t[at[v]] {
      assert stream[at[v]].env.agg == a;
    }
  }

  /**
   Disorder is absorbed by the apply loop. The next k versions of an aggregate are in the stream,
   unacknowledged, each delivered `before` times; every round hands each one not yet acknowledged out
   once, in any order, among any deliveries of other aggregates. If `before + k` is at most thirty,
   then after k rounds or more every one is acknowledged, and the row is what it was with the k events
   applied in version order.
   */
  lemma DisorderIsServed<D, E>(f: Projector<D, E>, stream: seq<Message<E>>, rows: Rows<D>, a: AggId, at: map<nat, nat>,
                               o: Outcome, k: nat, orders: seq<seq<nat>>, rounds: seq<seq<nat>>, before: nat)
    requires Starts(o, k) && Placed(stream, a, at, o.stored, o.stored + k) && Inserts(f, stream, at)
    requires forall v: nat :: v in o.parked ==> !stream[at[v]].acked && stream[at[v]].delivered == before
    requires StoredOf(rows, a) == o.stored && (a in rows <==> o.stored > 0)
    requires AllBring(stream, a, at, orders, rounds)
    requires before + k <= MAX_GAP_WAIT && |rounds| >= k && Schedule(o, rounds, before)
    ensures InStreamRange(Flatten(orders), |stream|)
    ensures var (s, r) := ServeAll(f, stream, rows, Flatten(orders));
      Absorbed(f, RowOf(rows, a), stream, s, r, a, at, o.stored, o.stored + k)
  {
    AloneAbsorbed(f, stream, rows, a, at, o, k, rounds, before);
    FlattenMine(stream, a, at, orders, rounds);
    MineServed(f, stream, rows, a, Flatten(orders));
    var (s, r) := ServeAll(f, stream, rows, Flatten(orders));
    var (t, q) := ServeAll(f, stream, rows, AllPlaces(at, rounds));
    AgreeAbsorbed(f, RowOf(rows, a), stream, s, r, t, q, a, at, o.stored, o.stored + k);
  }

  // ---------------------------------------------------------------- the window

  /** A consumer as `Window` counts it is the stream and the rows. */
  ghost predicate Counts<D, E>(msgs: seq<W.Msg>, c: W.Consumer, stream: seq<Message<E>>, rows: Rows<D>) {
    && |msgs| == |stream| && (forall i :: 0 <= i < |stream| ==> msgs[i] == W.Msg(stream[i].env.agg, stream[i].env.version))
    && (forall i: nat :: i < |stream| ==> (stream[i].acked <==> i in c.acked) && W.Tries(c, i) == stream[i].delivered)
    && (forall a: AggId :: (a in rows <==> a in c.stored) && (a in rows ==> rows[a].version == c.stored[a]))
  }

  /** And one delivery in it is one delivery of the apply loop. */
  lemma HandIsServed<D, E>(f: Projector<D, E>, msgs: seq<W.Msg>, c: W.Consumer, d: W.Delivery, window: nat,
                           stream: seq<Message<E>>, rows: Rows<D>)
    requires Counts(msgs, c, stream, rows) && W.Can(msgs, c, d, window) && W.Index(c, d) !in c.acked
    requires stream[W.Index(c, d)].env.agg !in rows ==> f(None, stream[W.Index(c, d)].env.payload).Some? && stream[W.Index(c, d)].env.version >= 0
    ensures var i := W.Index(c, d);
      var gate := Gate(f, rows, stream[i].env, stream[i].delivered + 1);
      && W.Answer(msgs, c, d) == gate.0
      && Counts(msgs, W.Hand(msgs, c, d), Served(stream, i, gate.0), gate.1)
  {
  }
}
