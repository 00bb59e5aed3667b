/**
 How much disorder the gate absorbs. The next k versions of one aggregate are all in the
 stream; each round the broker redelivers every one not yet acknowledged, once, in any order.
 */
module Rounds {
  import opened Versions
  import opened Wrappers

  /** What has been done with the deliveries so far. `stored == 0` is a row not yet written. */
  datatype Outcome = Outcome(stored: nat, parked: set<nat>, applied: seq<nat>, forced: bool)

  function Read(stored: nat): Applied {
    if stored == 0 then Pending else At(stored)
  }

  function Take(o: Outcome, v: nat, delivered: nat): Outcome {
    match Decide(Read(o.stored), v, delivered)
    case Apply => o.(stored := v, applied := o.applied + [v], forced := o.forced || IsGap(Read(o.stored), v))
    case Skip => o
    case Park => o.(parked := o.parked + {v})
  }

  /** One round, every message on its `delivered`-th delivery. */
  function Round(o: Outcome, order: seq<nat>, delivered: nat): Outcome
    decreases |order|
  {
    if order == [] then o else Round(Take(o, order[0], delivered), order[1..], delivered)
  }

  /** The order delivers each of `unacked` once and nothing else. */
  ghost predicate Delivers(order: seq<nat>, unacked: set<nat>) {
    && (forall v :: v in order <==> v in unacked)
    && (forall i, j :: 0 <= i < j < |order| ==> order[i] != order[j])
  }

  /** Each round delivers exactly what the previous ones left unacknowledged. */
  ghost predicate Schedule(o: Outcome, orders: seq<seq<nat>>, before: nat)
    decreases |orders|
  {
    orders == [] ||
    (Delivers(orders[0], o.parked) && Schedule(Round(o.(parked := {}), orders[0], before + 1), orders[1..], before + 1))
  }

  ghost function Rounds(o: Outcome, orders: seq<seq<nat>>, before: nat): Outcome
    decreases |orders|
  {
    if orders == [] then o else Rounds(Round(o.(parked := {}), orders[0], before + 1), orders[1..], before + 1)
  }

  function Upto(lo: nat, hi: nat): (r: seq<nat>)
    requires lo <= hi
    ensures |r| == hi - lo && forall i :: 0 <= i < |r| ==> r[i] == lo + 1 + i
  {
    seq(hi - lo, i requires 0 <= i < hi - lo => lo + 1 + i)
  }

  /** Versions lo+1..hi wait, and nothing else does. */
  ghost predicate Waiting(waiting: set<nat>, lo: nat, hi: nat) {
    forall v: nat :: v in waiting <==> lo < v <= hi
  }

  /** Mid-round: `seen` was delivered this round starting from `start`, `order` is still to come. */
  ghost predicate MidRound(o: Outcome, order: seq<nat>, seen: set<nat>, first: nat, start: nat, hi: nat) {
    && first <= start <= o.stored <= hi && !o.forced && o.applied == Upto(first, o.stored)
    && (forall v: nat :: v in seen || v in order <==> start < v <= hi)
    && (forall v: nat :: v in order ==> v !in seen)
    && (forall i, j :: 0 <= i < j < |order| ==> order[i] != order[j])
    && (forall v: nat :: v in o.parked <==> v in seen && v > o.stored)
    && (forall v: nat :: start < v <= o.stored ==> v in seen)
    && (start + 1 in seen ==> o.stored > start)
  }

  lemma TakeMidRound(o: Outcome, order: seq<nat>, seen: set<nat>, first: nat, start: nat, hi: nat, delivered: nat)
    requires order != [] && MidRound(o, order, seen, first, start, hi)
    requires delivered < MAX_GAP_WAIT || start + 1 == hi
    ensures MidRound(Take(o, order[0], delivered), order[1..], seen + {order[0]}, first, start, hi)
  {
    var v := order[0];
    assert v in order && v !in seen;
    assert v > o.stored;
    var o' := Take(o, v, delivered);
    assert IsGap(Read(o.stored), v) <==> v > o.stored + 1;
    assert o'.applied == Upto(first, o'.stored);
    forall w: nat ensures w in seen + {v} || w in order[1..] <==> start < w <= hi {
      assert w in order <==> w == v || w in order[1..];
    }
    forall w: nat | w in order[1..] ensures w !in seen + {v} {
      assert w in order;
    }
  }

  lemma {:induction false} RoundFrom(o: Outcome, order: seq<nat>, seen: set<nat>, first: nat, start: nat, hi: nat, delivered: nat)
    requires MidRound(o, order, seen, first, start, hi)
    requires delivered < MAX_GAP_WAIT || start + 1 == hi
    ensures MidRound(Round(o, order, delivered), [], seen + (set v | v in order), first, start, hi)
    decreases |order|
  {
    if order != [] {
      TakeMidRound(o, order, seen, first, start, hi, delivered);
      RoundFrom(Take(o, order[0], delivered), order[1..], seen + {order[0]}, first, start, hi, delivered);
      assert seen + {order[0]} + (set v | v in order[1..]) == seen + (set v | v in order);
    } else {
      assert seen + (set v | v in order) == seen;
    }
  }

  /** A round with anything to deliver moves at least one version on. */
  lemma OneRound(o: Outcome, order: seq<nat>, first: nat, hi: nat, delivered: nat)
    requires first <= o.stored < hi && !o.forced && o.applied == Upto(first, o.stored)
    requires Waiting(o.parked, o.stored, hi) && Delivers(order, o.parked)
    requires delivered < MAX_GAP_WAIT || o.stored + 1 == hi
    ensures var p := Round(o.(parked := {}), order, delivered);
      o.stored < p.stored <= hi && !p.forced && p.applied == Upto(first, p.stored) && Waiting(p.parked, p.stored, hi)
  {
    RoundFrom(o.(parked := {}), order, {}, first, o.stored, hi, delivered);
    assert o.stored + 1 in o.parked;
    assert o.stored + 1 in order;
  }

  /** After r rounds at least r of the versions are applied, in order, and none over a gap. */
  lemma {:induction false} RoundsFrom(o: Outcome, orders: seq<seq<nat>>, before: nat, first: nat, hi: nat)
    requires first <= o.stored <= hi && !o.forced && o.applied == Upto(first, o.stored)
    requires Waiting(o.parked, o.stored, hi) && Schedule(o, orders, before)
    requires hi - o.stored <= 1 || before + (hi - o.stored) <= MAX_GAP_WAIT
    ensures var p := Rounds(o, orders, before);
      && first <= p.stored <= hi && !p.forced && p.applied == Upto(first, p.stored) && Waiting(p.parked, p.stored, hi)
      && (p.stored == hi || p.stored >= o.stored + |orders|)
    decreases |orders|
  {
    if orders != [] {
      var p := Round(o.(parked := {}), orders[0], before + 1);
      if o.stored < hi {
        OneRound(o, orders[0], first, hi, before + 1);
      } else {
        assert forall i :: 0 <= i < |orders[0]| ==> orders[0][i] in o.parked;
      }
      RoundsFrom(p, orders[1..], before + 1, first, hi);
    }
  }

  ghost predicate Starts(o: Outcome, k: nat) {
    !o.forced && o.applied == [] && Waiting(o.parked, o.stored, o.stored + k)
  }

  /**
   With at most thirty consecutive versions outstanding, on messages delivered `before` times
   already, every schedule of rounds applies them all, in version order, within as many rounds
   as there are versions, and the hatch never applies over a gap.
   */
  lemma DisorderIsAbsorbed(o: Outcome, k: nat, orders: seq<seq<nat>>, before: nat)
    requires Starts(o, k) && before + k <= MAX_GAP_WAIT && Schedule(o, orders, before) && |orders| >= k
    ensures var p := Rounds(o, orders, before);
      p.stored == o.stored + k && p.applied == Upto(o.stored, o.stored + k) && p.parked == {} && !p.forced
  {
    RoundsFrom(o, orders, before, o.stored, o.stored + k);
    var p := Rounds(o, orders, before);
    assert p.parked == {};
  }

  // ---------------------------------------------------------------- thirty is sharp

  /** hi, hi - 1, …, lo + 1 */
  function Downto(lo: nat, hi: nat): (r: seq<nat>)
    requires lo <= hi
    ensures |r| == hi - lo && forall i :: 0 <= i < |r| ==> r[i] == hi - i
  {
    seq(hi - lo, i requires 0 <= i < hi - lo => hi - i)
  }

  /** Newest first, every round. */
  function Worst(lo: nat, hi: nat, rounds: nat): seq<seq<nat>>
    decreases rounds
  {
    if rounds == 0 || lo > hi then [] else [Downto(lo, hi)] + Worst(lo + 1, hi, rounds - 1)
  }

  lemma DowntoDelivers(lo: nat, hi: nat, waiting: set<nat>)
    requires lo <= hi && Waiting(waiting, lo, hi)
    ensures Delivers(Downto(lo, hi), waiting)
  {
    var order := Downto(lo, hi);
    forall v | v in waiting ensures v in order {
      assert order[hi - v] == v;
    }
  }

  /** Newest first, only the last delivery of the round is the next version. */
  lemma {:induction false} DescendingRound(o: Outcome, hi: nat, top: nat, delivered: nat)
    requires o.stored < hi && delivered < MAX_GAP_WAIT
    ensures var p := Round(o, Downto(o.stored, hi), delivered);
      && p.stored == o.stored + 1
      && (Waiting(o.parked, hi, top) && hi <= top ==> Waiting(p.parked, o.stored + 1, top))
    decreases hi
  {
    var order := Downto(o.stored, hi);
    var o' := Take(o, hi, delivered);
    assert order[0] == hi;
    assert order[1..] == Downto(o.stored, hi - 1);
    if o.stored + 1 < hi {
      DescendingRound(o', hi - 1, top, delivered);
    } else {
      assert Round(o', [], delivered) == o';
    }
  }

  lemma {:induction false} ForcedStays(o: Outcome, order: seq<nat>, delivered: nat)
    requires o.forced
    ensures Round(o, order, delivered).forced
    decreases |order|
  {
    if order != [] {
      ForcedStays(Take(o, order[0], delivered), order[1..], delivered);
    }
  }

  lemma {:induction false} WorstForces(o: Outcome, hi: nat, before: nat) returns (rounds: nat)
    requires Waiting(o.parked, o.stored, hi) && hi - o.stored >= 2 && before + (hi - o.stored) > MAX_GAP_WAIT
    ensures Schedule(o, Worst(o.stored, hi, rounds), before)
    ensures Rounds(o, Worst(o.stored, hi, rounds), before).forced
    decreases hi - o.stored
  {
    var order := Downto(o.stored, hi);
    var fresh_ := o.(parked := {});
    var p := Round(fresh_, order, before + 1);
    DowntoDelivers(o.stored, hi, o.parked);
    if before + 1 >= MAX_GAP_WAIT {
      rounds := 1;
      assert Worst(o.stored, hi, 1) == [order] + Worst(o.stored + 1, hi, 0);
      ForcedStays(Take(fresh_, hi, before + 1), order[1..], before + 1);
    } else {
      DescendingRound(fresh_, hi, hi, before + 1);
      var more := WorstForces(p, hi, before + 1);
      rounds := more + 1;
      assert Worst(o.stored, hi, rounds) == [order] + Worst(p.stored, hi, more);
    }
  }

  /** The bound is exact: no schedule forces a gap if and only if at most one version is
      outstanding or the outstanding versions fit in what is left of the thirty deliveries. */
  lemma ThirtyIsSharp(o: Outcome, k: nat, before: nat)
    requires Starts(o, k)
    ensures (forall orders :: Schedule(o, orders, before) ==> !Rounds(o, orders, before).forced)
       <==> k <= 1 || before + k <= 30
  {
    if k <= 1 || before + k <= MAX_GAP_WAIT {
      forall orders | Schedule(o, orders, before) ensures !Rounds(o, orders, before).forced {
        RoundsFrom(o, orders, before, o.stored, o.stored + k);
      }
    } else {
      var rounds := WorstForces(o, o.stored + k, before);
      assert Schedule(o, Worst(o.stored, o.stored + k, rounds), before);
    }
  }
}
