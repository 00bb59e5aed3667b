/**
 Progress of one durable consumer with a bounded in-flight window. The broker hands out new
 messages in stream order while the window has room, and hands an unacknowledged one back at any
 time; a parked message keeps its place in the window.
 */
module Window {
  import opened Versions
  import opened Wrappers

  /** The window of the projectors' consumers. */
  const MAX_ACK_PENDING: nat := 64

  datatype Msg = Msg(agg: nat, version: int)

  /** `cursor` messages have been delivered at least once, `tries[i]` counts deliveries. */
  datatype Consumer = Consumer(stored: map<nat, int>, cursor: nat, acked: set<nat>, tries: map<nat, nat>)

  datatype Delivery = New | Again(at: nat)

  function Stored(c: Consumer, a: nat): Applied {
    AppliedOf(if a in c.stored then Some(c.stored[a]) else None)
  }

  function Tries(c: Consumer, i: nat): nat {
    if i in c.tries then c.tries[i] else 0
  }

  /** Unacknowledged messages among the first `n`. */
  function Unacked(c: Consumer, n: nat): set<nat> {
    set i: nat | i < n && i !in c.acked
  }

  function InFlight(c: Consumer): set<nat> {
    Unacked(c, c.cursor)
  }

  /** Nothing is acknowledged before it is delivered, and the window is respected. */
  ghost predicate Valid(msgs: seq<Msg>, c: Consumer, window: nat) {
    && c.cursor <= |msgs| && |InFlight(c)| <= window
    && (forall i :: i in c.acked ==> i < c.cursor)
    && (forall i: nat :: i >= c.cursor ==> Tries(c, i) == 0)
  }

  predicate Can(msgs: seq<Msg>, c: Consumer, d: Delivery, window: nat) {
    match d
    case New => c.cursor < |msgs| && |InFlight(c)| < window
    case Again(i) => i < c.cursor && i < |msgs| && i !in c.acked
  }

  function Index(c: Consumer, d: Delivery): nat {
    match d
    case New => c.cursor
    case Again(i) => i
  }

  /** The gate's answer to a delivery. */
  function Answer(msgs: seq<Msg>, c: Consumer, d: Delivery): Decision
    requires Index(c, d) < |msgs|
  {
    var m := msgs[Index(c, d)];
    Decide(Stored(c, m.agg), m.version, Tries(c, Index(c, d)) + 1)
  }

  predicate Gap(msgs: seq<Msg>, c: Consumer, i: nat)
    requires i < |msgs|
  {
    IsGap(Stored(c, msgs[i].agg), msgs[i].version)
  }

  function Hand(msgs: seq<Msg>, c: Consumer, d: Delivery): Consumer
    requires Index(c, d) < |msgs|
  {
    var i := Index(c, d);
    var seen := c.(cursor := if d.New? then c.cursor + 1 else c.cursor, tries := c.tries[i := Tries(c, i) + 1]);
    match Answer(msgs, c, d)
    case Apply => seen.(stored := c.stored[msgs[i].agg := SetVersion(if msgs[i].agg in c.stored then c.stored[msgs[i].agg] else 0, msgs[i].version)],
                      acked := c.acked + {i})
    case Skip => seen.(acked := c.acked + {i})
    case Park => seen
  }

  /** A run of deliveries that all park. */
  ghost predicate AllPark(msgs: seq<Msg>, c: Consumer, ds: seq<Delivery>, window: nat)
    decreases |ds|
  {
    ds == [] ||
    (Can(msgs, c, ds[0], window) && Answer(msgs, c, ds[0]) == Park && AllPark(msgs, Hand(msgs, c, ds[0]), ds[1..], window))
  }

  ghost function AfterAll(msgs: seq<Msg>, c: Consumer, ds: seq<Delivery>, window: nat): Consumer
    requires AllPark(msgs, c, ds, window)
    decreases |ds|
  {
    if ds == [] then c else AfterAll(msgs, Hand(msgs, c, ds[0]), ds[1..], window)
  }

  /** The delivery applies or skips without the hatch. */
  ghost predicate Progresses(msgs: seq<Msg>, c: Consumer, d: Delivery, window: nat) {
    Can(msgs, c, d, window) && !Gap(msgs, c, Index(c, d))
  }

  /** Some sequence of parked deliveries leads to one that applies or skips without the hatch. */
  ghost predicate CanProgress(msgs: seq<Msg>, c: Consumer, window: nat) {
    exists ds, d :: AllPark(msgs, c, ds, window) && Progresses(msgs, AfterAll(msgs, c, ds, window), d, window)
  }

  /** A message that is not a gap is in flight, or has fewer unacknowledged messages before it
      than the window holds. */
  ghost predicate Reachable(msgs: seq<Msg>, c: Consumer, window: nat, i: nat) {
    i < |msgs| && i !in c.acked && !Gap(msgs, c, i) && (i < c.cursor || |Unacked(c, i)| < window)
  }

  lemma UnackedGrows(c: Consumer, m: nat, n: nat)
    requires m <= n
    ensures Unacked(c, m) <= Unacked(c, n) && |Unacked(c, m)| <= |Unacked(c, n)|
  {
    Smaller(Unacked(c, m), Unacked(c, n));
  }

  lemma {:induction false} Smaller<T>(small: set<T>, big: set<T>)
    requires small <= big
    ensures |small| <= |big|
    decreases small
  {
    if small != {} {
      var x :| x in small;
      Smaller(small - {x}, big - {x});
    }
  }

  lemma HandUnacked(msgs: seq<Msg>, c: Consumer, d: Delivery, window: nat)
    requires Valid(msgs, c, window) && Can(msgs, c, d, window)
    ensures |InFlight(Hand(msgs, c, d))| <= window
    ensures Answer(msgs, c, d) != Park ==> forall n :: Unacked(Hand(msgs, c, d), n) == Unacked(c, n) - {Index(c, d)}
  {
    var c' := Hand(msgs, c, d);
    if d.New? {
      assert Unacked(c, c.cursor + 1) == InFlight(c) + {c.cursor};
      Smaller(InFlight(c'), Unacked(c, c.cursor + 1));
    } else {
      Smaller(InFlight(c'), InFlight(c));
    }
  }

  lemma HandValid(msgs: seq<Msg>, c: Consumer, d: Delivery, window: nat)
    requires Valid(msgs, c, window) && Can(msgs, c, d, window)
    ensures Valid(msgs, Hand(msgs, c, d), window)
  {
    HandUnacked(msgs, c, d, window);
    var c' := Hand(msgs, c, d);
    forall i: nat | i >= c'.cursor ensures Tries(c', i) == 0 {
      assert Tries(c, i) == 0;
    }
  }

  /** What a delivery that parks leaves alone. */
  lemma ParkKeeps(msgs: seq<Msg>, c: Consumer, d: Delivery)
    requires Index(c, d) < |msgs| && Answer(msgs, c, d) == Park
    ensures var c' := Hand(msgs, c, d);
      && c'.stored == c.stored && c'.acked == c.acked
      && (forall n :: Unacked(c', n) == Unacked(c, n))
      && (forall i :: 0 <= i < |msgs| ==> Gap(msgs, c', i) == Gap(msgs, c, i))
      && Gap(msgs, c, Index(c, d))
  {
  }

  /** With room for it, the broker reaches the first message that is not a gap, parking
      everything before it, in exactly as many deliveries as lie between. */
  lemma {:induction false} ReachFirst(msgs: seq<Msg>, c: Consumer, window: nat, i: nat) returns (ds: seq<Delivery>, d: Delivery)
    requires Valid(msgs, c, window) && Reachable(msgs, c, window, i)
    requires forall j :: c.cursor <= j < i ==> Gap(msgs, c, j)
    ensures AllPark(msgs, c, ds, window) && Progresses(msgs, AfterAll(msgs, c, ds, window), d, window)
    ensures |ds| == if i < c.cursor then 0 else i - c.cursor
    decreases i - c.cursor
  {
    if i < c.cursor {
      ds, d := [], Again(i);
    } else if i == c.cursor {
      ds, d := [], New;
    } else {
      UnackedGrows(c, c.cursor, i);
      assert Gap(msgs, c, c.cursor);
      var c' := Hand(msgs, c, New);
      ParkKeeps(msgs, c, New);
      HandValid(msgs, c, New, window);
      var rest;
      rest, d := ReachFirst(msgs, c', window, i);
      ds := [New] + rest;
      assert ds[1..] == rest;
    }
  }

  lemma {:induction false} FirstReachable(msgs: seq<Msg>, c: Consumer, window: nat, i: nat) returns (j: nat)
    requires Reachable(msgs, c, window, i) && (forall k :: k in c.acked ==> k < c.cursor)
    ensures j <= i && Reachable(msgs, c, window, j) && forall k :: c.cursor <= k < j ==> Gap(msgs, c, k)
    decreases i
  {
    if k: nat :| c.cursor <= k < i && !Gap(msgs, c, k) {
      UnackedGrows(c, k, i);
      j := FirstReachable(msgs, c, window, k);
    } else {
      j := i;
    }
  }

  /** When nothing is reachable, a delivery that parks leaves nothing reachable. */
  lemma BlockedStays(msgs: seq<Msg>, c: Consumer, d: Delivery, window: nat)
    requires Valid(msgs, c, window) && Can(msgs, c, d, window) && Answer(msgs, c, d) == Park
    requires forall i :: !Reachable(msgs, c, window, i)
    ensures forall i :: !Reachable(msgs, Hand(msgs, c, d), window, i)
  {
    ParkKeeps(msgs, c, d);
    var c' := Hand(msgs, c, d);
    forall i: nat ensures !Reachable(msgs, c', window, i) {
      assert !Reachable(msgs, c, window, i);
    }
  }

  lemma {:induction false} BlockedForever(msgs: seq<Msg>, c: Consumer, ds: seq<Delivery>, d: Delivery, window: nat)
    requires Valid(msgs, c, window) && AllPark(msgs, c, ds, window)
    requires forall i :: !Reachable(msgs, c, window, i)
    ensures !Progresses(msgs, AfterAll(msgs, c, ds, window), d, window)
    decreases |ds|
  {
    if ds == [] {
      if Can(msgs, c, d, window) {
        assert !Reachable(msgs, c, window, Index(c, d));
      }
    } else {
      BlockedStays(msgs, c, ds[0], window);
      HandValid(msgs, c, ds[0], window);
      BlockedForever(msgs, Hand(msgs, c, ds[0]), ds[1..], d, window);
    }
  }

  /**
   The consumer can make progress without the hatch exactly when some message that is not a gap
   is in flight or has fewer unacknowledged messages ahead of it than the window holds.
   */
  lemma ProgressIffReachable(msgs: seq<Msg>, c: Consumer, window: nat)
    requires Valid(msgs, c, window)
    ensures CanProgress(msgs, c, window) <==> exists i :: Reachable(msgs, c, window, i)
  {
    if i :| Reachable(msgs, c, window, i) {
      var j := FirstReachable(msgs, c, window, i);
      var ds, d := ReachFirst(msgs, c, window, j);
    } else {
      forall ds, d | AllPark(msgs, c, ds, window) ensures !Progresses(msgs, AfterAll(msgs, c, ds, window), d, window) {
        BlockedForever(msgs, c, ds, d, window);
      }
    }
  }

  /** The projectors' window: with fewer than 64 messages parked ahead of one that is no gap, a
      delivery that applies or skips is reachable. */
  lemma ProjectorsProgress(msgs: seq<Msg>, c: Consumer, i: nat)
    requires Valid(msgs, c, MAX_ACK_PENDING) && i < |msgs| && i !in c.acked && !Gap(msgs, c, i)
    requires |Unacked(c, i)| < 64
    ensures CanProgress(msgs, c, MAX_ACK_PENDING)
  {
    assert Reachable(msgs, c, MAX_ACK_PENDING, i);
    ProgressIffReachable(msgs, c, MAX_ACK_PENDING);
  }

  /** Every delivery that progresses leaves strictly fewer messages unacknowledged. */
  lemma ProgressDecreases(msgs: seq<Msg>, c: Consumer, d: Delivery, window: nat)
    requires Valid(msgs, c, window) && Progresses(msgs, c, d, window)
    ensures |Unacked(Hand(msgs, c, d), |msgs|)| == |Unacked(c, |msgs|)| - 1
  {
    HandUnacked(msgs, c, d, window);
    assert Index(c, d) in Unacked(c, |msgs|);
  }

  /** A window full of gaps stops the consumer: nothing applies or skips until the hatch does it. */
  lemma FullWindowBlocks(msgs: seq<Msg>, c: Consumer, window: nat)
    requires Valid(msgs, c, window) && |InFlight(c)| == window && forall i :: i in InFlight(c) ==> Gap(msgs, c, i)
    ensures !CanProgress(msgs, c, window)
  {
    forall j: nat ensures !Reachable(msgs, c, window, j) {
      if j < |msgs| && j !in c.acked {
        if j < c.cursor {
          assert j in InFlight(c);
        } else {
          UnackedGrows(c, c.cursor, j);
        }
      }
    }
    ProgressIffReachable(msgs, c, window);
  }

  /** With a window of one that is any parked message: its predecessor is never delivered. */
  lemma WindowOfOneBlocks(msgs: seq<Msg>, c: Consumer, i: nat)
    requires Valid(msgs, c, 1) && i < c.cursor && i !in c.acked && Gap(msgs, c, i)
    ensures !CanProgress(msgs, c, 1)
  {
    assert i in InFlight(c);
    forall j | j in InFlight(c) ensures j == i {
      Smaller({i, j}, InFlight(c));
    }
    assert InFlight(c) == {i};
    FullWindowBlocks(msgs, c, 1);
  }
}
