/**
 The owner's writers running beside each other: sweepers, spot cancellations, renters, settled
 payments. A transaction takes its guarded writes one after the other: each locks the row it will
 write and reads it, as the transaction's own earlier writes left it. The commit makes all of them
 visible at once; an abort makes none.
 */
module Owners {
  import opened Bookings
  import opened Wrappers

  /** One guarded write of an open transaction, and the row it read under the lock. */
  datatype Held = Held(op: Op, seen: Option<Booking>)

  datatype State = State(db: Db, writers: map<nat, seq<Held>>)

  datatype Action = Take(writer: nat, op: Op) | Finish(writer: nat) | Abort(writer: nat)

  predicate Touches(work: seq<Held>, id: Id) {
    exists i :: 0 <= i < |work| && Target(work[i].op) == id
  }

  function Ops(work: seq<Held>): (ops: seq<Op>)
    ensures |ops| == |work|
  {
    seq(|work|, i requires 0 <= i < |work| => work[i].op)
  }

  /** The row as the transaction itself sees it. */
  function View(rows: map<Id, Booking>, work: seq<Held>, id: Id): Option<Booking> {
    if work == [] then RowOf(rows, id)
    else
      var last := work[|work| - 1];
      if Target(last.op) != id then View(rows, work[..|work| - 1], id)
      else
        match Outcome(last.seen, last.op)
        case None => last.seen
        case Some((row, _)) => Some(row)
  }

  /** The pending writes, stored in order. */
  function StoreAll(db: Db, work: seq<Held>): Db {
    if work == [] then db
    else
      var last := work[|work| - 1];
      Store(StoreAll(db, work[..|work| - 1]), Target(last.op), Outcome(last.seen, last.op))
  }

  /** `FOR UPDATE` keeps every other writer off the row; nobody but its creator knows the id of a
      booking that is not committed yet. A wait that would be circular ends in an abort. */
  ghost predicate Enabled(s: State, act: Action) {
    act.writer in s.writers &&
    match act
    case Take(w, op) => forall k :: k in s.writers && k != w ==> !Touches(s.writers[k], Target(op))
    case Finish(w) => true
    case Abort(w) => true
  }

  ghost function Do(s: State, act: Action): State
    requires Enabled(s, act)
  {
    match act
    case Take(w, op) => s.(writers := s.writers[w := s.writers[w] + [Held(op, View(s.db.rows, s.writers[w], Target(op)))]])
    case Finish(w) => State(StoreAll(s.db, s.writers[w]), s.writers[w := []])
    case Abort(w) => s.(writers := s.writers[w := []])
  }

  ghost predicate Run(s: State, acts: seq<Action>)
    decreases |acts|
  {
    acts == [] || (Enabled(s, acts[0]) && Run(Do(s, acts[0]), acts[1..]))
  }

  ghost function After(s: State, acts: seq<Action>): State
    requires Run(s, acts)
    decreases |acts|
  {
    if acts == [] then s else After(Do(s, acts[0]), acts[1..])
  }

  /** Whole transactions of one write each, one after the other. */
  function TxAll(db: Db, ops: seq<Op>): Db {
    if ops == [] then db else Tx(TxAll(db, ops[..|ops| - 1]), ops[|ops| - 1])
  }

  lemma {:induction false} TxAllCat(db: Db, first: seq<Op>, second: seq<Op>)
    ensures TxAll(db, first + second) == TxAll(TxAll(db, first), second)
    decreases |second|
  {
    if second == [] {
      assert first + second == first;
    } else {
      TxAllCat(db, first, second[..|second| - 1]);
      assert (first + second)[..|first + second| - 1] == first + second[..|second| - 1];
    }
  }

  lemma {:induction false} TxAllGapless(db: Db, ops: seq<Op>)
    requires forall id :: Gapless(db, id)
    ensures forall id :: Gapless(TxAll(db, ops), id)
  {
    if ops != [] {
      var before := TxAll(db, ops[..|ops| - 1]);
      TxAllGapless(db, ops[..|ops| - 1]);
      forall id: Id ensures Gapless(TxAll(db, ops), id) {
        TxGapless(before, ops[|ops| - 1], id);
      }
    }
  }

  /** What a row becomes depends on that row alone. */
  lemma {:induction false} TxAllRow(db: Db, other: Db, ops: seq<Op>, id: Id)
    requires RowOf(db.rows, id) == RowOf(other.rows, id)
    ensures RowOf(TxAll(db, ops).rows, id) == RowOf(TxAll(other, ops).rows, id)
  {
    if ops != [] {
      TxAllRow(db, other, ops[..|ops| - 1], id);
    }
  }

  /** A row nobody writes stays. */
  lemma {:induction false} TxAllAway(db: Db, ops: seq<Op>, id: Id)
    requires forall i :: 0 <= i < |ops| ==> Target(ops[i]) != id
    ensures RowOf(TxAll(db, ops).rows, id) == RowOf(db.rows, id)
  {
    if ops != [] {
      TxAllAway(db, ops[..|ops| - 1], id);
    }
  }

  /** Every write read what the transactions of the writes before it would have left. */
  ghost predicate Fresh(db: Db, work: seq<Held>) {
    forall i :: 0 <= i < |work| ==> work[i].seen == RowOf(TxAll(db, Ops(work[..i])).rows, Target(work[i].op))
  }

  lemma FreshFront(db: Db, work: seq<Held>)
    requires Fresh(db, work) && work != []
    ensures Fresh(db, work[..|work| - 1])
    ensures Ops(work) == Ops(work[..|work| - 1]) + [work[|work| - 1].op]
  {
    var front := work[..|work| - 1];
    forall i | 0 <= i < |front| ensures front[i].seen == RowOf(TxAll(db, Ops(front[..i])).rows, Target(front[i].op)) {
      assert front[..i] == work[..i];
    }
  }

  /** Storing what was decided under the locks is running the transactions one after the other. */
  lemma {:induction false} StoredIsTxAll(db: Db, work: seq<Held>)
    requires Fresh(db, work)
    ensures StoreAll(db, work) == TxAll(db, Ops(work))
  {
    if work != [] {
      var front, last := work[..|work| - 1], work[|work| - 1];
      FreshFront(db, work);
      StoredIsTxAll(db, front);
      assert (Ops(front) + [last.op])[..|front|] == Ops(front);
    }
  }

  lemma {:induction false} ViewIsTxAll(db: Db, work: seq<Held>, id: Id)
    requires Fresh(db, work)
    ensures View(db.rows, work, id) == RowOf(TxAll(db, Ops(work)).rows, id)
  {
    if work != [] {
      var front, last := work[..|work| - 1], work[|work| - 1];
      FreshFront(db, work);
      ViewIsTxAll(db, front, id);
      assert (Ops(front) + [last.op])[..|front|] == Ops(front);
    }
  }

  lemma FreshTake(db: Db, work: seq<Held>, op: Op)
    requires Fresh(db, work)
    ensures Fresh(db, work + [Held(op, View(db.rows, work, Target(op)))])
  {
    var more := work + [Held(op, View(db.rows, work, Target(op)))];
    ViewIsTxAll(db, work, Target(op));
    forall i | 0 <= i < |more| ensures more[i].seen == RowOf(TxAll(db, Ops(more[..i])).rows, Target(more[i].op)) {
      if i < |work| {
        assert more[..i] == work[..i] && more[i] == work[i];
      } else {
        assert more[..i] == work;
      }
    }
  }

  /** Another writer's commit leaves what this one read as it was. */
  lemma FreshBeside(db: Db, work: seq<Held>, ops: seq<Op>)
    requires Fresh(db, work)
    requires forall i, j :: 0 <= i < |work| && 0 <= j < |ops| ==> Target(work[i].op) != Target(ops[j])
    ensures Fresh(TxAll(db, ops), work)
  {
    forall i | 0 <= i < |work|
      ensures work[i].seen == RowOf(TxAll(TxAll(db, ops), Ops(work[..i])).rows, Target(work[i].op))
    {
      TxAllAway(db, ops, Target(work[i].op));
      TxAllRow(db, TxAll(db, ops), Ops(work[..i]), Target(work[i].op));
    }
  }

  ghost predicate Apart(writers: map<nat, seq<Held>>) {
    forall k, w, i, j :: k in writers && w in writers && k != w && 0 <= i < |writers[k]| && 0 <= j < |writers[w]| ==>
      Target(writers[k][i].op) != Target(writers[w][j].op)
  }

  ghost predicate Inv(s: State) {
    && (forall w :: w in s.writers ==> Fresh(s.db, s.writers[w]))
    && Apart(s.writers)
    && (forall id :: Gapless(s.db, id))
  }

  /** A commit does what its writes would do as whole transactions, one after the other, at that
      moment; nothing else changes the database. */
  ghost predicate Atomic(s: State, act: Action)
    requires Enabled(s, act)
  {
    Do(s, act).db == if act.Finish? then TxAll(s.db, Ops(s.writers[act.writer])) else s.db
  }

  lemma FinishStep(s: State, w: nat)
    requires Inv(s) && w in s.writers
    ensures Inv(Do(s, Finish(w))) && Atomic(s, Finish(w))
  {
    StoredIsTxAll(s.db, s.writers[w]);
    TxAllGapless(s.db, Ops(s.writers[w]));
    forall k | k in s.writers && k != w ensures Fresh(TxAll(s.db, Ops(s.writers[w])), s.writers[k]) {
      FreshBeside(s.db, s.writers[k], Ops(s.writers[w]));
    }
  }

  lemma Step(s: State, act: Action)
    requires Inv(s) && Enabled(s, act)
    ensures Inv(Do(s, act)) && Atomic(s, act)
  {
    match act
    case Take(w, op) => FreshTake(s.db, s.writers[w], op);
    case Finish(w) => FinishStep(s, w);
    case Abort(w) =>
  }

  /** A transaction may give up at any time, and it is as if it had never begun. */
  lemma AbortUndoes(s: State, w: nat)
    requires w in s.writers
    ensures Enabled(s, Abort(w)) && Do(s, Abort(w)) == State(s.db, s.writers[w := []])
  {
  }

  /** The writes that commit, in commit order. */
  ghost function Committed(s: State, acts: seq<Action>): seq<Op>
    requires Run(s, acts)
    decreases |acts|
  {
    if acts == [] then [] else
    (if acts[0].Finish? then Ops(s.writers[acts[0].writer]) else []) + Committed(Do(s, acts[0]), acts[1..])
  }

  /**
   Under any interleaving, with aborts anywhere, the database is what the committed writes make of
   it one after the other, and every booking has exactly one enqueued event for each of its
   versions: the ones its row is the replay of.
   */
  lemma {:induction false} WritersStayGapless(s: State, acts: seq<Action>)
    requires Inv(s) && Run(s, acts)
    ensures Inv(After(s, acts)) && After(s, acts).db == TxAll(s.db, Committed(s, acts))
    decreases |acts|
  {
    if acts != [] {
      Step(s, acts[0]);
      WritersStayGapless(Do(s, acts[0]), acts[1..]);
      TxAllCat(s.db, if acts[0].Finish? then Ops(s.writers[acts[0].writer]) else [], Committed(Do(s, acts[0]), acts[1..]));
    }
  }

  /** An empty database with idle writers is where every deployment starts. */
  lemma EmptyInv(writers: map<nat, seq<Held>>)
    requires forall w :: w in writers ==> writers[w] == []
    ensures Inv(State(Db(map[], []), writers))
  {
  }

  /** One transition over a list of bookings is such a sequence of writes, whether each commits on
      its own, as in a sweep, or all together, as in the reaction to a spot's edit. */
  function Transitions(m: Move, ids: seq<Id>, skip: set<Id>): seq<Op> {
    if ids == [] then []
    else Transitions(m, ids[..|ids| - 1], skip) + if ids[|ids| - 1] in skip then [] else [Transition(ids[|ids| - 1], m)]
  }

  lemma {:induction false} MoveAllIsTxAll(db: Db, m: Move, ids: seq<Id>, skip: set<Id>)
    ensures MoveAll(db, m, ids, skip) == TxAll(db, Transitions(m, ids, skip))
  {
    if ids != [] {
      MoveAllIsTxAll(db, m, ids[..|ids| - 1], skip);
      TxAllCat(db, Transitions(m, ids[..|ids| - 1], skip), if ids[|ids| - 1] in skip then [] else [Transition(ids[|ids| - 1], m)]);
      assert [Transition(ids[|ids| - 1], m)][..0] == [];
    }
  }
}
