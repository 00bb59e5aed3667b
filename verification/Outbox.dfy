/**
 The transactional outbox and the relay that empties it, as the object every replica runs, and
 its place in the step system.
 */
module Outbox {
  import opened Pipeline
  import opened Wrappers

  /** One pending row. Rows leave oldest first: by `createdAt`, then by id. */
  datatype Pending<E> = Pending(id: nat, createdAt: int, env: Envelope<E>)

  type Table<E> = map<nat, Pending<E>>

  predicate Before<E>(a: Pending<E>, b: Pending<E>) {
    a.createdAt < b.createdAt || (a.createdAt == b.createdAt && a.id < b.id)
  }

  /** How relaying one row can go wrong: it never reaches the stream, or it does and then the ack
      or the delete is lost. */
  datatype Fault = NoFault | NotPublished | NotDeleted

  ghost predicate IsOldest<E>(table: Table<E>, row: Pending<E>) {
    row.id in table && table[row.id] == row && forall id :: id in table && id != row.id ==> Before(row, table[id])
  }

  /** `rows` are the first rows of the table in relay order. */
  ghost predicate Oldest<E>(table: Table<E>, rows: seq<Pending<E>>)
    decreases |rows|
  {
    rows == [] || (IsOldest(table, rows[0]) && Oldest(table - {rows[0].id}, rows[1..]))
  }

  ghost function Without<E>(table: Table<E>, rows: seq<Pending<E>>): Table<E>
    decreases |rows|
  {
    if rows == [] then table else Without(table - {rows[0].id}, rows[1..])
  }

  /** The stream after publishing one row, unless the broker drops it as a duplicate. */
  function Shipped<E(==)>(stream: seq<Message<E>>, row: Pending<E>, window: set<Envelope<E>>): seq<Message<E>> {
    if row.env in window then stream else stream + [Message(row.env, 0, false)]
  }

  /** The stream after publishing rows in order; what the duplicate window remembers is dropped. */
  function Ship<E(==)>(stream: seq<Message<E>>, rows: seq<Pending<E>>, window: set<Envelope<E>>): seq<Message<E>>
    decreases |rows|
  {
    if rows == [] then stream else
    Ship(Shipped(stream, rows[0], window), rows[1..], window)
  }

  /** Relaying some rows and then some more is relaying them all. */
  lemma {:induction false} RelayCat<E>(table: Table<E>, stream: seq<Message<E>>, window: set<Envelope<E>>,
                                       first: seq<Pending<E>>, second: seq<Pending<E>>)
    requires Oldest(table, first) && Oldest(Without(table, first), second)
    ensures Oldest(table, first + second)
    ensures Without(table, first + second) == Without(Without(table, first), second)
    ensures Ship(stream, first + second, window) == Ship(Ship(stream, first, window), second, window)
    decreases |first|
  {
    if first == [] {
      assert first + second == second;
    } else {
      RelayCat(table - {first[0].id}, Shipped(stream, first[0], window), window, first[1..], second);
      assert (first + second)[1..] == first[1..] + second;
    }
  }

  /** `done` left the table and `done` and `stuck` reached the stream, the oldest rows in order. */
  ghost predicate RelayedTo<E>(table0: Table<E>, stream0: seq<Message<E>>, done: seq<Pending<E>>, stuck: seq<Pending<E>>,
                               table: Table<E>, stream: seq<Message<E>>, window: set<Envelope<E>>) {
    Oldest(table0, done + stuck) && table == Without(table0, done) && stream == Ship(stream0, done + stuck, window)
  }

  /** A pass goes on from where it was. */
  lemma RelayedMore<E>(table0: Table<E>, stream0: seq<Message<E>>, done: seq<Pending<E>>, table1: Table<E>, stream1: seq<Message<E>>,
                       more: seq<Pending<E>>, stuck: seq<Pending<E>>, table2: Table<E>, stream2: seq<Message<E>>, window: set<Envelope<E>>)
    requires RelayedTo(table0, stream0, done, [], table1, stream1, window)
    requires RelayedTo(table1, stream1, more, stuck, table2, stream2, window)
    ensures RelayedTo(table0, stream0, done + more, stuck, table2, stream2, window)
  {
    assert done + [] == done;
    RelayCat(table0, stream0, window, done, more + stuck);
    assert done + (more + stuck) == (done + more) + stuck;
    WithoutCat(table0, done, more);
  }

  /** Relaying anything shrinks the table and keeps the rest of it. */
  lemma Shrinks<E>(table0: Table<E>, stream0: seq<Message<E>>, done: seq<Pending<E>>, table: Table<E>, stream: seq<Message<E>>,
                   window: set<Envelope<E>>)
    requires RelayedTo(table0, stream0, done, [], table, stream, window)
    ensures |table| == |table0| - |done| && forall id :: id in table ==> id in table0 && table[id] == table0[id]
  {
    assert done + [] == done;
    WithoutShrinks(table0, done);
  }

  /** The outbox table of one service and the stream its relays publish to. `window` is the events
      the broker still recognises as duplicates. */
  class OutboxRelay<E(==)> {
    var table: Table<E>
    var stream: seq<Message<E>>
    const window: set<Envelope<E>>

    /** The first writer wins: a second enqueue under one id changes nothing. */
    method Enqueue(id: nat, now: int, env: Envelope<E>)
      modifies this`table
      ensures id in old(table) ==> table == old(table)
      ensures id !in old(table) ==> table == old(table)[id := Pending(id, now, env)]
    {
      if id !in table {
        table := table[id := Pending(id, now, env)];
      }
    }

    /** `ORDER BY created_at, id LIMIT n` */
    method FirstRows(limit: nat) returns (batch: seq<Pending<E>>)
      requires forall id :: id in table ==> table[id].id == id
      ensures Oldest(table, batch) && |batch| <= limit
      ensures batch == [] ==> limit == 0 || table == map[]
    {
      batch := [];
      var rest := table;
      while rest != map[] && |batch| < limit
        invariant |batch| <= limit && Oldest(table, batch) && rest == Without(table, batch)
        invariant forall id :: id in rest ==> rest[id].id == id
        invariant batch == [] ==> rest == table
        decreases limit - |batch|
      {
        var row := OldestOf(rest);
        RelayCat(table, stream, window, batch, [row]);
        batch := batch + [row];
        rest := rest - {row.id};
      }
    }

    static method OldestOf(rows: Table<E>) returns (row: Pending<E>)
      requires rows != map[] && forall id :: id in rows ==> rows[id].id == id
      ensures IsOldest(rows, row)
    {
      var left := rows.Keys;
      var first :| first in left;
      row := rows[first];
      left := left - {first};
      while left != {}
        invariant left <= rows.Keys && row.id in rows && rows[row.id] == row && row.id !in left
        invariant forall id :: id in rows && id !in left && id != row.id ==> Before(row, rows[id])
        decreases left
      {
        var id :| id in left;
        left := left - {id};
        if Before(rows[id], row) {
          row := rows[id];
        }
      }
    }

    /** What a pass has done: `done` are the rows published and deleted, always the oldest, in
        order; `stuck` is the row published but not deleted, if there is one. */
    ghost predicate Relayed(table0: Table<E>, stream0: seq<Message<E>>, done: seq<Pending<E>>, stuck: seq<Pending<E>>)
      reads this
    {
      RelayedTo(table0, stream0, done, stuck, table, stream, window)
    }

    /** The rows of one batch; `faults(k)` is what happens to the k-th. */
    method SendBatch(batch: seq<Pending<E>>, faults: nat -> Fault, before: nat)
      returns (sent: nat, ok: bool, ghost stuck: seq<Pending<E>>)
      requires Oldest(table, batch)
      modifies this
      ensures sent <= |batch| && Relayed(old(table), old(stream), batch[..sent], stuck)
      ensures ok ==> sent == |batch| && stuck == []
      ensures !ok ==> faults(before + sent) != NoFault && |stuck| == if faults(before + sent) == NotDeleted then 1 else 0
      ensures forall k :: before <= k < before + sent ==> faults(k) == NoFault
    {
      sent, stuck := 0, [];
      while sent < |batch|
        invariant 0 <= sent <= |batch| && Oldest(table, batch[sent..]) && stuck == []
        invariant Relayed(old(table), old(stream), batch[..sent], [])
        invariant forall k :: before <= k < before + sent ==> faults(k) == NoFault
      {
        var row := batch[sent];
        assert batch[sent..][0] == row && batch[sent..][1..] == batch[sent + 1..];
        if faults(before + sent) == NotPublished {
          return sent, false, stuck;
        }
        assert batch[..sent] + [] == batch[..sent];
        RelayCat(old(table), old(stream), window, batch[..sent], [row]);
        assert batch[..sent] + [row] == batch[..sent + 1];
        stream := Shipped(stream, row, window);
        if faults(before + sent) == NotDeleted {
          stuck := [row];
          return sent, false, stuck;
        }
        table := table - {row.id};
        sent := sent + 1;
        assert batch[..sent] + [] == batch[..sent];
      }
      ok := true;
    }

    /**
     Publishes everything pending, oldest first, in batches, until the table is empty or something
     fails. Never more than one row is left published but not deleted, and it is still in the
     table.
     */
    method Drain(faults: nat -> Fault) returns (sent: nat, ok: bool, ghost done: seq<Pending<E>>, ghost stuck: seq<Pending<E>>)
      requires forall id :: id in table ==> table[id].id == id
      modifies this
      ensures Relayed(old(table), old(stream), done, stuck) && sent == |done|
      ensures ok ==> table == map[] && stuck == []
      ensures !ok ==> faults(sent) != NoFault && |stuck| == if faults(sent) == NotDeleted then 1 else 0
      ensures forall k :: 0 <= k < sent ==> faults(k) == NoFault
    {
      sent, done, stuck := 0, [], [];
      while true
        invariant Relayed(old(table), old(stream), done, []) && sent == |done| && stuck == []
        invariant forall id :: id in table ==> table[id].id == id
        invariant forall k :: 0 <= k < sent ==> faults(k) == NoFault
        decreases |table|
      {
        var batch := FirstRows(BATCH);
        if batch == [] {
          return sent, true, done, stuck;
        }
        ghost var table1, stream1 := table, stream;
        var n;
        n, ok, stuck := SendBatch(batch, faults, sent);
        RelayedMore(old(table), old(stream), done, table1, stream1, batch[..n], stuck, table, stream, window);
        done, sent := done + batch[..n], sent + n;
        if !ok {
          return sent, false, done, stuck;
        }
        assert batch[..n] == batch;
        Shrinks(table1, stream1, batch, table, stream, window);
      }
    }
  }

  lemma {:induction false} WithoutCat<E>(table: Table<E>, first: seq<Pending<E>>, second: seq<Pending<E>>)
    ensures Without(table, first + second) == Without(Without(table, first), second)
    decreases |first|
  {
    if first == [] {
      assert first + second == second;
    } else {
      WithoutCat(table - {first[0].id}, first[1..], second);
      assert (first + second)[1..] == first[1..] + second;
    }
  }

  lemma {:induction false} WithoutShrinks<E>(table: Table<E>, rows: seq<Pending<E>>)
    requires Oldest(table, rows)
    ensures |Without(table, rows)| == |table| - |rows|
    ensures Without(table, rows).Keys <= table.Keys
    ensures forall id :: id in Without(table, rows) ==> Without(table, rows)[id] == table[id]
    decreases |rows|
  {
    if rows != [] {
      var rest := table - {rows[0].id};
      assert rest.Keys == table.Keys - {rows[0].id};
      assert |rest| == |rest.Keys| && |table| == |table.Keys|;
      WithoutShrinks(rest, rows[1..]);
    }
  }

  // ---------------------------------------------------------------- the order of a pass

  lemma {:induction false} WithoutIn<E>(table: Table<E>, rows: seq<Pending<E>>, id: nat)
    ensures id in Without(table, rows) <==> id in table && forall k :: 0 <= k < |rows| ==> rows[k].id != id
    ensures id in Without(table, rows) ==> Without(table, rows)[id] == table[id]
    decreases |rows|
  {
    if rows != [] {
      WithoutIn(table - {rows[0].id}, rows[1..], id);
      assert forall k :: 0 < k < |rows| ==> rows[k] == rows[1..][k - 1];
    }
  }

  /** The oldest rows of a table leave in order of `createdAt`, then `id`. */
  lemma {:induction false} RowsInOrder<E>(table: Table<E>, rows: seq<Pending<E>>)
    requires Oldest(table, rows)
    ensures forall i :: 0 <= i < |rows| ==> rows[i].id in table && table[rows[i].id] == rows[i]
    ensures forall i, j :: 0 <= i < j < |rows| ==>
      rows[i].createdAt < rows[j].createdAt || (rows[i].createdAt == rows[j].createdAt && rows[i].id < rows[j].id)
    decreases |rows|
  {
    if rows != [] {
      var rest, tail := table - {rows[0].id}, rows[1..];
      RowsInOrder(rest, tail);
      forall j | 0 < j < |rows| ensures rows[j] == tail[j - 1] && Before(rows[0], rows[j]) && rows[j].id in rest {
        assert tail[j - 1].id in rest;
      }
    }
  }

  /** And every row that is not among them comes after all of them. */
  lemma {:induction false} RestComesAfter<E>(table: Table<E>, rows: seq<Pending<E>>, id: nat)
    requires Oldest(table, rows) && id in table && table[id].id == id && forall k :: 0 <= k < |rows| ==> rows[k].id != id
    ensures forall i :: 0 <= i < |rows| ==>
      rows[i].createdAt < table[id].createdAt || (rows[i].createdAt == table[id].createdAt && rows[i].id < id)
    decreases |rows|
  {
    if rows != [] {
      var rest, tail := table - {rows[0].id}, rows[1..];
      assert forall k :: 0 <= k < |tail| ==> tail[k] == rows[k + 1];
      RestComesAfter(rest, tail, id);
      assert Before(rows[0], table[id]);
    }
  }

  lemma InOrder<E>(table: Table<E>, rows: seq<Pending<E>>)
    requires Oldest(table, rows) && forall id :: id in table ==> table[id].id == id
    ensures forall i :: 0 <= i < |rows| ==> rows[i].id in table && table[rows[i].id] == rows[i]
    ensures forall i, j :: 0 <= i < j < |rows| ==>
      rows[i].createdAt < rows[j].createdAt || (rows[i].createdAt == rows[j].createdAt && rows[i].id < rows[j].id)
    ensures forall i, id :: 0 <= i < |rows| && id in table && (forall k :: 0 <= k < |rows| ==> rows[k].id != id) ==>
      rows[i].createdAt < table[id].createdAt || (rows[i].createdAt == table[id].createdAt && rows[i].id < id)
  {
    RowsInOrder(table, rows);
    forall id | id in table && forall k :: 0 <= k < |rows| ==> rows[k].id != id
      ensures forall i :: 0 <= i < |rows| ==>
        rows[i].createdAt < table[id].createdAt || (rows[i].createdAt == table[id].createdAt && rows[i].id < id)
    {
      RestComesAfter(table, rows, id);
    }
  }

  /** What a pass that ended as `Drain` says published: rows in order of `createdAt`, then `id`; and every
      row it left in the table, but for the stuck one, comes after all of them. */
  lemma PassInOrder<E>(table0: Table<E>, stream0: seq<Message<E>>, done: seq<Pending<E>>, stuck: seq<Pending<E>>,
                       table: Table<E>, stream: seq<Message<E>>, window: set<Envelope<E>>)
    requires RelayedTo(table0, stream0, done, stuck, table, stream, window) && |stuck| <= 1
    requires forall id :: id in table0 ==> table0[id].id == id
    ensures var rows := done + stuck;
      forall i, j | 0 <= i < j < |rows| ::
        rows[i].createdAt < rows[j].createdAt || (rows[i].createdAt == rows[j].createdAt && rows[i].id < rows[j].id)
    ensures var rows := done + stuck;
      forall i, id | 0 <= i < |rows| && id in table && (stuck == [] || stuck[0].id != id) ::
        rows[i].createdAt < table[id].createdAt || (rows[i].createdAt == table[id].createdAt && rows[i].id < id)
  {
    InOrder(table0, done + stuck);
    forall id | id in table && (stuck == [] || stuck[0].id != id)
      ensures id in table0 && table[id] == table0[id] && forall k :: 0 <= k < |done + stuck| ==> (done + stuck)[k].id != id
    {
      WithoutIn(table0, done, id);
    }
  }

  /** The aggregate's rows come in order of their versions. */
  ghost predicate Rising<E>(rows: seq<Pending<E>>, a: AggId) {
    forall i, j | 0 <= i < j < |rows| && rows[i].env.agg == a && rows[j].env.agg == a :: rows[i].env.version < rows[j].env.version
  }

  /** Time, and then id, rank the aggregate's rows as their versions do. */
  ghost predicate Ranked<E>(table: Table<E>, a: AggId) {
    forall x, y | x in table && y in table && table[x].env.agg == a && table[y].env.agg == a ::
      (table[x].createdAt < table[y].createdAt || (table[x].createdAt == table[y].createdAt && x < y)
       ==> table[x].env.version < table[y].env.version)
  }

  /** The aggregate's rows were enqueued in version order, each at a later time than the one before. */
  ghost predicate EnqueuedInOrder<E>(table: Table<E>, a: AggId) {
    forall x, y | x in table && y in table && x != y && table[x].env.agg == a && table[y].env.agg == a ::
      && table[x].env.version != table[y].env.version
      && (table[x].env.version < table[y].env.version ==> table[x].createdAt < table[y].createdAt)
  }

  lemma RankedRises<E>(table: Table<E>, a: AggId, rows: seq<Pending<E>>)
    requires Oldest(table, rows) && Ranked(table, a) && forall id :: id in table ==> table[id].id == id
    ensures Rising(rows, a)
    ensures forall i, id | 0 <= i < |rows| && id in Without(table, rows) && rows[i].env.agg == a && Without(table, rows)[id].env.agg == a ::
      rows[i].env.version < Without(table, rows)[id].env.version
  {
    InOrder(table, rows);
    forall i, id | 0 <= i < |rows| && id in Without(table, rows) && rows[i].env.agg == a && Without(table, rows)[id].env.agg == a
      ensures rows[i].env.version < Without(table, rows)[id].env.version
    {
      WithoutIn(table, rows, id);
      assert table[rows[i].id] == rows[i];
    }
  }

  /**
   Wherever a pass stops: if the rows of an aggregate were enqueued in version order, each at a later
   time than the one before, the pass publishes its versions in increasing order, and what it leaves of
   the aggregate is newer than all of them.
   */
  lemma PassInVersionOrder<E>(table: Table<E>, stream: seq<Message<E>>, window: set<Envelope<E>>, a: AggId,
                              done: seq<Pending<E>>, stuck: seq<Pending<E>>)
    requires Oldest(table, done + stuck) && EnqueuedInOrder(table, a) && forall id :: id in table ==> table[id].id == id
    ensures var after := Ship(stream, done + stuck, window);
      && |stream| <= |after| && after[..|stream|] == stream
      && forall p, q | |stream| <= p < q < |after| && after[p].env.agg == a && after[q].env.agg == a ::
           after[p].env.version < after[q].env.version
    ensures Rising(done + stuck, a)
    ensures var left := Without(table, done + stuck);
      forall i, id | 0 <= i < |done + stuck| && id in left && (done + stuck)[i].env.agg == a && left[id].env.agg == a ::
        (done + stuck)[i].env.version < left[id].env.version
  {
    forall x, y | x in table && y in table && table[x].env.agg == a && table[y].env.agg == a
      ensures table[x].createdAt < table[y].createdAt || (table[x].createdAt == table[y].createdAt && x < y)
              ==> table[x].env.version < table[y].env.version
    {
    }
    RankedRises(table, a, done + stuck);
    var low := LowBound(done + stuck);
    ShippedInOrder(stream, done + stuck, window, a, low);
  }

  lemma {:induction false} LowBound<E>(rows: seq<Pending<E>>) returns (low: int)
    ensures forall i | 0 <= i < |rows| :: low < rows[i].env.version
  {
    if rows == [] {
      low := 0;
    } else {
      var rest := LowBound(rows[1..]);
      low := if rest < rows[0].env.version - 1 then rest else rows[0].env.version - 1;
      assert forall i | 0 < i < |rows| :: rows[i] == rows[1..][i - 1];
    }
  }

  /** A pass that empties the table publishes an aggregate's versions in increasing order if and only if
      time, and then id, rank its rows as their versions do. */
  lemma VersionOrderIff<E>(table: Table<E>, a: AggId, rows: seq<Pending<E>>)
    requires Oldest(table, rows) && Without(table, rows) == map[] && forall id :: id in table ==> table[id].id == id
    ensures Rising(rows, a) <==> Ranked(table, a)
  {
    if Ranked(table, a) {
      RankedRises(table, a, rows);
    }
    if Rising(rows, a) {
      forall x, y | x in table && y in table && table[x].env.agg == a && table[y].env.agg == a &&
                    (table[x].createdAt < table[y].createdAt || (table[x].createdAt == table[y].createdAt && x < y))
        ensures table[x].env.version < table[y].env.version
      {
        var i := AmongRows(table, rows, x);
        var j := AmongRows(table, rows, y);
        InOrder(table, rows);
        assert i < j;
      }
    }
  }

  lemma AmongRows<E>(table: Table<E>, rows: seq<Pending<E>>, id: nat) returns (i: nat)
    requires Oldest(table, rows) && Without(table, rows) == map[] && id in table && forall id :: id in table ==> table[id].id == id
    ensures i < |rows| && rows[i] == table[id]
  {
    WithoutIn(table, rows, id);
    var k :| 0 <= k < |rows| && rows[k].id == id;
    i := k;
    InOrder(table, rows);
  }

  /** A creation time is when its transaction began. One that began first and got the row's lock last has
      the higher version under the earlier time, and leaves first. */
  lemma LateLockGoesFirst<E>(a: AggId, e: E, later: E)
    ensures var table := map[1 := Pending(1, 7, Envelope(a, 4, e)), 2 := Pending(2, 5, Envelope(a, 5, later))];
      Oldest(table, [Pending(2, 5, Envelope(a, 5, later)), Pending(1, 7, Envelope(a, 4, e))])
  {
    var first, second := Pending(2, 5, Envelope(a, 5, later)), Pending(1, 7, Envelope(a, 4, e));
    var table := map[1 := second, 2 := first];
    assert table - {2} == map[1 := second];
    assert [first, second][1..] == [second] && [second][1..] == [];
    assert IsOldest(map[1 := second], second);
  }

  /** What a pass adds to the stream keeps the order of the rows: an aggregate whose rows are relayed in
      version order is published in version order, whatever the broker drops as a duplicate. */
  lemma {:induction false} ShippedInOrder<E>(stream: seq<Message<E>>, rows: seq<Pending<E>>, window: set<Envelope<E>>, a: AggId, low: int)
    requires forall i :: 0 <= i < |rows| && rows[i].env.agg == a ==> low < rows[i].env.version
    requires forall i, j :: 0 <= i < j < |rows| && rows[i].env.agg == a && rows[j].env.agg == a ==> rows[i].env.version < rows[j].env.version
    ensures var after := Ship(stream, rows, window);
      && |stream| <= |after| && after[..|stream|] == stream
      && (forall p :: |stream| <= p < |after| && after[p].env.agg == a ==> low < after[p].env.version)
      && (forall p, q :: |stream| <= p < q < |after| && after[p].env.agg == a && after[q].env.agg == a ==> after[p].env.version < after[q].env.version)
    decreases |rows|
  {
    if rows != [] {
      var row, rest := rows[0], rows[1..];
      var next, bound := Shipped(stream, row, window), if row.env.agg == a then row.env.version else low;
      assert forall i :: 0 <= i < |rest| ==> rest[i] == rows[i + 1];
      ShippedInOrder(next, rest, window, a, bound);
      var after := Ship(next, rest, window);
      assert after[..|stream|] == after[..|next|][..|stream|];
      assert |next| > |stream| ==> after[|stream|] == after[..|next|][|stream|];
    }
  }

  // ---------------------------------------------------------------- in the step system

  ghost function EnvsOf<E>(table: Table<E>): set<Envelope<E>> {
    set id | id in table :: table[id].env
  }

  ghost function Envs<E>(rows: seq<Pending<E>>): seq<Envelope<E>> {
    seq(|rows|, i requires 0 <= i < |rows| => rows[i].env)
  }

  /** Event ids are the table's key, so no event is in it twice. */
  ghost predicate Distinct<E>(table: Table<E>) {
    forall i, j :: i in table && j in table && i != j ==> table[i].env != table[j].env
  }

  /** What the broker drops as a duplicate is in the stream. */
  ghost predicate Remembered<E>(stream: seq<Message<E>>, window: set<Envelope<E>>) {
    forall env | env in window :: InStream(stream, env)
  }

  /** The steps of one batch: `n` rows published and deleted, then perhaps one only published. */
  ghost function Sends<E>(r: RelayId, rows: seq<Pending<E>>, n: nat, stuck: bool, window: set<Envelope<E>>): seq<Action<E>>
    requires n <= |rows| && (stuck ==> n < |rows|)
    decreases n
  {
    if n > 0 then [Publish(r, rows[0].env in window), Delete(r)] + Sends(r, rows[1..], n - 1, stuck, window)
    else if stuck then [Publish(r, rows[0].env in window), RelayCrash(r)]
    else [RelayCrash(r)]
  }

  ghost function Stuck<E>(rows: seq<Pending<E>>, n: nat, stuck: bool): seq<Pending<E>>
    requires n <= |rows| && (stuck ==> n < |rows|)
  {
    if stuck then [rows[n]] else []
  }

  lemma PublishKeeps<E>(stream: seq<Message<E>>, env: Envelope<E>, window: set<Envelope<E>>)
    requires Remembered(stream, window)
    ensures Remembered(stream + [Message(env, 0, false)], window)
  {
    forall e | e in window ensures InStream(stream + [Message(env, 0, false)], e) {
      assert InStream(stream, e);
      var i :| 0 <= i < |stream| && stream[i].env == e;
      assert (stream + [Message(env, 0, false)])[i].env == e;
    }
  }

  lemma EnvsWithout<E>(table: Table<E>, id: nat)
    requires Distinct(table) && id in table
    ensures EnvsOf(table - {id}) == EnvsOf(table) - {table[id].env} && Distinct(table - {id})
  {
    var rest := table - {id};
    forall env ensures env in EnvsOf(rest) <==> env in EnvsOf(table) - {table[id].env} {
      if env in EnvsOf(table) - {table[id].env} {
        var j :| j in table && table[j].env == env;
        assert j in rest && rest[j].env == env;
      }
    }
  }

  /** The system after a relay has done with some rows: `left` is what it still has in hand. */
  ghost function Relaying<D, E>(s: State<D, E>, r: RelayId, left: seq<Pending<E>>, table: Table<E>,
                                stream: seq<Message<E>>): State<D, E> {
    s.(relays := s.relays[r := Relay(Envs(left), false)], outbox := EnvsOf(table), stream := stream)
  }

  /** One row through publish and delete is two steps of a relay. */
  lemma OneRow<D, E>(f: Projector<D, E>, s: State<D, E>, r: RelayId, table: Table<E>, rows: seq<Pending<E>>, window: set<Envelope<E>>)
    requires rows != [] && IsOldest(table, rows[0]) && Distinct(table) && s.outbox == EnvsOf(table)
    requires r in s.relays && s.relays[r] == Relay(Envs(rows), false) && Remembered(s.stream, window)
    ensures Enabled(f, s, Publish(r, rows[0].env in window))
    ensures Enabled(f, Do(f, s, Publish(r, rows[0].env in window)), Delete(r))
    ensures Do(f, Do(f, s, Publish(r, rows[0].env in window)), Delete(r)) ==
            Relaying(s, r, rows[1..], table - {rows[0].id}, Shipped(s.stream, rows[0], window))
    ensures Distinct(table - {rows[0].id}) && Remembered(Shipped(s.stream, rows[0], window), window)
  {
    EnvsWithout(table, rows[0].id);
    PublishKeeps(s.stream, rows[0].env, window);
    var one: Action<E> := Publish(r, rows[0].env in window);
    assert Envs(rows)[0] == rows[0].env;
    assert Envs(rows)[1..] == Envs(rows[1..]);
    assert Do(f, Do(f, s, one), Delete(r)).relays == s.relays[r := Relay(Envs(rows[1..]), false)];
  }

  lemma TailOf<E>(rows: seq<Pending<E>>, n: nat, stuck: bool)
    requires 0 < n <= |rows| && (stuck ==> n < |rows|)
    ensures rows[..n][1..] == rows[1..][..n - 1]
    ensures (rows[..n] + Stuck(rows, n, stuck))[1..] == rows[1..][..n - 1] + Stuck(rows[1..], n - 1, stuck)
  {
  }

  /** A pass that fails before its next row is off the stream, or after it is on it. */
  lemma GiveUp<D, E>(f: Projector<D, E>, s: State<D, E>, r: RelayId, table: Table<E>, rows: seq<Pending<E>>,
                     stuck: bool, window: set<Envelope<E>>)
    requires stuck ==> rows != []
    requires r in s.relays && s.relays[r] == Relay(Envs(rows), false) && Remembered(s.stream, window) && s.outbox == EnvsOf(table)
    ensures Run(f, s, Sends(r, rows, 0, stuck, window))
    ensures After(f, s, Sends(r, rows, 0, stuck, window)) ==
            Relaying(s, r, [], table, Ship(s.stream, Stuck(rows, 0, stuck), window))
  {
    var crash: Action<E> := RelayCrash(r);
    var none: seq<Pending<E>> := [];
    assert Envs(none) == [];
    if stuck {
      var publish: Action<E> := Publish(r, rows[0].env in window);
      assert Envs(rows)[0] == rows[0].env;
      assert Ship(s.stream, [rows[0]], window) == Ship(Shipped(s.stream, rows[0], window), none, window);
      RunTwo(f, s, publish, crash);
      assert Do(f, Do(f, s, publish), crash).relays == s.relays[r := Relay(Envs(none), false)];
    } else {
      RunOne(f, s, crash);
    }
  }

  lemma {:induction false} SendsRun<D, E>(f: Projector<D, E>, s: State<D, E>, r: RelayId, table: Table<E>,
                                          rows: seq<Pending<E>>, n: nat, stuck: bool, window: set<Envelope<E>>)
    requires n <= |rows| && (stuck ==> n < |rows|)
    requires Oldest(table, rows) && Distinct(table) && s.outbox == EnvsOf(table)
    requires r in s.relays && s.relays[r] == Relay(Envs(rows), false) && Remembered(s.stream, window)
    ensures Run(f, s, Sends(r, rows, n, stuck, window))
    ensures After(f, s, Sends(r, rows, n, stuck, window)) ==
            Relaying(s, r, [], Without(table, rows[..n]), Ship(s.stream, rows[..n] + Stuck(rows, n, stuck), window))
    decreases n
  {
    if n > 0 {
      var t := Relaying(s, r, rows[1..], table - {rows[0].id}, Shipped(s.stream, rows[0], window));
      var more: seq<Action<E>> := Sends(r, rows[1..], n - 1, stuck, window);
      OneRow(f, s, r, table, rows, window);
      SendsRun(f, t, r, table - {rows[0].id}, rows[1..], n - 1, stuck, window);
      RunThen(f, s, Publish(r, rows[0].env in window), Delete(r), t, more);
      assert Sends(r, rows, n, stuck, window) == [Publish(r, rows[0].env in window), Delete(r)] + more;
      RelayingAgain(s, r, rows[1..], table - {rows[0].id}, t.stream, [], Without(table, rows[..n]), After(f, t, more).stream);
      TailOf(rows, n, stuck);
    } else {
      GiveUp(f, s, r, table, rows, stuck, window);
      assert rows[..0] == [] && rows[..0] + Stuck(rows, 0, stuck) == Stuck(rows, 0, stuck);
    }
  }

  lemma RelayingAgain<D, E>(s: State<D, E>, r: RelayId, left: seq<Pending<E>>, table: Table<E>, stream: seq<Message<E>>,
                            left': seq<Pending<E>>, table': Table<E>, stream': seq<Message<E>>)
    ensures Relaying(Relaying(s, r, left, table, stream), r, left', table', stream') == Relaying(s, r, left', table', stream')
  {
    assert s.relays[r := Relay(Envs(left), false)][r := Relay(Envs(left'), false)] == s.relays[r := Relay(Envs(left'), false)];
  }

  /**
   What `SendBatch` does to the table and the stream, however it ends, is a run of the step
   system for an idle relay: it reads the batch, publishes and deletes row by row, and gives up
   where the fault is.
   */
  lemma BatchIsARun<D, E>(f: Projector<D, E>, s: State<D, E>, r: RelayId, table: Table<E>,
                          batch: seq<Pending<E>>, sent: nat, stuck: bool, window: set<Envelope<E>>)
    requires sent <= |batch| <= BATCH && (stuck ==> sent < |batch|)
    requires Oldest(table, batch) && Distinct(table) && s.outbox == EnvsOf(table)
    requires r in s.relays && s.relays[r] == Relay([], false) && Remembered(s.stream, window)
    ensures Run(f, s, [Load(r, Envs(batch))] + Sends(r, batch, sent, stuck, window))
    ensures After(f, s, [Load(r, Envs(batch))] + Sends(r, batch, sent, stuck, window)) ==
            s.(outbox := EnvsOf(Without(table, batch[..sent])),
               stream := Ship(s.stream, batch[..sent] + Stuck(batch, sent, stuck), window))
  {
    var load: Action<E> := Load(r, Envs(batch));
    OldestIn(table, batch);
    RunOne(f, s, load);
    var t := Do(f, s, load);
    SendsRun(f, t, r, table, batch, sent, stuck, window);
    RunCat(f, s, [load], Sends(r, batch, sent, stuck, window));
    var none: seq<Pending<E>> := [];
    assert Envs(none) == [];
    assert t.relays[r := Relay(Envs(none), false)] == s.relays;
  }

  lemma {:induction false} OldestSplit<E>(table: Table<E>, first: seq<Pending<E>>, second: seq<Pending<E>>)
    requires Oldest(table, first + second)
    ensures Oldest(table, first) && Oldest(Without(table, first), second)
    decreases |first|
  {
    if first == [] {
      assert first + second == second;
    } else {
      assert (first + second)[1..] == first[1..] + second;
      OldestSplit(table - {first[0].id}, first[1..], second);
    }
  }

  lemma {:induction false} DistinctWithout<E>(table: Table<E>, rows: seq<Pending<E>>)
    requires Distinct(table) && Oldest(table, rows)
    ensures Distinct(Without(table, rows))
    decreases |rows|
  {
    if rows != [] {
      EnvsWithout(table, rows[0].id);
      DistinctWithout(table - {rows[0].id}, rows[1..]);
    }
  }

  lemma {:induction false} ShipRemembers<E>(stream: seq<Message<E>>, rows: seq<Pending<E>>, window: set<Envelope<E>>)
    requires Remembered(stream, window)
    ensures Remembered(Ship(stream, rows, window), window)
    decreases |rows|
  {
    if rows != [] {
      PublishKeeps(stream, rows[0].env, window);
      ShipRemembers(Shipped(stream, rows[0], window), rows[1..], window);
    }
  }

  /** The system after a pass that relayed `done` and left `stuck` published. */
  ghost function Passed<D, E>(s: State<D, E>, table: Table<E>, done: seq<Pending<E>>, stuck: seq<Pending<E>>,
                              window: set<Envelope<E>>): State<D, E> {
    s.(outbox := EnvsOf(Without(table, done)), stream := Ship(s.stream, done + stuck, window))
  }

  /**
   A whole pass is a run too. Whatever `Relayed` says of `Drain`, however many batches it took and
   wherever it stopped, an idle relay of the step system can do, and leaves the same outbox and the
   same stream.
   */
  lemma {:induction false} PassIsARun<D, E>(f: Projector<D, E>, s: State<D, E>, r: RelayId, table: Table<E>, done: seq<Pending<E>>,
                                            stuck: seq<Pending<E>>, window: set<Envelope<E>>) returns (acts: seq<Action<E>>)
    requires Oldest(table, done + stuck) && |stuck| <= 1 && Distinct(table) && s.outbox == EnvsOf(table)
    requires r in s.relays && s.relays[r] == Relay([], false) && Remembered(s.stream, window)
    ensures Run(f, s, acts) && After(f, s, acts) == Passed(s, table, done, stuck, window)
    decreases |done|
  {
    if |done| + |stuck| <= BATCH {
      acts := LastBatch(f, s, r, table, done, stuck, window);
    } else {
      var first, rest := done[..BATCH], done[BATCH..];
      assert done + stuck == first + (rest + stuck) && done == first + rest;
      OldestSplit(table, first, rest + stuck);
      assert first + [] == first;
      acts := LastBatch(f, s, r, table, first, [], window);
      DistinctWithout(table, first);
      ShipRemembers(s.stream, first, window);
      var more := PassIsARun(f, Passed(s, table, first, [], window), r, Without(table, first), rest, stuck, window);
      RunCat(f, s, acts, more);
      acts := acts + more;
      WithoutCat(table, first, rest);
      RelayCat(table, s.stream, window, first, rest + stuck);
    }
  }

  lemma LastBatch<D, E>(f: Projector<D, E>, s: State<D, E>, r: RelayId, table: Table<E>, done: seq<Pending<E>>,
                        stuck: seq<Pending<E>>, window: set<Envelope<E>>) returns (acts: seq<Action<E>>)
    requires |done| + |stuck| <= BATCH && |stuck| <= 1
    requires Oldest(table, done + stuck) && Distinct(table) && s.outbox == EnvsOf(table)
    requires r in s.relays && s.relays[r] == Relay([], false) && Remembered(s.stream, window)
    ensures Run(f, s, acts) && After(f, s, acts) == Passed(s, table, done, stuck, window)
  {
    var batch := done + stuck;
    BatchIsARun(f, s, r, table, batch, |done|, stuck != [], window);
    acts := [Load(r, Envs(batch))] + Sends(r, batch, |done|, stuck != [], window);
    assert batch[..|done|] == done;
    assert done + Stuck(batch, |done|, stuck != []) == batch;
  }

  lemma {:induction false} OldestIn<E>(table: Table<E>, rows: seq<Pending<E>>)
    requires Oldest(table, rows)
    ensures forall i :: 0 <= i < |rows| ==> rows[i].id in table && table[rows[i].id] == rows[i]
    decreases |rows|
  {
    if rows != [] {
      OldestIn(table - {rows[0].id}, rows[1..]);
      forall i | 0 <= i < |rows| ensures rows[i].id in table && table[rows[i].id] == rows[i] {
        if i > 0 {
          assert rows[i] == rows[1..][i - 1];
        }
      }
    }
  }
}
