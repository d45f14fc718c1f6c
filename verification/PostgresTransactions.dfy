/** Interleaved PostgreSQL transactions (src/db/postgres-driver.ts, contract in src/db/driver.ts):
    each may lock a key, read the last row under that key and insert a row chained onto it. */
module PostgresTransactions {
  import opened Options

  /** `prev` is the id of the row this one chains onto. */
  datatype Row = Row(id: nat, prev: Option<nat>, value: string)
  datatype Entry = Entry(key: string, row: Row)

  /** `last` holds the answers to reads that no insert has used yet. */
  datatype Tx =
    | Active(held: set<int>, last: map<string, Option<nat>>, pending: seq<Entry>)
    | Committed
    | RolledBack

  /** `table` holds the committed rows in commit order; `owner[id]` is the transaction that drew
      `id` from the id sequence, which a rollback does not give back. */
  datatype State = State(table: seq<Entry>, txs: seq<Tx>, owner: seq<nat>)

  datatype Event =
    | Begin
    | LockForWrite(tx: nat, key: string)
    | ReadLast(tx: nat, key: string)
    | Insert(tx: nat, key: string, value: string)
    | Commit(tx: nat)
    | Rollback(tx: nat)

  const INITIAL: State := State([], [], [])

  predicate IsActive(s: State, t: nat) {
    t < |s.txs| && s.txs[t].Active?
  }

  predicate Holds(s: State, t: nat, lock: int) {
    IsActive(s, t) && lock in s.txs[t].held
  }

  function Rows(entries: seq<Entry>, key: string): seq<Row> {
    if entries == [] then []
    else
      var before, last := Rows(entries[..|entries| - 1], key), entries[|entries| - 1];
      if last.key == key then before + [last.row] else before
  }

  /** `ORDER BY id DESC LIMIT 1`. */
  function GreatestId(rows: seq<Row>): Option<nat> {
    if rows == [] then None
    else
      var before, id := GreatestId(rows[..|rows| - 1]), rows[|rows| - 1].id;
      if before.Some? && before.value > id then before else Some(id)
  }

  /** What transaction `t` sees under READ COMMITTED: committed rows and its own. */
  function Visible(s: State, t: nat, key: string): seq<Row>
    requires IsActive(s, t)
  {
    Rows(s.table + s.txs[t].pending, key)
  }

  /** `hash` maps a lock key to the advisory lock's number and may collide. With `locking`,
      callers lock a key before reading under it, as the contract demands. */
  predicate Enabled(s: State, e: Event, hash: string -> int, locking: bool) {
    match e
    case Begin => true
    case LockForWrite(t, key) => IsActive(s, t) && forall u | 0 <= u < |s.txs| && u != t :: !Holds(s, u, hash(key))
    case ReadLast(t, key) => IsActive(s, t) && (locking ==> hash(key) in s.txs[t].held)
    case Insert(t, key, _) => IsActive(s, t) && key in s.txs[t].last
    case Commit(t) => IsActive(s, t)
    case Rollback(t) => IsActive(s, t)
  }

  function Next(s: State, e: Event, hash: string -> int, locking: bool): State
    requires Enabled(s, e, hash, locking)
  {
    match e
    case Begin => s.(txs := s.txs + [Active({}, map[], [])])
    case LockForWrite(t, key) =>
      s.(txs := s.txs[t := s.txs[t].(held := s.txs[t].held + {hash(key)})])
    case ReadLast(t, key) =>
      s.(txs := s.txs[t := s.txs[t].(last := s.txs[t].last[key := GreatestId(Visible(s, t, key))])])
    case Insert(t, key, value) =>
      var tx := s.txs[t];
      var row := Row(|s.owner|, tx.last[key], value);
      s.(txs := s.txs[t := tx.(last := tx.last - {key}, pending := tx.pending + [Entry(key, row)])],
         owner := s.owner + [t])
    case Commit(t) => s.(table := s.table + s.txs[t].pending, txs := s.txs[t := Committed])
    case Rollback(t) => s.(txs := s.txs[t := RolledBack])
  }

  predicate CanRun(s: State, events: seq<Event>, hash: string -> int, locking: bool)
    decreases events
  {
    events == [] ||
    (Enabled(s, events[0], hash, locking) && CanRun(Next(s, events[0], hash, locking), events[1..], hash, locking))
  }

  function After(s: State, events: seq<Event>, hash: string -> int, locking: bool): State
    requires CanRun(s, events, hash, locking)
    decreases events
  {
    if events == [] then s else After(Next(s, events[0], hash, locking), events[1..], hash, locking)
  }

  // ----- One call -----

  /** What a call sends when nothing fails. */
  function Script(t: nat, body: seq<Event>): seq<Event> {
    [Begin] + body + [Commit(t)]
  }

  lemma ScriptEnds(t: nat, body: seq<Event>)
    ensures var script := Script(t, body);
            && |script| == |body| + 2 && script[..1] == [Begin] && script[..|body| + 1] + [Commit(t)] == script
            && script[..|body| + 2] == script
  {
  }

  lemma ScriptNext(t: nat, body: seq<Event>, n: nat)
    requires 0 < n <= |body|
    ensures Script(t, body)[..n] + [body[n - 1]] == Script(t, body)[..n + 1]
  {
    assert Script(t, body)[n] == body[n - 1];
  }

  /** How many of the first n statements the server performs: one that fails aborts the
      transaction, and everything after it fails too. */
  function Performed(n: nat, fails: nat -> bool): (k: nat)
    ensures k <= n
  {
    if n == 0 then 0
    else
      var before := Performed(n - 1, fails);
      if before == n - 1 && !fails(n - 1) then n else before
  }

  /** The callback goes on after its i-th statement: that has worked, which takes that no earlier one
      has failed, or its error is caught. */
  ghost predicate GoesOn(i: nat, fails: nat -> bool, caught: nat -> bool) {
    (forall j | 0 <= j <= i :: !fails(j)) || caught(i)
  }

  /** Why a call stops after sending n statements: BEGIN or COMMIT fails, the callback lets an
      error through, or it throws when its statements are done. */
  ghost predicate StopsAfter(n: nat, size: nat, throws: bool, fails: nat -> bool, caught: nat -> bool) {
    && 0 < n <= size && (n > 1 ==> !fails(0))
    && (forall i | 1 <= i < n - 1 && i < size - 1 :: GoesOn(i, fails, caught))
    && (|| (n == 1 && fails(0))
        || (1 < n < size && !GoesOn(n - 1, fails, caught))
        || (n == size - 1 && throws)
        || (n == size && !throws && fails(n - 1)))
  }

  /** A client on loan from the pool. */
  class PoolClient {
    var sent: seq<Event>
    var released: bool

    constructor ()
      ensures sent == [] && !released
    {
      sent, released := [], false;
    }

    /** `transaction`: BEGIN, the callback's statements, COMMIT; on any error that reaches it,
        ROLLBACK instead of the rest; the client always goes back. `fails(i)` says whether the i-th
        statement errs by itself, `caught(i)` whether the callback catches its error and goes on,
        and `throws` whether the callback throws at its end. COMMIT of an aborted transaction does
        not fail: the server rolls it back, and the call succeeds. */
    method Transaction(t: nat, body: seq<Event>, throws: bool, fails: nat -> bool, caught: nat -> bool)
      returns (ok: bool, n: nat)
      requires sent == [] && !released
      modifies this
      ensures released
      ensures ok <==>
                && !throws && !fails(0) && !fails(|body| + 1)
                && forall i | 1 <= i <= |body| :: GoesOn(i, fails, caught)
      ensures ok ==> sent == Script(t, body) && n == |sent|
      ensures !ok ==> StopsAfter(n, |body| + 2, throws, fails, caught) && sent == Script(t, body)[..n] + [Rollback(t)]
    {
      hide Script;
      ScriptEnds(t, body);
      sent := [Begin];
      n := 1;
      var aborted := fails(0);
      var failed := aborted;
      while n <= |body| && !failed
        invariant 0 < n <= |body| + 1 && sent == Script(t, body)[..n] && !released
        invariant n > 1 ==> !fails(0)
        invariant forall i | 1 <= i < n - 1 :: GoesOn(i, fails, caught)
        invariant aborted <==> exists j | 0 <= j < n :: fails(j)
        invariant failed == if n == 1 then fails(0) else !GoesOn(n - 1, fails, caught)
      {
        ScriptNext(t, body, n);
        sent := sent + [body[n - 1]];
        n := n + 1;
        aborted := aborted || fails(n - 1);
        failed := aborted && !caught(n - 1);
      }
      if !failed && !throws {
        sent := sent + [Commit(t)];
        n := n + 1;
        failed := fails(n - 1);
      }
      ok := !failed && !throws;
      if !ok {
        sent := sent + [Rollback(t)];
      }
      released := true;
    }
  }

  // ----- What a call does to the database -----

  /** Statements of transaction t that leave it open. */
  predicate IsBody(t: nat, body: seq<Event>) {
    forall e | e in body :: (e.LockForWrite? || e.ReadLast? || e.Insert?) && e.tx == t
  }

  /** The events of a call whose first k statements are performed: all of them, or those and a
      rollback, or none when BEGIN fails. */
  function Effects(t: nat, body: seq<Event>, k: nat): seq<Event>
    requires k <= |body| + 2
  {
    if k == |body| + 2 then Script(t, body)
    else if k == 0 then []
    else Script(t, body)[..k] + [Rollback(t)]
  }

  lemma {:induction false} RunConcat(s: State, a: seq<Event>, b: seq<Event>, hash: string -> int, locking: bool)
    requires CanRun(s, a, hash, locking) && CanRun(After(s, a, hash, locking), b, hash, locking)
    ensures CanRun(s, a + b, hash, locking)
    ensures After(s, a + b, hash, locking) == After(After(s, a, hash, locking), b, hash, locking)
    decreases a
  {
    hide Next, Enabled;
    if a == [] {
      assert a + b == b;
    } else {
      assert (a + b)[1..] == a[1..] + b;
      RunConcat(Next(s, a[0], hash, locking), a[1..], b, hash, locking);
    }
  }

  lemma {:induction false} RunPrefix(s: State, a: seq<Event>, b: seq<Event>, hash: string -> int, locking: bool)
    requires CanRun(s, a + b, hash, locking)
    ensures CanRun(s, a, hash, locking) && CanRun(After(s, a, hash, locking), b, hash, locking)
    decreases a
  {
    hide Next, Enabled;
    if a == [] {
      assert a + b == b;
    } else {
      assert (a + b)[0] == a[0] && (a + b)[1..] == a[1..] + b;
      RunPrefix(Next(s, a[0], hash, locking), a[1..], b, hash, locking);
    }
  }

  /** The statements of a body keep the transaction open, and touch neither the table nor any
      other transaction. */
  lemma {:induction false} BodyStaysOpen(s: State, t: nat, body: seq<Event>, hash: string -> int, locking: bool)
    requires IsActive(s, t) && IsBody(t, body) && CanRun(s, body, hash, locking)
    ensures var u := After(s, body, hash, locking);
            && IsActive(u, t) && u.table == s.table && |u.txs| == |s.txs|
            && forall i | 0 <= i < |s.txs| && i != t :: u.txs[i] == s.txs[i]
    decreases body
  {
    hide GreatestId, Visible;
    if body != [] {
      assert body[0] in body;
      BodyStaysOpen(Next(s, body[0], hash, locking), t, body[1..], hash, locking);
    }
  }

  lemma OneStep(s: State, e: Event, hash: string -> int, locking: bool)
    requires Enabled(s, e, hash, locking)
    ensures CanRun(s, [e], hash, locking) && After(s, [e], hash, locking) == Next(s, e, hash, locking)
  {
    hide Next, Enabled;
  }

  /** All statements are performed exactly when none errs. So a call that succeeds has committed
      exactly then: after an error that the callback catches it succeeds and commits nothing. */
  lemma {:induction false} PerformedAllIff(n: nat, fails: nat -> bool)
    ensures Performed(n, fails) == n <==> forall i | 0 <= i < n :: !fails(i)
    ensures Performed(n, fails) < n ==> fails(Performed(n, fails))
  {
    if n > 0 {
      PerformedAllIff(n - 1, fails);
    }
  }

  /** A call that could run to its end is a run of the machine however far it gets: committed as
      a whole when every statement is performed, and otherwise without a trace in the table or in
      any other transaction. */
  lemma CallIsRun(s: State, t: nat, body: seq<Event>, k: nat, hash: string -> int, locking: bool)
    requires t == |s.txs| && IsBody(t, body) && CanRun(s, Script(t, body), hash, locking) && k <= |body| + 2
    ensures CanRun(s, Effects(t, body, k), hash, locking)
    ensures var u := After(s, Effects(t, body, k), hash, locking);
            && s.txs <= u.txs
            && (k == |body| + 2 ==> IsCommitted(u, t))
            && (k < |body| + 2 ==> u.table == s.table && !IsCommitted(u, t) && !IsActive(u, t))
  {
    if 0 < k < |body| + 2 {
      AbortedCall(s, t, body, k, hash, locking);
    } else if k > 0 {
      CommittedCall(s, t, body, hash, locking);
    }
  }

  predicate IsCommitted(s: State, t: nat) {
    t < |s.txs| && s.txs[t].Committed?
  }

  lemma BegunCall(s: State, t: nat, body: seq<Event>, some: nat, hash: string -> int, locking: bool)
    requires t == |s.txs| && IsBody(t, body) && CanRun(s, Script(t, body), hash, locking) && some <= |body|
    ensures CanRun(s, [Begin] + body[..some], hash, locking)
    ensures var u := After(s, [Begin] + body[..some], hash, locking);
            IsActive(u, t) && u.table == s.table && |u.txs| == t + 1 && s.txs <= u.txs
    ensures CanRun(After(s, [Begin] + body[..some], hash, locking), body[some..] + [Commit(t)], hash, locking)
  {
    var first, rest := [Begin] + body[..some], body[some..] + [Commit(t)];
    assert Script(t, body) == first + rest;
    RunPrefix(s, first, rest, hash, locking);
    RunPrefix(s, [Begin], body[..some], hash, locking);
    OneStep(s, Begin, hash, locking);
    var open := Next(s, Begin, hash, locking);
    RunConcat(s, [Begin], body[..some], hash, locking);
    BodyStaysOpen(open, t, body[..some], hash, locking);
    hide CanRun, After;
    assert s.txs <= After(s, first, hash, locking).txs;
  }

  lemma AbortedCall(s: State, t: nat, body: seq<Event>, k: nat, hash: string -> int, locking: bool)
    requires t == |s.txs| && IsBody(t, body) && CanRun(s, Script(t, body), hash, locking) && 0 < k < |body| + 2
    ensures CanRun(s, Effects(t, body, k), hash, locking)
    ensures var u := After(s, Effects(t, body, k), hash, locking);
            s.txs <= u.txs && u.table == s.table && |u.txs| == t + 1 && u.txs[t] == RolledBack
  {
    assert Script(t, body)[..k] == [Begin] + body[..k - 1];
    hide CanRun, After;
    BegunCall(s, t, body, k - 1, hash, locking);
    var open := After(s, [Begin] + body[..k - 1], hash, locking);
    OneStep(open, Rollback(t), hash, locking);
    RunConcat(s, [Begin] + body[..k - 1], [Rollback(t)], hash, locking);
  }

  lemma CommittedCall(s: State, t: nat, body: seq<Event>, hash: string -> int, locking: bool)
    requires t == |s.txs| && IsBody(t, body) && CanRun(s, Script(t, body), hash, locking)
    ensures var u := After(s, Script(t, body), hash, locking);
            s.txs <= u.txs && IsCommitted(u, t)
  {
    assert body[..|body|] == body && body[|body|..] == [] && [] + [Commit(t)] == [Commit(t)];
    assert Script(t, body) == ([Begin] + body) + [Commit(t)];
    hide CanRun, After;
    BegunCall(s, t, body, |body|, hash, locking);
    var open := After(s, [Begin] + body, hash, locking);
    OneStep(open, Commit(t), hash, locking);
    RunConcat(s, [Begin] + body, [Commit(t)], hash, locking);
  }

  // ----- What must hold -----

  /** Row `i` chains onto the row before it and has a greater id. */
  predicate Linked(rows: seq<Row>, i: nat)
    requires i < |rows|
  {
    && rows[i].prev == (if i == 0 then None else Some(rows[i - 1].id))
    && (i > 0 ==> rows[i - 1].id < rows[i].id)
  }

  predicate Linear(rows: seq<Row>) {
    forall i | 0 <= i < |rows| :: Linked(rows, i)
  }

  datatype Write = Write(key: string, id: nat, value: string)

  function WritesOf(entries: seq<Entry>): seq<Write> {
    if entries == [] then []
    else
      var last := entries[|entries| - 1];
      WritesOf(entries[..|entries| - 1]) + [Write(last.key, last.row.id, last.row.value)]
  }

  /** The writes made one at a time, each reading the last row just before it inserts. */
  function Serially(writes: seq<Write>): seq<Entry> {
    if writes == [] then []
    else
      var before, w := Serially(writes[..|writes| - 1]), writes[|writes| - 1];
      before + [Entry(w.key, Row(w.id, GreatestId(Rows(before, w.key)), w.value))]
  }

  ghost predicate IdsBelow(entries: seq<Entry>, n: nat) {
    forall i | 0 <= i < |entries| :: entries[i].row.id < n
  }

  /** A lock has at most one holder. */
  ghost predicate Exclusive(s: State) {
    forall t: nat, u: nat, lock: int | Holds(s, t, lock) && Holds(s, u, lock) :: t == u
  }

  /** What an active transaction is doing under one key: nothing without its lock, and with it
      a chain that continues the committed one from where its last read looked. */
  ghost predicate KeyGood(table: seq<Entry>, tx: Tx, key: string, hash: string -> int)
    requires tx.Active?
  {
    && (hash(key) !in tx.held ==> key !in tx.last && Rows(tx.pending, key) == [])
    && Linear(Rows(table + tx.pending, key))
    && (key in tx.last ==> tx.last[key] == GreatestId(Rows(table + tx.pending, key)))
  }

  ghost predicate TxGood(s: State, t: nat, hash: string -> int)
    requires IsActive(s, t)
  {
    && IdsBelow(s.txs[t].pending, |s.owner|)
    && forall key: string :: KeyGood(s.table, s.txs[t], key, hash)
  }

  ghost predicate Inv(s: State, hash: string -> int) {
    && IdsBelow(s.table, |s.owner|)
    && (forall key: string :: Linear(Rows(s.table, key)))
    && Exclusive(s)
    && forall t: nat | IsActive(s, t) :: TxGood(s, t, hash)
  }

  // ----- Rows -----

  lemma {:induction false} RowsConcat(a: seq<Entry>, b: seq<Entry>, key: string)
    ensures Rows(a + b, key) == Rows(a, key) + Rows(b, key)
  {
    if b == [] {
      assert a + b == a;
    } else {
      assert (a + b)[..|a + b| - 1] == a + b[..|b| - 1];
      RowsConcat(a, b[..|b| - 1], key);
    }
  }

  lemma RowsSnoc(a: seq<Entry>, e: Entry, key: string)
    ensures Rows(a + [e], key) == if e.key == key then Rows(a, key) + [e.row] else Rows(a, key)
  {
    assert (a + [e])[..|a + [e]| - 1] == a;
  }

  lemma {:induction false} RowsIdsBelow(entries: seq<Entry>, key: string, n: nat)
    requires IdsBelow(entries, n)
    ensures forall i | 0 <= i < |Rows(entries, key)| :: Rows(entries, key)[i].id < n
  {
    if entries != [] {
      RowsIdsBelow(entries[..|entries| - 1], key, n);
    }
  }

  /** In a chain the greatest id is the last one. */
  lemma {:induction false} LinearGreatest(rows: seq<Row>)
    requires Linear(rows)
    ensures GreatestId(rows) == if rows == [] then None else Some(rows[|rows| - 1].id)
  {
    if rows != [] {
      assert rows == rows[..|rows| - 1] + rows[|rows| - 1..];
      LinearPrefix(rows[..|rows| - 1], rows[|rows| - 1..]);
      LinearGreatest(rows[..|rows| - 1]);
      assert Linked(rows, |rows| - 1);
    }
  }

  lemma LinearExtends(rows: seq<Row>, row: Row)
    requires Linear(rows) && row.prev == GreatestId(rows)
    requires forall i | 0 <= i < |rows| :: rows[i].id < row.id
    ensures Linear(rows + [row])
  {
    LinearGreatest(rows);
    hide GreatestId;
    forall i | 0 <= i < |rows + [row]| ensures Linked(rows + [row], i) {
      if i < |rows| {
        assert Linked(rows, i);
      }
    }
  }

  lemma LinearPrefix(rows: seq<Row>, more: seq<Row>)
    requires Linear(rows + more)
    ensures Linear(rows)
  {
    forall i | 0 <= i < |rows| ensures Linked(rows, i) {
      assert Linked(rows + more, i);
    }
  }

  // ----- Every step keeps the invariant -----

  lemma InsertRows(entries: seq<Entry>, key: string, row: Row, other: string)
    requires Linear(Rows(entries, other)) && IdsBelow(entries, row.id)
    requires key == other ==> row.prev == GreatestId(Rows(entries, key))
    ensures Linear(Rows(entries + [Entry(key, row)], other))
    ensures key != other ==> Rows(entries + [Entry(key, row)], other) == Rows(entries, other)
  {
    RowsSnoc(entries, Entry(key, row), other);
    hide Rows, Linear;
    if other == key {
      RowsIdsBelow(entries, key, row.id);
      LinearExtends(Rows(entries, key), row);
    }
  }

  lemma InsertKeepsKey(table: seq<Entry>, tx: Tx, key: string, value: string, id: nat, other: string,
                       hash: string -> int)
    requires tx.Active? && key in tx.last
    requires KeyGood(table, tx, key, hash) && KeyGood(table, tx, other, hash)
    requires IdsBelow(table, id) && IdsBelow(tx.pending, id)
    ensures var row := Row(id, tx.last[key], value);
            KeyGood(table, tx.(last := tx.last - {key}, pending := tx.pending + [Entry(key, row)]), other, hash)
  {
    hide Rows, Linear, GreatestId;
    var row := Row(id, tx.last[key], value);
    var pending := tx.pending + [Entry(key, row)];
    assert IdsBelow(table + tx.pending, id);
    assert table + pending == (table + tx.pending) + [Entry(key, row)];
    InsertRows(table + tx.pending, key, row, other);
    RowsSnoc(tx.pending, Entry(key, row), other);
  }

  /** A commit under locks of its own does not touch what another transaction is doing. */
  lemma CommitKeepsKey(table: seq<Entry>, tx: Tx, other: Tx, key: string, hash: string -> int)
    requires tx.Active? && other.Active? && tx.held !! other.held
    requires KeyGood(table, tx, key, hash) && KeyGood(table, other, key, hash)
    ensures KeyGood(table + tx.pending, other, key, hash)
  {
    RowsConcat(table + tx.pending, other.pending, key);
    RowsConcat(table, tx.pending, key);
    RowsConcat(table, other.pending, key);
    if hash(key) in other.held {
      assert Rows(tx.pending, key) == [];
      assert Rows(table, key) + [] == Rows(table, key);
    } else {
      assert Rows(table + tx.pending, key) + [] == Rows(table + tx.pending, key);
    }
  }

  lemma InsertKeepsInv(s: State, e: Event, hash: string -> int)
    requires Inv(s, hash) && e.Insert? && Enabled(s, e, hash, true)
    ensures Inv(Next(s, e, hash, true), hash)
  {
    hide KeyGood, Rows, Linear;
    var next := Next(s, e, hash, true);
    forall t: nat | IsActive(next, t) ensures TxGood(next, t, hash) {
      assert IsActive(s, t) && TxGood(s, t, hash);
      if t == e.tx {
        forall other: string ensures KeyGood(next.table, next.txs[t], other, hash) {
          InsertKeepsKey(s.table, s.txs[t], e.key, e.value, |s.owner|, other, hash);
        }
      }
    }
    SameLocks(s, next);
  }

  lemma SameLocks(s: State, next: State)
    requires Exclusive(s)
    requires forall t: nat, lock: int | Holds(next, t, lock) :: Holds(s, t, lock)
    ensures Exclusive(next)
  {
  }

  lemma CommitKeepsInv(s: State, e: Event, hash: string -> int)
    requires Inv(s, hash) && e.Commit? && Enabled(s, e, hash, true)
    ensures Inv(Next(s, e, hash, true), hash)
  {
    hide KeyGood, Rows, Linear;
    var next := Next(s, e, hash, true);
    assert TxGood(s, e.tx, hash);
    forall key: string ensures Linear(Rows(next.table, key)) {
      CommitKeepsChain(s.table, s.txs[e.tx], key, hash);
    }
    forall t: nat | IsActive(next, t) ensures TxGood(next, t, hash) {
      assert IsActive(s, t) && TxGood(s, t, hash);
      HeldDisjoint(s, e.tx, t);
      forall key: string ensures KeyGood(next.table, next.txs[t], key, hash) {
        CommitKeepsKey(s.table, s.txs[e.tx], s.txs[t], key, hash);
      }
    }
    SameLocks(s, next);
  }

  lemma CommitKeepsChain(table: seq<Entry>, tx: Tx, key: string, hash: string -> int)
    requires tx.Active? && KeyGood(table, tx, key, hash)
    ensures Linear(Rows(table + tx.pending, key))
  {
  }

  lemma HeldDisjoint(s: State, t: nat, u: nat)
    requires Exclusive(s) && IsActive(s, t) && IsActive(s, u) && t != u
    ensures s.txs[t].held !! s.txs[u].held
  {
    forall lock | lock in s.txs[t].held && lock in s.txs[u].held ensures false {
      assert Holds(s, t, lock) && Holds(s, u, lock);
    }
  }

  lemma LockKeepsInv(s: State, e: Event, hash: string -> int)
    requires Inv(s, hash) && e.LockForWrite? && Enabled(s, e, hash, true)
    ensures Inv(Next(s, e, hash, true), hash)
  {
    hide Rows, Linear;
    var next := Next(s, e, hash, true);
    forall t: nat | IsActive(next, t) ensures TxGood(next, t, hash) {
      assert IsActive(s, t) && TxGood(s, t, hash);
      forall key: string ensures KeyGood(next.table, next.txs[t], key, hash) {
        assert KeyGood(s.table, s.txs[t], key, hash);
      }
    }
    forall t: nat, u: nat, lock: int | Holds(next, t, lock) && Holds(next, u, lock) ensures t == u {
      var before := (Holds(s, t, lock), Holds(s, u, lock));
    }
  }

  lemma ReadKeepsInv(s: State, e: Event, hash: string -> int)
    requires Inv(s, hash) && e.ReadLast? && Enabled(s, e, hash, true)
    ensures Inv(Next(s, e, hash, true), hash)
  {
    hide Rows, Linear;
    var next := Next(s, e, hash, true);
    forall t: nat | IsActive(next, t) ensures TxGood(next, t, hash) {
      assert IsActive(s, t) && TxGood(s, t, hash);
      forall key: string ensures KeyGood(next.table, next.txs[t], key, hash) {
        assert KeyGood(s.table, s.txs[t], key, hash);
      }
    }
    SameLocks(s, next);
  }

  lemma OthersKeepInv(s: State, e: Event, hash: string -> int)
    requires Inv(s, hash) && (e.Begin? || e.Rollback?) && Enabled(s, e, hash, true)
    ensures Inv(Next(s, e, hash, true), hash)
  {
    hide Rows, Linear;
    var next := Next(s, e, hash, true);
    forall t: nat | IsActive(next, t) ensures TxGood(next, t, hash) {
      if IsActive(s, t) {
        assert TxGood(s, t, hash);
      } else {
        NewTxGood(s, hash);
      }
    }
    SameLocks(s, next);
  }

  lemma NewTxGood(s: State, hash: string -> int)
    requires Inv(s, hash)
    ensures forall key: string :: KeyGood(s.table, Active({}, map[], []), key, hash)
  {
    forall key: string ensures KeyGood(s.table, Active({}, map[], []), key, hash) {
      assert s.table + [] == s.table;
    }
  }

  lemma StepKeepsInv(s: State, e: Event, hash: string -> int)
    requires Inv(s, hash) && Enabled(s, e, hash, true)
    ensures Inv(Next(s, e, hash, true), hash)
  {
    hide Inv, Enabled, Next;
    match e
    case Insert(_, _, _) => InsertKeepsInv(s, e, hash);
    case Commit(_) => CommitKeepsInv(s, e, hash);
    case LockForWrite(_, _) => LockKeepsInv(s, e, hash);
    case ReadLast(_, _) => ReadKeepsInv(s, e, hash);
    case _ => OthersKeepInv(s, e, hash);
  }

  lemma {:induction false} RunKeepsInv(s: State, events: seq<Event>, hash: string -> int)
    requires Inv(s, hash) && CanRun(s, events, hash, true)
    ensures Inv(After(s, events, hash, true), hash)
    decreases events
  {
    hide Inv, Enabled, Next;
    if events != [] {
      StepKeepsInv(s, events[0], hash);
      RunKeepsInv(Next(s, events[0], hash, true), events[1..], hash);
    }
  }

  lemma InitialGood(hash: string -> int)
    ensures Inv(INITIAL, hash)
  {
  }

  // ----- The committed rows -----

  lemma {:induction false} LinearIsSerial(table: seq<Entry>)
    requires forall key: string :: Linear(Rows(table, key))
    ensures Serially(WritesOf(table)) == table
  {
    if table != [] {
      var before, last := table[..|table| - 1], table[|table| - 1];
      assert before + [last] == table;
      forall key: string ensures Linear(Rows(before, key)) {
        RowsSnoc(before, last, key);
        assert Rows(table, key) == Rows(before, key) + Rows(table, key)[|Rows(before, key)|..];
        LinearPrefix(Rows(before, key), Rows(table, key)[|Rows(before, key)|..]);
      }
      LinearIsSerial(before);
      SerialLast(before, last);
    }
  }

  lemma SerialLast(before: seq<Entry>, last: Entry)
    requires Linear(Rows(before, last.key)) && Linear(Rows(before + [last], last.key))
    ensures last.row.prev == GreatestId(Rows(before, last.key))
    ensures WritesOf(before + [last]) == WritesOf(before) + [Write(last.key, last.row.id, last.row.value)]
  {
    RowsSnoc(before, last, last.key);
    LinearGreatest(Rows(before, last.key));
    hide Rows, GreatestId;
    assert Linked(Rows(before, last.key) + [last.row], |Rows(before, last.key)|);
    assert (before + [last])[..|before + [last]| - 1] == before;
  }

  /** Over every interleaving of transactions that lock before they read, whatever keys collide,
      the committed rows under each key form one chain, and the whole table is what its writes
      give made one at a time in commit order. */
  lemma LockedRunsAreSerial(events: seq<Event>, hash: string -> int, key: string)
    requires CanRun(INITIAL, events, hash, true)
    ensures Linear(Rows(After(INITIAL, events, hash, true).table, key))
    ensures var table := After(INITIAL, events, hash, true).table; table == Serially(WritesOf(table))
  {
    InitialGood(hash);
    RunKeepsInv(INITIAL, events, hash);
    LinearIsSerial(After(INITIAL, events, hash, true).table);
  }

  // ----- All or nothing -----

  ghost predicate HasId(entries: seq<Entry>, id: nat) {
    exists i :: 0 <= i < |entries| && entries[i].row.id == id
  }

  predicate Drew(s: State, t: nat, id: nat) {
    id < |s.owner| && s.owner[id] == t
  }

  /** An id is in the table exactly when its transaction committed, and among a transaction's
      pending rows exactly when that transaction drew it and is still active. */
  ghost predicate IdGood(s: State, id: nat) {
    && (id < |s.owner| ==> s.owner[id] < |s.txs|)
    && (HasId(s.table, id) <==> id < |s.owner| && s.txs[s.owner[id]].Committed?)
    && forall t: nat | IsActive(s, t) :: HasId(s.txs[t].pending, id) <==> Drew(s, t, id)
  }

  ghost predicate Owned(s: State) {
    forall id: nat :: IdGood(s, id)
  }

  lemma HasIdConcat(a: seq<Entry>, b: seq<Entry>, id: nat)
    ensures HasId(a + b, id) <==> HasId(a, id) || HasId(b, id)
  {
    if HasId(a, id) {
      var i :| 0 <= i < |a| && a[i].row.id == id;
      assert (a + b)[i].row.id == id;
    }
    if HasId(b, id) {
      var i :| 0 <= i < |b| && b[i].row.id == id;
      assert (a + b)[|a| + i].row.id == id;
    }
  }

  lemma HasOneId(e: Entry, id: nat)
    ensures HasId([e], id) <==> id == e.row.id
  {
    assert [e][0] == e;
  }

  lemma InsertKeepsId(s: State, e: Event, hash: string -> int, locking: bool, id: nat)
    requires IdGood(s, id) && e.Insert? && Enabled(s, e, hash, locking)
    ensures IdGood(Next(s, e, hash, locking), id)
  {
    hide HasId;
    var entry := Entry(e.key, Row(|s.owner|, s.txs[e.tx].last[e.key], e.value));
    HasIdConcat(s.txs[e.tx].pending, [entry], id);
    HasOneId(entry, id);
    var next := Next(s, e, hash, locking);
    forall t: nat | IsActive(next, t) ensures HasId(next.txs[t].pending, id) <==> Drew(next, t, id) {
      assert IsActive(s, t);
      assert HasId(s.txs[t].pending, id) <==> Drew(s, t, id);
    }
  }

  lemma CommitKeepsId(s: State, e: Event, hash: string -> int, locking: bool, id: nat)
    requires IdGood(s, id) && e.Commit? && Enabled(s, e, hash, locking)
    ensures IdGood(Next(s, e, hash, locking), id)
  {
    hide HasId;
    HasIdConcat(s.table, s.txs[e.tx].pending, id);
    assert HasId(s.txs[e.tx].pending, id) <==> Drew(s, e.tx, id);
    var next := Next(s, e, hash, locking);
    forall t: nat | IsActive(next, t) ensures HasId(next.txs[t].pending, id) <==> Drew(next, t, id) {
      assert IsActive(s, t);
    }
  }

  lemma OtherKeepsId(s: State, e: Event, hash: string -> int, locking: bool, id: nat)
    requires IdGood(s, id) && !e.Insert? && !e.Commit? && Enabled(s, e, hash, locking)
    ensures IdGood(Next(s, e, hash, locking), id)
  {
    hide Rows, GreatestId;
    var next := Next(s, e, hash, locking);
    forall t: nat | IsActive(next, t) ensures HasId(next.txs[t].pending, id) <==> Drew(next, t, id) {
      assert IsActive(s, t) || (t == |s.txs| && next.txs[t].pending == []);
    }
  }

  lemma StepKeepsOwned(s: State, e: Event, hash: string -> int, locking: bool)
    requires Owned(s) && Enabled(s, e, hash, locking)
    ensures Owned(Next(s, e, hash, locking))
  {
    hide Next, Enabled, IdGood;
    forall id: nat ensures IdGood(Next(s, e, hash, locking), id) {
      match e
      case Insert(_, _, _) => InsertKeepsId(s, e, hash, locking, id);
      case Commit(_) => CommitKeepsId(s, e, hash, locking, id);
      case _ => OtherKeepsId(s, e, hash, locking, id);
    }
  }

  lemma {:induction false} RunKeepsOwned(s: State, events: seq<Event>, hash: string -> int, locking: bool)
    requires Owned(s) && CanRun(s, events, hash, locking)
    ensures Owned(After(s, events, hash, locking))
    decreases events
  {
    hide Owned, Enabled, Next;
    if events != [] {
      StepKeepsOwned(s, events[0], hash, locking);
      RunKeepsOwned(Next(s, events[0], hash, locking), events[1..], hash, locking);
    }
  }

  /** Atomicity: the table holds all rows of the committed transactions and none of any other,
      so a rolled-back transaction leaves no trace. */
  lemma AllOrNothing(events: seq<Event>, hash: string -> int, locking: bool, id: nat)
    requires CanRun(INITIAL, events, hash, locking)
    ensures var s := After(INITIAL, events, hash, locking);
            HasId(s.table, id) <==> id < |s.owner| && s.owner[id] < |s.txs| && s.txs[s.owner[id]].Committed?
  {
    RunKeepsOwned(INITIAL, events, hash, locking);
    assert IdGood(After(INITIAL, events, hash, locking), id);
  }

  // ----- What the table holds -----

  /** The keys and values of rows, in order. */
  function Contents(entries: seq<Entry>): (r: seq<(string, string)>)
    ensures |r| == |entries| && forall i | 0 <= i < |entries| :: r[i] == (entries[i].key, entries[i].row.value)
  {
    if entries == [] then []
    else Contents(entries[..|entries| - 1]) + [(entries[|entries| - 1].key, entries[|entries| - 1].row.value)]
  }

  /** What transaction t has asked to insert, in order. */
  function InsertsOf(events: seq<Event>, t: nat): seq<(string, string)> {
    if events == [] then []
    else
      var before, e := InsertsOf(events[..|events| - 1], t), events[|events| - 1];
      if e.Insert? && e.tx == t then before + [(e.key, e.value)] else before
  }

  /** What the transactions that committed have asked to insert, transaction by transaction in commit
      order. */
  function CommittedInserts(events: seq<Event>): seq<(string, string)> {
    if events == [] then []
    else
      var before, e := events[..|events| - 1], events[|events| - 1];
      CommittedInserts(before) + (if e.Commit? then InsertsOf(before, e.tx) else [])
  }

  /** Of one transaction: what is pending is what it has asked for. */
  ghost predicate PendingTold(s: State, events: seq<Event>, t: nat) {
    if t >= |s.txs| then InsertsOf(events, t) == []
    else s.txs[t].Active? ==> Contents(s.txs[t].pending) == InsertsOf(events, t)
  }

  lemma ContentsConcat(a: seq<Entry>, b: seq<Entry>)
    ensures Contents(a + b) == Contents(a) + Contents(b)
  {
  }

  lemma PendingStep(s: State, before: seq<Event>, e: Event, t: nat, hash: string -> int, locking: bool)
    requires Enabled(s, e, hash, locking) && PendingTold(s, before, t)
    ensures PendingTold(Next(s, e, hash, locking), before + [e], t)
  {
    hide GreatestId, Visible, Rows, Contents, InsertsOf;
    InsertsNext(before, e, t);
    NothingContained();
    if e.Insert? {
      var row := Row(|s.owner|, s.txs[e.tx].last[e.key], e.value);
      ContentsNext(s.txs[e.tx].pending, Entry(e.key, row));
    }
  }

  lemma NothingContained()
    ensures Contents([]) == []
  {
  }

  lemma ContentsNext(entries: seq<Entry>, last: Entry)
    ensures Contents(entries + [last]) == Contents(entries) + [(last.key, last.row.value)]
  {
    assert (entries + [last])[..|entries|] == entries;
  }

  lemma InsertsNext(before: seq<Event>, e: Event, t: nat)
    ensures InsertsOf(before + [e], t) ==
              if e.Insert? && e.tx == t then InsertsOf(before, t) + [(e.key, e.value)] else InsertsOf(before, t)
  {
    assert (before + [e])[..|before|] == before;
  }

  lemma RunLast(s: State, events: seq<Event>, hash: string -> int, locking: bool)
    requires events != [] && CanRun(s, events, hash, locking)
    ensures var before, e := events[..|events| - 1], events[|events| - 1];
            && CanRun(s, before, hash, locking) && Enabled(After(s, before, hash, locking), e, hash, locking)
            && After(s, events, hash, locking) == Next(After(s, before, hash, locking), e, hash, locking)
  {
    var before, e := events[..|events| - 1], events[|events| - 1];
    assert events == before + [e];
    RunPrefix(s, before, [e], hash, locking);
    RunConcat(s, before, [e], hash, locking);
    assert CanRun(After(s, before, hash, locking), [e], hash, locking);
    hide Enabled, Next;
  }

  lemma {:induction false} AllPendingTold(events: seq<Event>, t: nat, hash: string -> int, locking: bool)
    requires CanRun(INITIAL, events, hash, locking)
    ensures PendingTold(After(INITIAL, events, hash, locking), events, t)
    decreases |events|
  {
    if events != [] {
      var before, e := events[..|events| - 1], events[|events| - 1];
      RunLast(INITIAL, events, hash, locking);
      AllPendingTold(before, t, hash, locking);
      hide After, CanRun, Next, Enabled, PendingTold;
      assert events == before + [e];
      PendingStep(After(INITIAL, before, hash, locking), before, e, t, hash, locking);
    }
  }

  /** The table holds exactly the keys and values that the committed transactions have asked to
      insert, each transaction's together and in its order. */
  lemma {:induction false} TableHoldsCommitted(events: seq<Event>, hash: string -> int, locking: bool)
    requires CanRun(INITIAL, events, hash, locking)
    ensures Contents(After(INITIAL, events, hash, locking).table) == CommittedInserts(events)
    decreases |events|
  {
    if events != [] {
      var before, e := events[..|events| - 1], events[|events| - 1];
      RunLast(INITIAL, events, hash, locking);
      TableHoldsCommitted(before, hash, locking);
      var s := After(INITIAL, before, hash, locking);
      if e.Commit? {
        AllPendingTold(before, e.tx, hash, locking);
        ContentsConcat(s.table, s.txs[e.tx].pending);
      }
      hide After, CanRun, Contents, InsertsOf;
    }
  }

  // ----- Without the lock -----

  const ROW_A: Entry := Entry("k", Row(0, None, "a"))
  const ROW_B: Entry := Entry("k", Row(1, None, "b"))

  /** Both transactions have read the empty table; then both have inserted. */
  const BOTH_READ: State := State([], [Active({}, map["k" := None], []), Active({}, map["k" := None], [])], [])
  const BOTH_WROTE: State := State([], [Active({}, map[], [ROW_A]), Active({}, map[], [ROW_B])], [0, 1])
  const FORKED: State := State([ROW_A, ROW_B], [Committed, Committed], [0, 1])

  const READS: seq<Event> := [Begin, Begin, ReadLast(0, "k"), ReadLast(1, "k")]
  const WRITES: seq<Event> := [Insert(0, "k", "a"), Insert(1, "k", "b")]
  const COMMITS: seq<Event> := [Commit(0), Commit(1)]

  lemma Reads(hash: string -> int)
    ensures CanRun(INITIAL, READS, hash, false) && After(INITIAL, READS, hash, false) == BOTH_READ
  {
    hide CanRun, After;
    var idle := Active({}, map[], []);
    var one, two := State([], [idle], []), State([], [idle, idle], []);
    var three := State([], [Active({}, map["k" := None], []), idle], []);
    FourSteps(INITIAL, one, two, three, BOTH_READ, READS, hash);
  }

  lemma FourSteps(s: State, one: State, two: State, three: State, end: State, events: seq<Event>, hash: string -> int)
    requires |events| == 4
    requires Enabled(s, events[0], hash, false) && Next(s, events[0], hash, false) == one
    requires Enabled(one, events[1], hash, false) && Next(one, events[1], hash, false) == two
    requires Enabled(two, events[2], hash, false) && Next(two, events[2], hash, false) == three
    requires Enabled(three, events[3], hash, false) && Next(three, events[3], hash, false) == end
    ensures CanRun(s, events, hash, false) && After(s, events, hash, false) == end
  {
    hide Enabled, Next;
    OneStep(s, events[0], hash, false);
    OneStep(one, events[1], hash, false);
    OneStep(two, events[2], hash, false);
    OneStep(three, events[3], hash, false);
    hide CanRun, After;
    RunConcat(s, [events[0]], [events[1]], hash, false);
    RunConcat(s, [events[0]] + [events[1]], [events[2]], hash, false);
    RunConcat(s, [events[0]] + [events[1]] + [events[2]], [events[3]], hash, false);
    assert events == [events[0]] + [events[1]] + [events[2]] + [events[3]];
  }

  lemma Writes(hash: string -> int)
    ensures CanRun(BOTH_READ, WRITES, hash, false) && After(BOTH_READ, WRITES, hash, false) == BOTH_WROTE
  {
    var one := State([], [Active({}, map[], [ROW_A]), Active({}, map["k" := None], [])], [0]);
    assert BOTH_READ.txs[0].last - {"k"} == map[];
    assert BOTH_READ.txs[0].pending + [ROW_A] == [ROW_A] && BOTH_READ.txs[1].pending + [ROW_B] == [ROW_B];
    assert BOTH_READ.owner + [0] == [0] && [0] + [1] == BOTH_WROTE.owner;
    assert Next(BOTH_READ, WRITES[0], hash, false) == one;
    assert Next(one, WRITES[1], hash, false) == BOTH_WROTE;
    assert CanRun(one, WRITES[1..], hash, false);
  }

  lemma Commits(hash: string -> int)
    ensures CanRun(BOTH_WROTE, COMMITS, hash, false) && After(BOTH_WROTE, COMMITS, hash, false) == FORKED
  {
    var one := State([ROW_A], [Committed, Active({}, map[], [ROW_B])], [0, 1]);
    assert Next(BOTH_WROTE, COMMITS[0], hash, false) == one;
    assert Next(one, COMMITS[1], hash, false) == FORKED;
    assert CanRun(one, COMMITS[1..], hash, false);
  }

  /** Two transactions that skip the lock can both chain onto the same row, however keys hash. */
  lemma UnlockedRunForks(hash: string -> int)
    ensures CanRun(INITIAL, READS + WRITES + COMMITS, hash, false)
    ensures !Linear(Rows(After(INITIAL, READS + WRITES + COMMITS, hash, false).table, "k"))
  {
    Reads(hash);
    Writes(hash);
    RunConcat(INITIAL, READS, WRITES, hash, false);
    Commits(hash);
    RunConcat(INITIAL, READS + WRITES, COMMITS, hash, false);
    ForkedIsNotLinear();
  }

  lemma ForkedIsNotLinear()
    ensures !Linear(Rows(FORKED.table, "k"))
  {
    RowsSnoc([], ROW_A, "k");
    RowsSnoc([ROW_A], ROW_B, "k");
    assert [] + [ROW_A] == [ROW_A] && [ROW_A] + [ROW_B] == FORKED.table;
    assert !Linked([ROW_A.row, ROW_B.row], 1);
  }
}
