/** One run of the migrator (scripts/migrate-sqlite-to-postgres.ts, lines 186-340) against a
    database connection that may fail at any statement. Every run, however it ends, is an
    execution of the copy protocol's machine. */
module CopyRun {
  import opened CodeUnits
  import opened JsonNumbers
  import opened JsonWriting
  import opened StableText
  import opened RowCanonical
  import opened CopiedRows
  import opened CopyProtocol
  import TableChecksum
  import TableOrder

  /** A step of n statements succeeds exactly when the connection still answers that many. */
  ghost predicate Takes(n: nat, before: nat, ok: bool, after: nat) {
    (ok <==> before >= n) && after == if ok then before - n else 0
  }

  /** `after` goes on from `before`, and every run it adds opens this source. */
  ghost predicate Continues(before: seq<Event>, after: seq<Event>, source: Source) {
    before <= after && forall e | e in after && e.OpenRun? :: e in before || e.source == source
  }

  datatype Working = Idle | InTransaction(view: Target)

  /** What PostgreSQL stores for rows of parameters. */
  function Landed(ctx: Context, name: string, tuples: seq<Row>): (stored: seq<Row>)
    ensures |stored| == |tuples| && forall i | 0 <= i < |tuples| :: stored[i] == ctx.store(ctx.columns(name), tuples[i])
  {
    seq(|tuples|, i requires 0 <= i < |tuples| => ctx.store(ctx.columns(name), tuples[i]))
  }

  /** The client's connection: what is committed, the open transaction's view, and how many
      more statements will be answered. When a COMMIT is the one cut off, `lastCommitLands`
      says whether the server had already applied it. */
  class Client {
    const ctx: Context
    const lastCommitLands: bool
    var committed: Target
    var working: Working
    var life: nat
    ghost var begin: State
    ghost var history: seq<Event>

    /** The committed state is explained by the events since `begin`. */
    ghost predicate Explained()
      reads this
    {
      CanRun(ctx, begin, history) && After(ctx, begin, history).target == committed
    }

    ghost function Session(): Session
      reads this
      requires Explained()
    {
      After(ctx, begin, history).session
    }

    /** A new connection to a database whose past is `history`. */
    constructor (ctx: Context, committed: Target, life: nat, lastCommitLands: bool, ghost begin: State,
                 ghost history: seq<Event>)
      requires CanRun(ctx, begin, history) && After(ctx, begin, history).target == committed
      requires After(ctx, begin, history).session.Closed?
      ensures Explained() && Session().Closed? && working.Idle?
      ensures this.ctx == ctx && this.committed == committed && this.begin == begin && this.history == history
    {
      this.ctx := ctx;
      this.lastCommitLands := lastCommitLands;
      this.committed := committed;
      this.working := Idle;
      this.life := life;
      this.begin := begin;
      this.history := history;
    }

    ghost method Record(e: Event)
      requires Explained() && Enabled(ctx, After(ctx, begin, history), e)
      requires Next(ctx, After(ctx, begin, history), e).target == committed
      modifies this`history
      ensures Explained() && history == old(history) + [e]
      ensures Session() == Next(ctx, After(ctx, begin, old(history)), e).session
    {
      Extended(ctx, begin, history, e);
      history := history + [e];
    }

    /** One statement; a lost connection also loses the open transaction. */
    method Answered() returns (ok: bool)
      modifies this`life, this`working
      ensures Takes(1, old(life), ok, life)
      ensures if ok then working == old(working) else working.Idle?
    {
      ok := life > 0;
      if ok {
        life := life - 1;
      } else {
        working := Idle;
      }
    }

    method Begin() returns (ok: bool)
      requires working.Idle?
      modifies this`life, this`working
      ensures Takes(1, old(life), ok, life)
      ensures if ok then working == InTransaction(committed) else working.Idle?
    {
      ok := Answered();
      if ok {
        working := InTransaction(committed);
      }
    }

    /** An INSERT of one row of parameters each; PostgreSQL stores what they say. */
    method Insert(name: string, tuples: seq<Row>) returns (ok: bool)
      requires working.InTransaction? && name in working.view.tables
      modifies this`life, this`working
      ensures Takes(1, old(life), ok, life)
      ensures ok ==> working == InTransaction(old(working).view.(
                       tables := old(working).view.tables[
                         name := old(working).view.tables[name] + Landed(ctx, name, tuples)]))
      ensures !ok ==> working.Idle?
    {
      ok := Answered();
      if ok {
        var view := working.view;
        working := InTransaction(view.(tables := view.tables[name := view.tables[name] + Landed(ctx, name, tuples)]));
      }
    }

    method UpdateCheckpoint(name: string, copied: nat) returns (ok: bool)
      requires working.InTransaction? && working.view.manifest.Manifest? && name in working.view.manifest.rows
      modifies this`life, this`working
      ensures Takes(1, old(life), ok, life)
      ensures ok ==> var view := old(working).view;
                     working == InTransaction(view.(manifest := Manifest(
                       view.manifest.rows[name := view.manifest.rows[name].(copied := copied)])))
      ensures !ok ==> working.Idle?
    {
      ok := Answered();
      if ok {
        var view := working.view;
        working := InTransaction(view.(manifest := Manifest(
          view.manifest.rows[name := view.manifest.rows[name].(copied := copied)])));
      }
    }

    method CreateManifest() returns (ok: bool)
      requires working.InTransaction?
      modifies this`life, this`working
      ensures Takes(1, old(life), ok, life)
      ensures if ok then working == InTransaction(old(working).view.(manifest := Manifest(map[]))) else working.Idle?
    {
      ok := Answered();
      if ok {
        working := InTransaction(working.view.(manifest := Manifest(map[])));
      }
    }

    method Truncate(names: seq<string>) returns (ok: bool)
      requires working.InTransaction?
      modifies this`life, this`working
      ensures Takes(1, old(life), ok, life)
      ensures ok ==> var view := old(working).view;
                     working == InTransaction(view.(
                       tables := map n | n in view.tables :: if n in names then [] else view.tables[n]))
      ensures !ok ==> working.Idle?
    {
      ok := Answered();
      if ok {
        var view := working.view;
        working := InTransaction(view.(
          tables := map n | n in view.tables :: if n in names then [] else view.tables[n]));
      }
    }

    method InsertCheckpoint(name: string, c: Checkpoint) returns (ok: bool)
      requires working.InTransaction? && working.view.manifest.Manifest?
      modifies this`life, this`working
      ensures Takes(1, old(life), ok, life)
      ensures ok ==> working == InTransaction(old(working).view.(
                       manifest := Manifest(old(working).view.manifest.rows[name := c])))
      ensures !ok ==> working.Idle?
    {
      ok := Answered();
      if ok {
        var view := working.view;
        working := InTransaction(view.(manifest := Manifest(view.manifest.rows[name := c])));
      }
    }

    /** The schema migrations on an empty database: run to the end they leave `schema`, cut off
        they leave `partial`, whatever had been created by then. */
    method RunSchemaMigrations(schema: map<string, seq<Row>>, partial: map<string, seq<Row>>) returns (ok: bool)
      requires Explained() && Session().Closed? && working.Idle? && committed == EMPTY
      modifies this
      ensures Takes(1, old(life), ok, life)
      ensures Explained() && Session().Closed? && working.Idle?
      ensures begin == old(begin) && history == old(history) + [CreateSchema(if ok then schema else partial)]
      ensures committed == Target(if ok then schema else partial, NoManifest)
    {
      ok := Answered();
      var tables := if ok then schema else partial;
      Extended(ctx, begin, history, CreateSchema(tables));
      committed := Target(tables, NoManifest);
      history := history + [CreateSchema(tables)];
    }

    /** COMMIT makes the view the committed state, and `e` is the event it amounts to. */
    method Commit(ghost e: Event) returns (ok: bool)
      requires working.InTransaction? && Explained() && Enabled(ctx, After(ctx, begin, history), e)
      requires Next(ctx, After(ctx, begin, history), e).target == working.view
      modifies this
      ensures Takes(1, old(life), ok, life)
      ensures Explained() && working.Idle? && begin == old(begin)
      ensures if ok || lastCommitLands then
                && history == old(history) + [e] && committed == old(working).view
                && After(ctx, begin, history) == Next(ctx, old(After(ctx, begin, history)), e)
              else history == old(history) && committed == old(committed)
    {
      var view := working.view;
      ok := Answered();
      if ok || lastCommitLands {
        Extended(ctx, begin, history, e);
        committed := view;
        history := history + [e];
      }
      working := Idle;
    }
  }

  /** The rows per INSERT that stay under PostgreSQL's parameter limit; without columns the
      quotient is infinite. */
  function BatchRows(batchSize: nat, columns: nat): nat {
    if columns > 0 && 60000 / columns < batchSize then 60000 / columns else batchSize
  }

  /** An INSERT takes as many rows as keep it within the batch size and within 60000 parameters,
      and with at most 60000 columns that is at least one. */
  lemma ParametersWithinLimit(batchSize: nat, columns: nat, rows: nat)
    requires columns <= 60000 && batchSize > 0
    ensures rows <= BatchRows(batchSize, columns) <==> rows <= batchSize && rows * columns <= 60000
    ensures BatchRows(batchSize, columns) > 0
  {
    if columns > 0 {
      var q := 60000 / columns;
      assert 60000 == q * columns + 60000 % columns;
      if rows <= q {
        Times(rows, q, columns);
      } else {
        Times(q + 1, rows, columns);
      }
    }
  }

  lemma Times(a: nat, b: nat, k: nat)
    requires a <= b
    ensures a * k <= b * k && (a + 1) * k == a * k + k
  {
    assert (b - a) * k >= 0;
  }

  /** What a copy run knows while its session is open: the committed target and the local
      count of one table agree. */
  ghost predicate Copying(client: Client, source: Source, order: seq<string>, at: nat)
    reads client
  {
    client.Explained() && client.working.Idle?
        && Underway(After(client.ctx, client.begin, client.history), source, order, at)
  }

  /** The session is open, and the tables before `at` are complete. */
  ghost predicate Underway(s: State, source: Source, order: seq<string>, at: nat) {
    && s.session == Open(source, order)
    && at <= |order| && Ready(source, s.target)
    && (forall i | 0 <= i < |order| :: order[i] in source.rows)
    && (forall i | 0 <= i < at :: Complete(source, s.target, order[i]))
  }

  /** How many rows of a table its checkpoint counts. */
  function CopiedOf(t: Target, name: string): int {
    if t.manifest.Manifest? && name in t.manifest.rows then t.manifest.rows[name].copied else 0
  }

  /** No checkpoint but that of `name` has moved. */
  ghost predicate OthersKept(source: Source, before: Target, after: Target, name: string) {
    forall other | other in source.rows && other != name :: CopiedOf(after, other) == CopiedOf(before, other)
  }

  function Max(a: nat, b: nat): nat {
    if a < b then b else a
  }

  /** How many batches of up to `size` rows, or of one when that is none, take this many rows. */
  function Batches(rows: nat, size: nat): nat {
    if rows == 0 then 0
    else if rows <= size then 1
    else 1 + Batches(rows - Max(size, 1), size)
  }

  /** That is the least number of batches that have room for them. */
  lemma {:induction false} BatchesAreLeast(rows: nat, size: nat, k: nat)
    requires size > 0
    ensures k >= Batches(rows, size) <==> k * size >= rows
    decreases rows
  {
    if 0 < rows <= size {
      Times(if k == 0 then 0 else 1, k, size);
    } else if rows > 0 {
      if k > 0 {
        BatchesAreLeast(rows - size, size, k - 1);
        Times(k - 1, k, size);
      }
    }
  }

  /** Every table has its checkpoint, within the source's row count. */
  ghost predicate Ready(source: Source, t: Target) {
    && t.manifest.Manifest? && t.tables.Keys == source.rows.Keys
    && (forall name | name in source.rows :: name in t.manifest.rows
          && 0 <= t.manifest.rows[name].copied <= |source.rows[name]|)
  }

  /** The parameters of a batch, row by row. */
  method Parameters(ctx: Context, name: string, batch: seq<SourceRow>) returns (tuples: seq<Row>)
    ensures Landed(ctx, name, tuples) == Stored(ctx, name, batch)
  {
    hide SentRow;
    tuples := [];
    for i := 0 to |batch|
      invariant |tuples| == i
      invariant forall j | 0 <= j < i :: tuples[j] == SentRow(ctx.engine, ctx.columns(name), batch[j].values)
    {
      tuples := tuples + [SentRow(ctx.engine, ctx.columns(name), batch[i].values)];
    }
  }

  /** The statements of a batch transaction before its COMMIT. */
  method SendBatch(client: Client, ghost source: Source, name: string, batch: seq<SourceRow>, copied: nat)
    returns (ok: bool)
    requires client.working.Idle? && Ready(source, client.committed) && name in source.rows
    requires client.committed.manifest.rows[name].copied == copied
    requires copied + |batch| <= |source.rows[name]| && batch == source.rows[name][copied..copied + |batch|]
    modifies client`life, client`working
    ensures if ok then
              client.working == InTransaction(BatchCommitted(client.ctx, source, client.committed, name, |batch|))
            else client.working.Idle?
    ensures Takes(3, old(client.life), ok, client.life)
  {
    hide Landed, Stored;
    var tuples := Parameters(client.ctx, name, batch);
    ok := client.Begin();
    if !ok { return; }
    ok := client.Insert(name, tuples);
    if !ok { return; }
    ok := client.UpdateCheckpoint(name, copied + |batch|);
  }

  /** The view a flush has built is the target of its batch event, which moves no other table. */
  lemma BatchIsEvent(ctx: Context, s: State, source: Source, order: seq<string>, at: nat, name: string, k: nat)
    requires Underway(s, source, order, at) && at < |order| && order[at] == name
    requires forall i | 0 <= i < at :: order[i] != name
    requires 0 < k && s.target.manifest.rows[name].copied + k <= |source.rows[name]|
    ensures Enabled(ctx, s, CommitBatch(at, k))
    ensures var t := Next(ctx, s, CommitBatch(at, k));
            && t.target == BatchCommitted(ctx, source, s.target, name, k)
            && Underway(t, source, order, at) && OthersKept(source, s.target, t.target, name)
            && t.target.manifest.rows[name].copied == s.target.manifest.rows[name].copied + k
  {
    hide Stored;
  }

  /** One flush: the batch and its checkpoint commit together or not at all. */
  method Flush(client: Client, source: Source, ghost order: seq<string>, ghost at: nat, name: string,
               batch: seq<SourceRow>, copied: nat)
    returns (ok: bool)
    requires Copying(client, source, order, at) && at < |order| && name == order[at] && name in source.rows
    requires CopiedOf(client.committed, name) == copied
    requires copied + |batch| <= |source.rows[name]| && batch == source.rows[name][copied..copied + |batch|]
    requires forall i | 0 <= i < at :: order[i] != name
    modifies client
    ensures Takes(if batch == [] then 0 else 5, old(client.life), ok, client.life)
    ensures client.Explained() && client.working.Idle? && client.begin == old(client.begin)
    ensures Continues(old(client.history), client.history, source)
    ensures ok ==>
              && Copying(client, source, order, at)
              && OthersKept(source, old(client.committed), client.committed, name)
              && CopiedOf(client.committed, name) == copied + |batch|
  {
    hide CanRun, After, Next, Enabled, BatchCommitted, Stored, Complete;
    if batch == [] {
      NothingSent(source, client.history, client.committed, name);
      return true;
    }
    ok := SendBatch(client, source, name, batch, copied);
    if !ok { return; }
    BatchIsEvent(client.ctx, After(client.ctx, client.begin, client.history), source, order, at, name, |batch|);
    hide OthersKept;
    ok := client.Commit(CommitBatch(at, |batch|));
    if !ok { return; }
    // Observing the batch may throw as well; the batch is then already committed.
    ok := client.Answered();
  }

  lemma SliceGrows<T>(rows: seq<T>, from: nat, to: nat)
    requires from <= to < |rows|
    ensures rows[from..to] + [rows[to]] == rows[from..to + 1]
    ensures rows[from..to + 1] == rows[from..from + |rows[from..to + 1]|]
  {
  }

  lemma NothingSent(source: Source, history: seq<Event>, t: Target, name: string)
    ensures Continues(history, history, source) && OthersKept(source, t, t, name)
  {
  }

  lemma FlushedToo(source: Source, h: seq<Event>, i: seq<Event>, j: seq<Event>, t: Target, u: Target, v: Target,
                   name: string)
    requires Continues(h, i, source) && Continues(i, j, source)
    ensures Continues(h, j, source)
    ensures OthersKept(source, t, u, name) && OthersKept(source, u, v, name) ==> OthersKept(source, t, v, name)
  {
  }

  lemma UnderwayCount(s: State, source: Source, order: seq<string>, at: nat, name: string)
    requires Underway(s, source, order, at) && name in source.rows
    ensures s.target.manifest.Manifest? && name in s.target.manifest.rows
    ensures 0 <= s.target.manifest.rows[name].copied == CopiedOf(s.target, name) <= |source.rows[name]|
    ensures Complete(source, s.target, name) <==> s.target.manifest.rows[name].copied == |source.rows[name]|
  {
  }

  lemma BatchesFull(rows: nat, size: nat, k: nat)
    requires 0 < k <= rows && k == Max(size, 1)
    ensures Batches(rows, size) == 1 + Batches(rows - k, size)
  {
  }

  lemma BatchesLast(rows: nat, size: nat)
    ensures rows == 0 || rows < size ==> Batches(rows, size) == if rows == 0 then 0 else 1
  {
  }

  /** The loop over one table's remaining rows, in rowid order from the checkpoint on. */
  method CopyTable(client: Client, source: Source, ghost order: seq<string>, ghost at: nat, name: string, size: nat)
    returns (ok: bool)
    requires Copying(client, source, order, at) && at < |order| && name == order[at] && name in source.rows
    requires forall i | 0 <= i < at :: order[i] != name
    modifies client
    ensures Takes(5 * Batches(|source.rows[name]| - CopiedOf(old(client.committed), name), size),
                  old(client.life), ok, client.life)
    ensures client.Explained() && client.working.Idle? && client.begin == old(client.begin)
    ensures Continues(old(client.history), client.history, source)
    ensures ok ==> Copying(client, source, order, at) && Complete(source, client.committed, name)
                   && OthersKept(source, old(client.committed), client.committed, name)
  {
    hide CanRun, After, Batches, OthersKept, Continues, Complete, Underway;
    UnderwayCount(After(client.ctx, client.begin, client.history), source, order, at, name);
    var rows := source.rows[name];
    NothingSent(source, client.history, client.committed, name);
    var copied := CopiedOf(client.committed, name);
    ghost var sent, total := 0, Batches(|rows| - copied, size);
    var batch: seq<SourceRow> := [];
    for j := copied to |rows|
      invariant client.begin == old(client.begin) && Continues(old(client.history), client.history, source)
      invariant Copying(client, source, order, at) && OthersKept(source, old(client.committed), client.committed, name)
      invariant 0 <= copied <= j && CopiedOf(client.committed, name) == copied
      invariant batch == rows[copied..j] && (batch == [] || |batch| < size)
      invariant sent + Batches(|rows| - copied, size) == total
      invariant old(client.life) == client.life + 5 * sent
    {
      SliceGrows(rows, copied, j);
      batch := batch + [rows[j]];
      if |batch| >= size {
        BatchesFull(|rows| - copied, size, |batch|);
        ghost var history, before := client.history, client.committed;
        ok := Flush(client, source, order, at, name, batch, copied);
        FlushedToo(source, old(client.history), history, client.history, old(client.committed), before,
                   client.committed, name);
        if !ok { return; }
        UnderwayCount(After(client.ctx, client.begin, client.history), source, order, at, name);
        sent := sent + 1;
        copied := copied + |batch|;
        batch := [];
      }
    }
    BatchesLast(|rows| - copied, size);
    ghost var history, before := client.history, client.committed;
    ok := Flush(client, source, order, at, name, batch, copied);
    FlushedToo(source, old(client.history), history, client.history, old(client.committed), before, client.committed,
               name);
    if ok { UnderwayCount(After(client.ctx, client.begin, client.history), source, order, at, name); }
  }

  ghost function FreshRows(ctx: Context, source: Source, names: seq<string>): map<string, Checkpoint> {
    map name | name in names && name in source.rows :: FreshCheckpoint(ctx, source, name)
  }

  lemma FreshRowsStep(ctx: Context, source: Source, i: nat)
    requires ValidSource(source) && i < |source.names|
    ensures FreshRows(ctx, source, source.names[..i + 1])
         == FreshRows(ctx, source, source.names[..i])[source.names[i] := FreshCheckpoint(ctx, source, source.names[i])]
  {
    hide FreshCheckpoint;
    assert source.names[..i + 1] == source.names[..i] + [source.names[i]];
  }

  /** The inserts of the setup transaction, one per table. */
  method InsertCheckpoints(client: Client, source: Source) returns (ok: bool)
    requires ValidSource(source) && client.working.InTransaction?
    requires client.working.view.manifest == Manifest(map[])
    modifies client`life, client`working
    ensures ok ==> client.working == InTransaction(old(client.working).view.(
                     manifest := Manifest(FreshRows(client.ctx, source, source.names))))
    ensures !ok ==> client.working.Idle?
    ensures Takes(|source.names|, old(client.life), ok, client.life)
  {
    ok := true;
    for i := 0 to |source.names|
      invariant client.working == InTransaction(old(client.working).view.(
                  manifest := Manifest(FreshRows(client.ctx, source, source.names[..i]))))
      invariant ok && old(client.life) == client.life + i
    {
      FreshRowsStep(client.ctx, source, i);
      var name := source.names[i];
      ok := client.InsertCheckpoint(name, FreshCheckpoint(client.ctx, source, name));
      if !ok { return; }
    }
    assert source.names[..|source.names|] == source.names;
  }

  lemma SetUpParts(ctx: Context, source: Source, tables: map<string, seq<Row>>)
    requires ValidSource(source) && tables.Keys == source.rows.Keys && forall n | n in tables :: tables[n] == []
    ensures Target(tables, Manifest(FreshRows(ctx, source, source.names))) == SetUp(ctx, source)
  {
    assert FreshRows(ctx, source, source.names)
        == map name | name in source.rows :: FreshCheckpoint(ctx, source, name);
  }

  /** The statements of the setup transaction. */
  function SetUpNeed(source: Source): nat {
    |source.names| + if source.names == [] then 3 else 4
  }

  lemma SetUpIsEvent(ctx: Context, s: State, source: Source)
    requires s.session.Closed? && s.target.manifest.NoManifest? && s.target.tables.Keys == source.rows.Keys
    requires ValidSource(source) && ConvertibleSource(ctx, source)
    ensures Enabled(ctx, s, WriteManifest(source))
    ensures Next(ctx, s, WriteManifest(source)).target == SetUp(ctx, source)
    ensures Next(ctx, s, WriteManifest(source)).session.Closed?
  {
    hide ConvertibleSource, SetUp;
  }

  /** The setup transaction. */
  method WriteFreshManifest(client: Client, source: Source) returns (ok: bool)
    requires client.Explained() && client.Session().Closed? && client.working.Idle?
    requires client.committed.manifest.NoManifest?
    requires ValidSource(source) && ConvertibleSource(client.ctx, source)
            && client.committed.tables.Keys == source.rows.Keys
    modifies client
    ensures client.Explained() && client.Session().Closed? && client.working.Idle?
    ensures client.begin == old(client.begin) && Continues(old(client.history), client.history, source)
    ensures ok ==> client.committed == SetUp(client.ctx, source)
    ensures Takes(SetUpNeed(source), old(client.life), ok, client.life)
  {
    hide FreshRows, FreshCheckpoint, ConvertibleSource, Fingerprint, SetUp, Next, Enabled, CanRun, After, Continues;
    SetUpIsEvent(client.ctx, After(client.ctx, client.begin, client.history), source);
    NothingSent(source, client.history, client.committed, "");
    SchemaContinues(client.history, WriteManifest(source), source);
    ok := client.Begin();
    if !ok { return; }
    ok := client.CreateManifest();
    if !ok { return; }
    if source.names != [] {
      ok := client.Truncate(source.names);
      if !ok { return; }
    }
    ghost var tables := client.working.view.tables;
    ok := InsertCheckpoints(client, source);
    if !ok { return; }
    SetUpParts(client.ctx, source, tables);
    ok := client.Commit(WriteManifest(source));
  }

  /** The validation loop, before any write of a run. */
  method ValidateManifest(ctx: Context, source: Source, order: seq<string>, t: Target) returns (ok: bool)
    requires ValidSource(source) && ConvertibleSource(ctx, source) && t.tables.Keys == source.rows.Keys
    requires TableOrder.NoRepeats(order) && forall n :: n in order <==> n in source.names
    ensures ok <==> Validates(ctx, source, t)
  {
    hide CheckpointMatches, ConvertibleSource;
    SameCount(source.names, order);
    if t.manifest.NoManifest? || |t.manifest.rows| != |order| {
      return false;
    }
    for i := 0 to |order|
      invariant forall j | 0 <= j < i :: order[j] in source.rows && CheckpointMatches(ctx, source, t, order[j])
    {
      if !CheckpointMatches(ctx, source, t, order[i]) {
        return false;
      }
    }
    forall name | name in source.rows ensures CheckpointMatches(ctx, source, t, name) {
      assert name in order;
    }
    ok := true;
  }

  lemma SameCount(a: seq<string>, b: seq<string>)
    requires TableOrder.NoRepeats(a) && TableOrder.NoRepeats(b) && forall n :: n in a <==> n in b
    ensures |a| == |b|
  {
    DistinctCount(a);
    DistinctCount(b);
    assert (set n | n in a) == (set n | n in b);
  }

  lemma NothingHashed(spell: Double -> JsonNumber)
    ensures FingerprintText(spell, []) == []
  {
  }

  /** Reading one table before anything is written: every row is serialized, and its line goes
      into the fingerprint. `ok` is false where a value does not convert, which throws. */
  method ReadTable(ctx: Context, name: string, rows: seq<SourceRow>)
    returns (ok: bool, texts: seq<Text>, fingerprint: Text)
    ensures ok <==> AllConvertible(ctx, name, rows)
    ensures ok ==>
              && texts == Serialized(ctx.engine, ctx.columns(name), Values(rows))
              && fingerprint == Fingerprint(ctx, name, rows)
  {
    hide Convertible, SerialRow, Stable, FingerprintText, LineCells;
    var hashed: Text := [];
    NothingHashed(ctx.engine.spell);
    texts, fingerprint := [], [];
    ghost var lines: seq<Line> := [];
    for i := 0 to |rows|
      invariant forall j | 0 <= j < i :: Convertible(ctx.engine, ctx.columns(name), rows[j].values)
      invariant |texts| == |lines| == i
      invariant forall j | 0 <= j < i :: texts[j] == SerialRow(ctx.engine, ctx.columns(name), rows[j].values)
      invariant forall j | 0 <= j < i :: lines[j] == LineOf(ctx, name, rows[j])
      invariant hashed == FingerprintText(ctx.engine.spell, lines)
    {
      if !Convertible(ctx.engine, ctx.columns(name), rows[i].values) {
        return false, [], [];
      }
      var serialized := SerialRow(ctx.engine, ctx.columns(name), rows[i].values);
      FingerprintTextSnoc(ctx.engine.spell, lines, (rows[i].rowid, serialized));
      texts := texts + [serialized];
      hashed := hashed + (Stable(LineCells((rows[i].rowid, serialized)), ctx.engine.spell) + [LINE_FEED]);
      lines := lines + [(rows[i].rowid, serialized)];
    }
    assert lines == Lines(ctx, name, rows);
    ok, fingerprint := true, ctx.sha256(hashed);
  }

  /** Reading every table: the serialized rows, or nothing when a value does not convert. */
  method ReadSource(ctx: Context, source: Source) returns (ok: bool, texts: map<string, seq<Text>>)
    requires ValidSource(source)
    ensures ok <==> ConvertibleSource(ctx, source)
    ensures ok ==> forall n | n in source.rows ::
              n in texts && texts[n] == Serialized(ctx.engine, ctx.columns(n), Values(source.rows[n]))
  {
    hide AllConvertible, Serialized, Values, Fingerprint;
    texts := map[];
    for i := 0 to |source.names|
      invariant forall j | 0 <= j < i :: AllConvertible(ctx, source.names[j], source.rows[source.names[j]])
      invariant forall j | 0 <= j < i ::
                  && source.names[j] in texts
                  && texts[source.names[j]] ==
                       Serialized(ctx.engine, ctx.columns(source.names[j]), Values(source.rows[source.names[j]]))
    {
      var name := source.names[i];
      var read, lines, fingerprint := ReadTable(ctx, name, source.rows[name]);
      if !read {
        return false, map[];
      }
      texts := texts[name := lines];
    }
    ok := true;
    forall n | n in source.rows
      ensures AllConvertible(ctx, n, source.rows[n]) && n in texts
           && texts[n] == Serialized(ctx.engine, ctx.columns(n), Values(source.rows[n]))
    {
      assert n in source.names;
    }
  }

  // ----- Preparing a run -----

  datatype Outcome = Refused | Interrupted | Unverified | Finished

  datatype Prepared = Stop(outcome: Outcome) | Ready(order: seq<string>, texts: map<string, seq<Text>>)

  /** What reading the source has left for verification. */
  ghost predicate AreTexts(ctx: Context, source: Source, texts: map<string, seq<Text>>) {
    forall n | n in source.rows ::
        n in texts && texts[n] == Serialized(ctx.engine, ctx.columns(n), Values(source.rows[n]))
  }

  lemma TextsRead(ctx: Context, source: Source, texts: map<string, seq<Text>>)
    requires forall n | n in source.rows ::
               n in texts && texts[n] == Serialized(ctx.engine, ctx.columns(n), Values(source.rows[n]))
    ensures AreTexts(ctx, source, texts)
  {
  }

  /** Target tables that a run of this source does not fit, a source with a value that does not
      convert, or foreign keys on a cycle. */
  ghost predicate Unfit(ctx: Context, source: Source, tables: map<string, seq<Row>>) {
    || tables.Keys != source.rows.Keys
    || !ConvertibleSource(ctx, source)
    || TableOrder.OrderOf(source.names, ctx.deps).Cycle?
  }

  lemma SetUpKeys(ctx: Context, source: Source)
    ensures SetUp(ctx, source).tables.Keys == source.rows.Keys
  {
    hide FreshCheckpoint;
  }

  lemma OrderIsValid(ctx: Context, source: Source)
    requires ValidSource(source)
    ensures var ordered := TableOrder.OrderOf(source.names, ctx.deps);
            ordered.Ordered? ==> ValidOrder(ctx, source, ordered.tables)
  {
    TableOrder.OrderTablesCorrect(source.names, ctx.deps);
  }

  lemma SchemaContinues(history: seq<Event>, e: Event, source: Source)
    requires !e.OpenRun?
    ensures Continues(history, history + [e], source)
  {
  }

  /** The checks on the target, for a first run the schema, reading the source, and for a first
      run the manifest. */
  method PrepareTarget(client: Client, source: Source, resume: bool, schema: map<string, seq<Row>>,
                       partial: map<string, seq<Row>>) returns (prepared: Prepared)
    requires client.Explained() && client.Session().Closed? && client.working.Idle? && ValidSource(source)
    modifies client
    ensures client.Explained() && client.Session().Closed? && client.working.Idle?
    ensures client.begin == old(client.begin) && Continues(old(client.history), client.history, source)
    ensures resume ==> client.committed == old(client.committed) && client.life == old(client.life)
    ensures resume ==> (prepared == Stop(Refused) <==>
              old(client.committed).manifest.NoManifest? || Unfit(client.ctx, source, old(client.committed).tables))
    ensures !resume ==> (prepared == Stop(Refused) <==>
              old(client.committed) != EMPTY || (old(client.life) > 0 && Unfit(client.ctx, source, schema)))
    ensures prepared == Stop(Interrupted) <==>
              !resume && old(client.committed) == EMPTY &&
              old(client.life) < (if Unfit(client.ctx, source, schema) then 1 else 1 + SetUpNeed(source))
    ensures prepared.Stop? ==> prepared.outcome.Refused? || prepared.outcome.Interrupted?
    ensures !resume && prepared == Stop(Refused) ==>
              client.committed ==
              if old(client.committed) == EMPTY then Target(schema, NoManifest) else old(client.committed)
    ensures prepared.Ready? && !resume ==>
              client.committed == SetUp(client.ctx, source) && client.life == old(client.life) - 1 - SetUpNeed(source)
    ensures prepared.Ready? ==>
              && AreTexts(client.ctx, source, prepared.texts) && ConvertibleSource(client.ctx, source)
              && client.committed.tables.Keys == source.rows.Keys && ValidOrder(client.ctx, source, prepared.order)
              && TableOrder.OrderOf(source.names, client.ctx.deps) == TableOrder.Ordered(prepared.order)
  {
    hide Serialized, Values, AllConvertible, ConvertibleSource, AreTexts, CanRun, After, SetUp, SetUpNeed,
      ValidOrder, TableOrder.OrderOf, ValidSource, Continues;
    NothingSent(source, client.history, client.committed, "");
    SetUpKeys(client.ctx, source);
    OrderIsValid(client.ctx, source);
    if resume == (client.committed == EMPTY) || (resume && client.committed.manifest.NoManifest?) {
      return Stop(Refused);
    }
    if !resume {
      var ok := client.RunSchemaMigrations(schema, partial);
      SchemaContinues(old(client.history), CreateSchema(if ok then schema else partial), source);
      if !ok { return Stop(Interrupted); }
    }
    if client.committed.tables.Keys != source.rows.Keys {
      return Stop(Refused);
    }
    var read, texts := ReadSource(client.ctx, source);
    if !read {
      return Stop(Refused);
    }
    TextsRead(client.ctx, source, texts);
    var ordered := TableOrder.OrderTables(source.names, client.ctx.deps);
    if ordered.Cycle? {
      return Stop(Refused);
    }
    if !resume {
      ghost var history := client.history;
      var ok := WriteFreshManifest(client, source);
      ContinuesOn(old(client.history), history, client.history, source);
      if !ok { return Stop(Interrupted); }
    }
    prepared := Prepared.Ready(ordered.tables, texts);
  }

  // ----- Verification -----

  /** The rows of every table come back in some order. */
  ghost predicate IsFetchOrder(fetch: (string, seq<Row>) -> seq<Row>) {
    forall name: string, rows: seq<Row> :: multiset(fetch(name, rows)) == multiset(rows)
  }

  /** A table whose rows, as fetched, convert and pass the checksum. */
  ghost predicate PassesChecksum(ctx: Context, sha: TableChecksum.Hash, texts: map<string, seq<Text>>, name: string,
                                 fetched: seq<Row>) {
    && name in texts && (forall i | 0 <= i < |fetched| :: Convertible(ctx.engine, ctx.columns(name), fetched[i]))
    && TableChecksum.Verified(sha, texts[name], Serialized(ctx.engine, ctx.columns(name), fetched))
  }

  /** Verification of one table. */
  method CheckTable(ctx: Context, sha: TableChecksum.Hash, texts: map<string, seq<Text>>, name: string,
                    fetched: seq<Row>, batchSize: nat)
    returns (passed: bool)
    requires name in texts && batchSize > 0
    ensures passed <==> PassesChecksum(ctx, sha, texts, name, fetched)
  {
    hide Convertible, SerialRow, TableChecksum.Verified;
    var rows: seq<Text> := [];
    for i := 0 to |fetched|
      invariant |rows| == i
      invariant forall j | 0 <= j < i :: Convertible(ctx.engine, ctx.columns(name), fetched[j])
      invariant forall j | 0 <= j < i :: rows[j] == SerialRow(ctx.engine, ctx.columns(name), fetched[j])
    {
      if !Convertible(ctx.engine, ctx.columns(name), fetched[i]) {
        return false;
      }
      rows := rows + [SerialRow(ctx.engine, ctx.columns(name), fetched[i])];
    }
    assert rows == Serialized(ctx.engine, ctx.columns(name), fetched);
    passed := TableChecksum.VerifyTable(sha, batchSize, texts[name], rows);
  }

  /** The verification loop, after everything has been copied. */
  method VerifyTables(client: Client, order: seq<string>, texts: map<string, seq<Text>>, batchSize: nat,
                      sha: TableChecksum.Hash, fetch: (string, seq<Row>) -> seq<Row>) returns (outcome: Outcome)
    requires client.working.Idle? && batchSize > 0
    requires forall i | 0 <= i < |order| :: order[i] in texts && order[i] in client.committed.tables
    modifies client`life, client`working
    ensures client.working.Idle?
    ensures outcome.Interrupted? <==> old(client.life) < |order|
    ensures outcome.Finished? <==> !outcome.Interrupted? && forall i | 0 <= i < |order| ::
              PassesChecksum(client.ctx, sha, texts, order[i], fetch(order[i], client.committed.tables[order[i]]))
    ensures outcome.Finished? || outcome.Unverified? || outcome.Interrupted?
  {
    hide PassesChecksum;
    var verified := true;
    for i := 0 to |order|
      invariant client.working.Idle? && old(client.life) == client.life + i
      invariant verified <==> forall j | 0 <= j < i ::
                  PassesChecksum(client.ctx, sha, texts, order[j], fetch(order[j], client.committed.tables[order[j]]))
    {
      var ok := client.Answered();
      if !ok { return Interrupted; }
      var passed := CheckTable(client.ctx, sha, texts, order[i],
                               fetch(order[i], client.committed.tables[order[i]]), batchSize);
      verified := verified && passed;
    }
    outcome := if verified then Finished else Unverified;
  }

  /** A table of the target, as fetched, converts and passes against the source's checksum. */
  ghost predicate Verifies(ctx: Context, sha: TableChecksum.Hash, fetch: (string, seq<Row>) -> seq<Row>,
                           source: Source, t: Target, name: string) {
    && name in source.rows && name in t.tables
    && AllConvert(ctx.engine, ctx.columns(name), fetch(name, t.tables[name]))
    && TableChecksum.Verified(sha, Serialized(ctx.engine, ctx.columns(name), Values(source.rows[name])),
                              Serialized(ctx.engine, ctx.columns(name), fetch(name, t.tables[name])))
  }

  /** The checksum takes no two different tables of this run for the same. */
  ghost predicate Telling(ctx: Context, sha: TableChecksum.Hash, fetch: (string, seq<Row>) -> seq<Row>,
                          source: Source, t: Target) {
    forall name | name in source.rows && name in t.tables ::
      TableChecksum.Separates(sha, Serialized(ctx.engine, ctx.columns(name), Values(source.rows[name])),
                              Serialized(ctx.engine, ctx.columns(name), fetch(name, t.tables[name])))
  }

  lemma PassesIsVerifies(ctx: Context, sha: TableChecksum.Hash, fetch: (string, seq<Row>) -> seq<Row>,
                         source: Source, t: Target, texts: map<string, seq<Text>>, name: string)
    requires AreTexts(ctx, source, texts) && name in source.rows && name in t.tables
    ensures PassesChecksum(ctx, sha, texts, name, fetch(name, t.tables[name])) <==>
              Verifies(ctx, sha, fetch, source, t, name)
  {
    hide Serialized, Values, Convertible, TableChecksum.Verified;
  }

  /** The fetched rows convert when those of the table do. */
  lemma FetchedConvert(e: Engine, columns: seq<Column>, table: seq<Row>, fetched: seq<Row>)
    requires AllConvert(e, columns, table) && multiset(fetched) == multiset(table)
    ensures AllConvert(e, columns, fetched)
  {
    hide Convertible;
    forall i | 0 <= i < |fetched| ensures Convertible(e, columns, fetched[i]) {
      assert fetched[i] in multiset(fetched);
      assert fetched[i] in table;
    }
  }

  /** After a whole copy every table verifies when the rows sent keep their form, and with a
      telling checksum only then. */
  lemma CopiedTableVerifiesIff(ctx: Context, events: seq<Event>, source: Source, name: string,
                               sha: TableChecksum.Hash, fetch: (string, seq<Row>) -> seq<Row>)
    requires Sound(ctx) && CanRun(ctx, START, events) && StoresOpened(ctx, events)
    requires After(ctx, START, events).session.Open? && After(ctx, START, events).session.source == source
    requires IsComplete(source, After(ctx, START, events).target) && name in source.rows && IsFetchOrder(fetch)
    ensures var s := After(ctx, START, events);
            && name in s.sent
            && (KeepsRows(ctx, name, s.sent[name]) ==> Verifies(ctx, sha, fetch, source, s.target, name))
            && (Telling(ctx, sha, fetch, source, s.target) ==>
                  (Verifies(ctx, sha, fetch, source, s.target, name) <==> KeepsRows(ctx, name, s.sent[name])))
  {
    hide CanRun, After, Sound, StoresOpened, IsComplete, AllConvert, Serialized, Values, KeepsRows,
      TableChecksum.Verified, TableChecksum.Separates;
    CopiedRowsConvert(ctx, events, source, name);
    var table := After(ctx, START, events).target.tables[name];
    FetchedConvert(ctx.engine, ctx.columns(name), table, fetch(name, table));
    CopiedRunVerifiesIff(ctx, events, source, name, sha, fetch(name, table));
  }

  /** All tables together. */
  lemma CopiedTablesVerifyIff(ctx: Context, events: seq<Event>, source: Source,
                              sha: TableChecksum.Hash, fetch: (string, seq<Row>) -> seq<Row>)
    requires Sound(ctx) && CanRun(ctx, START, events) && StoresOpened(ctx, events)
    requires After(ctx, START, events).session.Open? && After(ctx, START, events).session.source == source
    requires IsComplete(source, After(ctx, START, events).target) && IsFetchOrder(fetch)
    ensures var s := After(ctx, START, events);
            && (SentKept(ctx, s) ==>
                forall name | name in source.rows :: Verifies(ctx, sha, fetch, source, s.target, name))
            && (Telling(ctx, sha, fetch, source, s.target) ==>
                  ((forall name | name in source.rows :: Verifies(ctx, sha, fetch, source, s.target, name)) <==>
                   SentKept(ctx, s)))
  {
    hide CanRun, After, Sound, StoresOpened, IsFetchOrder, Telling, Verifies, KeepsRows;
    var s := After(ctx, START, events);
    forall name | name in source.rows
      ensures name in s.sent
      ensures KeepsRows(ctx, name, s.sent[name]) ==> Verifies(ctx, sha, fetch, source, s.target, name)
      ensures Telling(ctx, sha, fetch, source, s.target) ==>
                (Verifies(ctx, sha, fetch, source, s.target, name) <==> KeepsRows(ctx, name, s.sent[name]))
    {
      CopiedTableVerifiesIff(ctx, events, source, name, sha, fetch);
    }
    ReachableIsGood(ctx, events);
    SentAreTables(ctx, s);
  }

  lemma SentAreTables(ctx: Context, s: State)
    requires Good(ctx, s) && s.session.Open?
    ensures s.sent.Keys == s.session.source.rows.Keys
  {
    OpenSameLines(ctx, s);
    hide IsPrefixOf, Lines, ParentsComplete, ConvertibleSource, ValidOrder;
  }

  lemma TextsCover(ctx: Context, source: Source, order: seq<string>, texts: map<string, seq<Text>>)
    requires AreTexts(ctx, source, texts) && ValidSource(source) && ValidOrder(ctx, source, order)
    ensures forall i | 0 <= i < |order| :: order[i] in texts && order[i] in source.rows
  {
    hide Serialized, Values;
    forall i | 0 <= i < |order| ensures order[i] in texts && order[i] in source.rows {
      assert order[i] in source.names;
    }
  }

  lemma AllPassIff(ctx: Context, sha: TableChecksum.Hash, fetch: (string, seq<Row>) -> seq<Row>, source: Source,
                   order: seq<string>, t: Target, texts: map<string, seq<Text>>)
    requires AreTexts(ctx, source, texts) && ValidSource(source) && ValidOrder(ctx, source, order)
    requires t.tables.Keys == source.rows.Keys
    ensures (forall i | 0 <= i < |order| :: order[i] in t.tables &&
               PassesChecksum(ctx, sha, texts, order[i], fetch(order[i], t.tables[order[i]])))
       <==> forall name | name in source.rows :: Verifies(ctx, sha, fetch, source, t, name)
  {
    hide AreTexts, PassesChecksum, Verifies, TableOrder.ParentsFirst;
    forall name | name in source.rows
      ensures PassesChecksum(ctx, sha, texts, name, fetch(name, t.tables[name])) <==>
                Verifies(ctx, sha, fetch, source, t, name)
    {
      PassesIsVerifies(ctx, sha, fetch, source, t, texts, name);
    }
    forall i | 0 <= i < |order| ensures order[i] in source.rows {
      assert order[i] in source.names;
    }
    forall name | name in source.rows ensures exists i | 0 <= i < |order| :: order[i] == name {
      assert name in order;
    }
  }

  /** Verification while the session is still open. */
  method VerifyCopied(client: Client, source: Source, order: seq<string>, texts: map<string, seq<Text>>, batchSize: nat,
                      sha: TableChecksum.Hash, fetch: (string, seq<Row>) -> seq<Row>) returns (outcome: Outcome)
    requires client.working.Idle? && batchSize > 0 && client.committed.tables.Keys == source.rows.Keys
    requires ValidSource(source) && ValidOrder(client.ctx, source, order) && AreTexts(client.ctx, source, texts)
    modifies client`life, client`working
    ensures client.working.Idle? && !outcome.Refused?
    ensures outcome.Interrupted? <==> old(client.life) < |order|
    ensures !outcome.Interrupted? ==>
              (outcome.Finished? <==>
               forall name | name in source.rows :: Verifies(client.ctx, sha, fetch, source, client.committed, name))
  {
    TextsCover(client.ctx, source, order, texts);
    AllPassIff(client.ctx, sha, fetch, source, order, client.committed, texts);
    hide Verifies, PassesChecksum, AreTexts, ValidOrder, ValidSource;
    outcome := VerifyTables(client, order, texts, batchSize, sha, fetch);
  }

  // ----- The loop over the tables -----

  /** The statements that copying one table takes. */
  function TableNeed(ctx: Context, source: Source, t: Target, name: string, batchSize: nat): nat {
    if name in source.rows && CopiedOf(t, name) <= |source.rows[name]| then
      5 * Batches(|source.rows[name]| - CopiedOf(t, name), BatchRows(batchSize, |ctx.columns(name)|))
    else 0
  }

  /** The statements for the first n tables of the order. */
  function CopyNeed(ctx: Context, source: Source, t: Target, order: seq<string>, batchSize: nat, n: nat): nat
    requires n <= |order|
  {
    if n == 0 then 0
    else CopyNeed(ctx, source, t, order, batchSize, n - 1) + TableNeed(ctx, source, t, order[n - 1], batchSize)
  }

  lemma {:induction false} CopyNeedGrows(ctx: Context, source: Source, t: Target, order: seq<string>, batchSize: nat,
                                         m: nat, n: nat)
    requires m <= n <= |order|
    ensures CopyNeed(ctx, source, t, order, batchSize, m) <= CopyNeed(ctx, source, t, order, batchSize, n)
    decreases n
  {
    if m < n {
      CopyNeedGrows(ctx, source, t, order, batchSize, m, n - 1);
    }
  }

  /** The loop over the tables, in their order. */
  method CopyTables(client: Client, source: Source, order: seq<string>, batchSize: nat)
    returns (ok: bool)
    requires Copying(client, source, order, 0) && ValidSource(source) && ValidOrder(client.ctx, source, order)
    requires batchSize > 0
    modifies client
    ensures Takes(CopyNeed(client.ctx, source, old(client.committed), order, batchSize, |order|),
                  old(client.life), ok, client.life)
    ensures client.Explained() && client.working.Idle? && client.begin == old(client.begin)
    ensures Continues(old(client.history), client.history, source)
    ensures ok ==> client.Session() == Open(source, order) && IsComplete(source, client.committed)
  {
    hide Continues, TableNeed, CanRun, After, CopyNeed, CountsKept, Underway, IsComplete, ValidOrder, ValidSource;
    ok := true;
    ghost var t := client.committed;
    NothingSent(source, client.history, t, "");
    NoNeed(client.ctx, source, t, order, batchSize);
    AllCountsKept(t, order);
    for at := 0 to |order|
      invariant client.begin == old(client.begin) && Continues(old(client.history), client.history, source)
      invariant ok && Copying(client, source, order, at)
      invariant CountsKept(t, client.committed, order, at)
      invariant old(client.life) == client.life + CopyNeed(client.ctx, source, t, order, batchSize, at)
    {
      CopyNeedGrows(client.ctx, source, t, order, batchSize, at + 1, |order|);
      ghost var history, before := client.history, client.committed;
      ok := CopyNext(client, source, order, at, batchSize);
      NeedStep(client.ctx, source, before, t, order, batchSize, at);
      ContinuesOn(old(client.history), history, client.history, source);
      if !ok { return; }
      CountsKeptOn(t, before, client.committed, order, at);
    }
    AllTablesComplete(client.ctx, source, order, After(client.ctx, client.begin, client.history));
  }

  /** The checkpoints of the tables from `at` on have not moved. */
  ghost predicate CountsKept(before: Target, after: Target, order: seq<string>, at: nat) {
    forall i | at <= i < |order| :: CopiedOf(after, order[i]) == CopiedOf(before, order[i])
  }

  lemma AllCountsKept(t: Target, order: seq<string>)
    ensures CountsKept(t, t, order, 0)
  {
  }

  lemma CountsKeptOn(t: Target, u: Target, v: Target, order: seq<string>, at: nat)
    requires CountsKept(t, u, order, at) && CountsKept(u, v, order, at + 1)
    ensures CountsKept(t, v, order, at + 1)
  {
    hide CopiedOf;
  }

  lemma ContinuesOn(h: seq<Event>, i: seq<Event>, j: seq<Event>, source: Source)
    requires Continues(h, i, source) && Continues(i, j, source)
    ensures Continues(h, j, source)
  {
  }

  lemma NoNeed(ctx: Context, source: Source, t: Target, order: seq<string>, batchSize: nat)
    ensures CopyNeed(ctx, source, t, order, batchSize, 0) == 0
  {
  }

  lemma NeedStep(ctx: Context, source: Source, now: Target, t: Target, order: seq<string>, batchSize: nat, at: nat)
    requires at < |order| && CountsKept(t, now, order, at)
    ensures CopyNeed(ctx, source, t, order, batchSize, at + 1)
         == CopyNeed(ctx, source, t, order, batchSize, at) + TableNeed(ctx, source, now, order[at], batchSize)
  {
  }

  /** One table of the order, after those before it. */
  method CopyNext(client: Client, source: Source, order: seq<string>, at: nat, batchSize: nat) returns (ok: bool)
    requires at < |order| && ValidOrder(client.ctx, source, order) && Copying(client, source, order, at)
    modifies client
    ensures Takes(TableNeed(client.ctx, source, old(client.committed), order[at], batchSize), old(client.life), ok,
                  client.life)
    ensures client.Explained() && client.working.Idle? && client.begin == old(client.begin)
    ensures Continues(old(client.history), client.history, source)
    ensures ok ==> Copying(client, source, order, at + 1)
                   && CountsKept(old(client.committed), client.committed, order, at + 1)
  {
    hide CanRun, After, Batches, Continues;
    ok := CopyTable(client, source, order, at, order[at], BatchRows(batchSize, |client.ctx.columns(order[at])|));
  }

  lemma AllTablesComplete(ctx: Context, source: Source, order: seq<string>, s: State)
    requires Underway(s, source, order, |order|) && ValidSource(source) && ValidOrder(ctx, source, order)
    ensures s.session == Open(source, order) && IsComplete(source, s.target)
  {
    forall name | name in source.rows ensures Complete(source, s.target, name) {
      assert name in order;
    }
  }

  // ----- The run -----

  lemma OpenIsCopying(client: Client, source: Source, order: seq<string>)
    requires client.Explained() && client.working.Idle? && client.Session() == Open(source, order)
    requires Validates(client.ctx, source, client.committed) && ValidOrder(client.ctx, source, order)
    ensures Copying(client, source, order, 0)
  {
    hide CanRun, After, ConvertibleSource, Fingerprint;
    assert forall n | n in source.rows :: CheckpointMatches(client.ctx, source, client.committed, n);
  }

  /** The statements that copying and verifying what is left takes. */
  function RunNeed(ctx: Context, source: Source, t: Target, order: seq<string>, batchSize: nat): nat {
    CopyNeed(ctx, source, t, order, batchSize, |order|) + |order|
  }

  /** What a run that ended with everything copied knows: it finished exactly when every table
      verifies. From an empty database, over rows that PostgreSQL stores as its types do,
      that is so when the rows sent keep their form, and with a telling checksum only then. */
  ghost predicate Judged(ctx: Context, s: State, source: Source, begin: State, events: seq<Event>, outcome: Outcome,
                         sha: TableChecksum.Hash, fetch: (string, seq<Row>) -> seq<Row>) {
    && IsComplete(source, s.target)
    && (outcome.Finished? <==> forall name | name in source.rows :: Verifies(ctx, sha, fetch, source, s.target, name))
    && (begin == START && Sound(ctx) && StoresOpened(ctx, events) ==>
          && (SentKept(ctx, s) ==> outcome.Finished?)
          && (Telling(ctx, sha, fetch, source, s.target) ==> (outcome.Finished? <==> SentKept(ctx, s))))
  }

  lemma CopiedIsJudged(ctx: Context, begin: State, events: seq<Event>, source: Source, outcome: Outcome,
                       sha: TableChecksum.Hash, fetch: (string, seq<Row>) -> seq<Row>)
    requires CanRun(ctx, begin, events) && IsFetchOrder(fetch)
    requires After(ctx, begin, events).session.Open? && After(ctx, begin, events).session.source == source
    requires IsComplete(source, After(ctx, begin, events).target)
    requires outcome.Finished? <==>
               forall name | name in source.rows ::
                   Verifies(ctx, sha, fetch, source, After(ctx, begin, events).target, name)
    ensures CanRun(ctx, begin, events + [EndRun])
    ensures Judged(ctx, After(ctx, begin, events + [EndRun]), source, begin, events + [EndRun], outcome, sha, fetch)
  {
    hide CanRun, After, Sound, StoresOpened, IsComplete, Verifies, Telling, IsFetchOrder, KeepsRows, Enabled, Next;
    EndRunKeeps(ctx, After(ctx, begin, events));
    Extended(ctx, begin, events, EndRun);
    if begin == START && Sound(ctx) && StoresOpened(ctx, events + [EndRun]) {
      OpenedBefore(ctx, events, EndRun);
      CopiedTablesVerifyIff(ctx, events, source, sha, fetch);
    }
  }

  lemma EndRunKeeps(ctx: Context, s: State)
    ensures Enabled(ctx, s, EndRun) && Next(ctx, s, EndRun) == s.(session := Closed)
  {
  }

  lemma OpenedBefore(ctx: Context, events: seq<Event>, e: Event)
    requires StoresOpened(ctx, events + [e])
    ensures StoresOpened(ctx, events)
  {
    hide IsOpened, StoresRow;
    forall name, row | IsOpened(events, name, row) ensures StoresRow(ctx, name, row) {
      OpenedExtends(events, e, name, row);
    }
  }

  /** What a prepared run does: validate, copy, verify. */
  method CopyAndVerify(client: Client, source: Source, order: seq<string>, texts: map<string, seq<Text>>,
                       batchSize: nat, sha: TableChecksum.Hash, fetch: (string, seq<Row>) -> seq<Row>)
    returns (outcome: Outcome)
    requires client.Explained() && client.Session().Closed? && client.working.Idle?
    requires ValidSource(source) && ConvertibleSource(client.ctx, source) && IsFetchOrder(fetch) && batchSize > 0
    requires client.committed.tables.Keys == source.rows.Keys && ValidOrder(client.ctx, source, order)
    requires AreTexts(client.ctx, source, texts)
    modifies client
    ensures client.Explained() && client.Session().Closed? && client.working.Idle?
    ensures client.begin == old(client.begin) && Continues(old(client.history), client.history, source)
    ensures outcome.Refused? <==> !Validates(client.ctx, source, old(client.committed))
    ensures outcome.Refused? ==> client.committed == old(client.committed)
    ensures !outcome.Refused? ==>
              (outcome.Interrupted? <==>
               old(client.life) < RunNeed(client.ctx, source, old(client.committed), order, batchSize))
    ensures outcome.Finished? || outcome.Unverified? ==>
              Judged(client.ctx, After(client.ctx, client.begin, client.history), source, client.begin, client.history,
                     outcome, sha, fetch)
  {
    hide Complete, Sound, StoresOpened, Serialized, Values, AllConvertible, Verifies, Telling, CopyNeed, Validates,
      PassesChecksum, CheckpointMatches, ConvertibleSource, IsFetchOrder, AreTexts, CanRun, After, Copying, Judged;
    var valid := ValidateManifest(client.ctx, source, order, client.committed);
    if !valid {
      return Refused;
    }
    client.Record(OpenRun(source, order));
    OpenIsCopying(client, source, order);
    var ok := CopyTables(client, source, order, batchSize);
    if !ok {
      client.Record(EndRun);
      return Interrupted;
    }
    outcome := VerifyCopied(client, source, order, texts, batchSize, sha, fetch);
    if !outcome.Interrupted? {
      CopiedIsJudged(client.ctx, client.begin, client.history, source, outcome, sha, fetch);
    }
    client.Record(EndRun);
  }

  // ----- From first run to resume -----

  /** Every row of this source is stored as its column types do. */
  ghost predicate StoresSource(ctx: Context, source: Source) {
    forall name, row | name in source.rows && row in source.rows[name] :: StoresRow(ctx, name, row)
  }

  ghost predicate KeepsSource(ctx: Context, source: Source) {
    forall name | name in source.rows :: KeepsRows(ctx, name, source.rows[name])
  }

  lemma OpensMore(ctx: Context, before: seq<Event>, after: seq<Event>, source: Source)
    requires Continues(before, after, source)
    ensures StoresOpened(ctx, before) && StoresSource(ctx, source) ==> StoresOpened(ctx, after)
    ensures KeepsOpened(ctx, before) && KeepsSource(ctx, source) ==> KeepsOpened(ctx, after)
  {
    hide StoresRow, RowKeepsForm;
    forall name, row | IsOpened(after, name, row)
      ensures IsOpened(before, name, row) || (name in source.rows && row in source.rows[name])
    {
      var e :| e in after && e.OpenRun? && name in e.source.rows && row in e.source.rows[name];
      if e in before { FromOpened(before, e, name, row); }
    }
    hide IsOpened;
    if KeepsSource(ctx, source) {
      forall name, row | name in source.rows && row in source.rows[name]
        ensures RowKeepsForm(ctx.engine, ctx.columns(name), row.values)
      {
        var i :| 0 <= i < |source.rows[name]| && source.rows[name][i] == row;
        assert KeepsRows(ctx, name, source.rows[name]);
      }
    }
  }

  /** The manifest of a first run validates as soon as it is written. */
  lemma SetUpValidates(ctx: Context, source: Source)
    requires ValidSource(source) && ConvertibleSource(ctx, source)
    ensures Validates(ctx, source, SetUp(ctx, source))
  {
    hide ConvertibleSource, Fingerprint;
    NamesCount(source);
    var rows := SetUp(ctx, source).manifest.rows;
    assert rows.Keys == source.rows.Keys && |rows| == |rows.Keys|;
  }

  lemma ValidatesIsFit(ctx: Context, source: Source, t: Target)
    requires Validates(ctx, source, t)
    ensures t != EMPTY && t.manifest.Manifest? && t.tables.Keys == source.rows.Keys && ConvertibleSource(ctx, source)
  {
    hide ConvertibleSource, CheckpointMatches;
  }

  /** The statements a run sends at most: it ends early exactly when the connection answers
      fewer. */
  ghost function Need(ctx: Context, source: Source, t: Target, resume: bool, schema: map<string, seq<Row>>,
                      batchSize: nat): nat {
    match TableOrder.OrderOf(source.names, ctx.deps)
    case Cycle(_) => if resume then 0 else 1
    case Ordered(order) =>
      if resume then RunNeed(ctx, source, t, order, batchSize)
      else if Unfit(ctx, source, schema) then 1
      else 1 + SetUpNeed(source) + RunNeed(ctx, source, SetUp(ctx, source), order, batchSize)
  }

  /** When a run stops because of what it finds. */
  ghost predicate Refuses(ctx: Context, source: Source, t: Target, resume: bool, schema: map<string, seq<Row>>,
                          life: nat) {
    if resume then !Validates(ctx, source, t) || TableOrder.OrderOf(source.names, ctx.deps).Cycle?
    else t != EMPTY || (life > 0 && Unfit(ctx, source, schema))
  }

  /** From an empty database, every row of this source and of those opened before is stored as its
      column types do, and keeps its form. */
  ghost predicate Preserved(ctx: Context, begin: State, history: seq<Event>, source: Source) {
    && begin == START && Sound(ctx)
    && StoresOpened(ctx, history) && StoresSource(ctx, source)
    && KeepsOpened(ctx, history) && KeepsSource(ctx, source)
  }

  /** Every value of the source is as it was when the copy was set up, as far as the migrator
      compares, and the foreign keys have no cycle. */
  ghost predicate Resumable(ctx: Context, s: State, source: Source) {
    && s.origin.From? && Unchanged(ctx, s.origin.source, source) && ConvertibleSource(ctx, source)
    && TableOrder.OrderOf(source.names, ctx.deps).Ordered?
  }

  lemma ResumableValidates(ctx: Context, events: seq<Event>, source: Source)
    requires Sound(ctx) && CanRun(ctx, START, events) && ValidSource(source)
    requires Resumable(ctx, After(ctx, START, events), source)
    ensures Validates(ctx, source, After(ctx, START, events).target)
  {
    ReachableIsGood(ctx, events);
    var s := After(ctx, START, events);
    GoodCopy(ctx, s);
    hide CanRun, After, Good, IsPrefixCopy, ConvertibleSource, RowsUnchanged, Sound;
    UnchangedIsAccepted(ctx, s.origin.source, source, s.target, s.sent);
  }

  lemma PreservedFinishes(ctx: Context, begin: State, before: seq<Event>, after: seq<Event>, source: Source,
                          outcome: Outcome, sha: TableChecksum.Hash, fetch: (string, seq<Row>) -> seq<Row>)
    requires Preserved(ctx, begin, before, source) && Continues(before, after, source) && CanRun(ctx, begin, after)
    requires Judged(ctx, After(ctx, begin, after), source, begin, after, outcome, sha, fetch)
    ensures outcome.Finished?
  {
    hide CanRun, After, Sound, StoresOpened, KeepsOpened, StoresSource, KeepsSource, SentKept, Verifies, Telling,
      IsComplete;
    OpensMore(ctx, before, after, source);
    OpenedKept(ctx, after);
  }

  /** A run of the migrator up to the checksum report. `schema` and `partial` are what the schema
      migrations leave in an empty target, and `fetch` is the order a cursor returns rows in. */
  method Migrate(client: Client, source: Source, batchSize: int, resume: bool, schema: map<string, seq<Row>>,
                 partial: map<string, seq<Row>>, sha: TableChecksum.Hash, fetch: (string, seq<Row>) -> seq<Row>)
    returns (outcome: Outcome)
    requires client.Explained() && client.Session().Closed? && client.working.Idle?
    requires ValidSource(source) && IsFetchOrder(fetch)
    modifies client
    ensures client.Explained() && client.Session().Closed? && client.working.Idle?
    ensures client.begin == old(client.begin) && Continues(old(client.history), client.history, source)
    ensures outcome.Refused? <==>
              !(1 <= batchSize <= 10000)
                  || Refuses(client.ctx, source, old(client.committed), resume, schema, old(client.life))
    ensures outcome.Refused? ==>
              client.committed == old(client.committed) ||
              (!resume && old(client.committed) == EMPTY && client.committed == Target(schema, NoManifest))
    ensures outcome.Interrupted? <==>
              !outcome.Refused?
                  && old(client.life) < Need(client.ctx, source, old(client.committed), resume, schema, batchSize)
    ensures outcome.Finished? || outcome.Unverified? ==>
              Judged(client.ctx, After(client.ctx, client.begin, client.history), source, client.begin, client.history,
                     outcome, sha, fetch)
    ensures Preserved(client.ctx, client.begin, old(client.history), source) ==> !outcome.Unverified?
    ensures Preserved(client.ctx, client.begin, old(client.history), source) && resume && 1 <= batchSize <= 10000
            && Resumable(client.ctx, old(After(client.ctx, client.begin, client.history)), source)
            && old(client.life) >= Need(client.ctx, source, old(client.committed), resume, schema, batchSize)
            ==> outcome.Finished?
  {
    hide Complete, Sound, StoresOpened, Serialized, Values, AllConvertible, ConvertibleSource, Verifies, Telling,
      Validates, AreTexts, PassesChecksum, CheckpointMatches, ValidOrder, CanRun, After, Judged, RunNeed, SetUp,
      IsFetchOrder, Preserved, Resumable;
    PreservedIsSound(client.ctx, client.begin, client.history, source);
    ResumableIsOrdered(client.ctx, After(client.ctx, client.begin, client.history), source);
    if Preserved(client.ctx, client.begin, client.history, source)
       && Resumable(client.ctx, After(client.ctx, client.begin, client.history), source) {
      ResumableValidates(client.ctx, client.history, source);
    }
    if batchSize < 1 || batchSize > 10000 {
      return Refused;
    }
    var prepared := PrepareTarget(client, source, resume, schema, partial);
    ghost var history := client.history;
    if Validates(client.ctx, source, old(client.committed)) {
      ValidatesIsFit(client.ctx, source, old(client.committed));
    }
    if prepared.Stop? {
      return prepared.outcome;
    }
    SetUpValidates(client.ctx, source);
    outcome := CopyAndVerify(client, source, prepared.order, prepared.texts, batchSize, sha, fetch);
    ContinuesOn(old(client.history), history, client.history, source);
    if (outcome.Finished? || outcome.Unverified?) && Preserved(client.ctx, client.begin, old(client.history), source) {
      PreservedFinishes(client.ctx, client.begin, old(client.history), client.history, source, outcome, sha, fetch);
    }
  }

  lemma PreservedIsSound(ctx: Context, begin: State, history: seq<Event>, source: Source)
    ensures Preserved(ctx, begin, history, source) ==> begin == START && Sound(ctx)
  {
  }

  lemma ResumableIsOrdered(ctx: Context, s: State, source: Source)
    ensures Resumable(ctx, s, source) ==> TableOrder.OrderOf(source.names, ctx.deps).Ordered?
  {
  }
}
