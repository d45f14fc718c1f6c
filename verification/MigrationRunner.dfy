/** The migration runner (src/db/migrate.ts, src/db/migration-files.ts): which files an up or down
    run touches, and what they leave in the history table. */
module MigrationRunner {
  import opened Options

  // ----- File names -----

  predicate EndsWith(s: string, suffix: string) {
    |s| >= |suffix| && s[|s| - |suffix|..] == suffix
  }

  predicate IsDown(filename: string) {
    EndsWith(filename, ".down.sql")
  }

  predicate IsPostgresDialectFile(filename: string) {
    EndsWith(filename, "_postgres.sql") || EndsWith(filename, "_postgres.down.sql")
  }

  /** The other dialect's name for the same migration. */
  function CounterpartName(f: string): string {
    if EndsWith(f, "_postgres.down.sql") then f[..|f| - 18] + ".down.sql"
    else if EndsWith(f, "_postgres.sql") then f[..|f| - 13] + ".sql"
    else if EndsWith(f, ".down.sql") then f[..|f| - 9] + "_postgres.down.sql"
    else if EndsWith(f, ".sql") then f[..|f| - 4] + "_postgres.sql"
    else f
  }

  predicate HasCounterpart(f: string, allFiles: seq<string>) {
    CounterpartName(f) in allFiles
  }

  predicate StartsAt(s: string, i: nat, pattern: string) {
    i + |pattern| <= |s| && s[i..i + |pattern|] == pattern
  }

  /** Index of the first occurrence at or after `i`, or the length. */
  function Find(s: string, i: nat, pattern: string): (k: nat)
    requires i <= |s|
    ensures k <= |s|
    decreases |s| - i
  {
    if i == |s| || StartsAt(s, i, pattern) then i else Find(s, i + 1, pattern)
  }

  /** A string pattern replaces its first occurrence only. */
  function DownName(f: string): string {
    var k := Find(f, 0, ".sql");
    if StartsAt(f, k, ".sql") then f[..k] + ".down.sql" + f[k + 4..] else f
  }

  function DownMigrationFile(f: string, allFiles: seq<string>): Option<string> {
    if DownName(f) in allFiles then Some(DownName(f)) else None
  }

  function UpFiles(allFiles: seq<string>): seq<string> {
    if allFiles == [] then []
    else
      var before, last := UpFiles(allFiles[..|allFiles| - 1]), allFiles[|allFiles| - 1];
      if IsDown(last) then before else before + [last]
  }

  predicate Distinct(files: seq<string>) {
    forall i, j | 0 <= i < j < |files| :: files[i] != files[j]
  }

  // ----- The database -----

  /** What executing a migration's SQL did; `duplicate` is an error that says the thing is
      already there. */
  datatype Outcome<S> = Done(schema: S) | Failed(duplicate: bool)

  /** `read` gives a file's text; `exec` the effect of the n-th execution, which may also fail
      for reasons of its own. */
  datatype Config<!S> = Config(
    isPostgres: bool,
    allFiles: seq<string>,
    read: string -> string,
    toPostgres: string -> string,
    toSqlite: string -> string,
    exec: (nat, string, S) -> Outcome<S>)

  /** `applied` is the history table. `commits` and `reverts` list the files whose SQL committed. */
  datatype Db<S> = Db(applied: set<string>, schema: S, commits: seq<string>, reverts: seq<string>, attempts: nat)

  datatype Result = Result(filename: string, sql: string, applied: bool)

  function FinalSql<S>(c: Config<S>, f: string): string {
    if c.isPostgres then (if IsPostgresDialectFile(f) then c.read(f) else c.toPostgres(c.read(f)))
    else (if IsPostgresDialectFile(f) then c.toSqlite(c.read(f)) else c.read(f))
  }

  /** Written for the other database, with a counterpart written for this one. */
  predicate Shadowed<S>(c: Config<S>, f: string) {
    IsPostgresDialectFile(f) != c.isPostgres && HasCounterpart(f, c.allFiles)
  }

  predicate IsCrossDriver<S>(c: Config<S>, f: string) {
    IsPostgresDialectFile(f) && !c.isPostgres
  }

  function Recorded<S>(db: Db<S>, f: string): Db<S> {
    db.(applied := db.applied + {f})
  }

  function UpOne<S>(c: Config<S>, db: Db<S>, f: string, dryRun: bool): (Db<S>, Result) {
    if Shadowed(c, f) then (if dryRun then db else Recorded(db, f), Result(f, "", true))
    else
      var sql := FinalSql(c, f);
      if dryRun then (db, Result(f, sql, true))
      else
        var tried := db.(attempts := db.attempts + 1);
        match c.exec(db.attempts, sql, db.schema)
        case Done(schema) => (Recorded(tried, f).(schema := schema, commits := db.commits + [f]), Result(f, sql, true))
        case Failed(duplicate) =>
          if IsCrossDriver(c, f) || duplicate then (Recorded(tried, f), Result(f, sql, true))
          else (tried, Result(f, sql, false))
  }

  function UpAll<S>(c: Config<S>, db: Db<S>, files: seq<string>, dryRun: bool): (Db<S>, seq<Result>) {
    if files == [] then (db, [])
    else
      var (before, results) := UpAll(c, db, files[..|files| - 1], dryRun);
      var (after, result) := UpOne(c, before, files[|files| - 1], dryRun);
      (after, results + [result])
  }

  function DownOne<S>(c: Config<S>, db: Db<S>, f: string, dryRun: bool): (Db<S>, Result) {
    var down := DownMigrationFile(f, c.allFiles);
    if down.None? then (db, Result(DownName(f), "", false))
    else
      var sql := FinalSql(c, down.value);
      if dryRun then (db, Result(down.value, sql, true))
      else
        var tried := db.(attempts := db.attempts + 1);
        match c.exec(db.attempts, sql, db.schema)
        case Done(schema) =>
          (tried.(applied := db.applied - {f}, schema := schema, reverts := db.reverts + [f]),
           Result(down.value, sql, true))
        case Failed(_) =>
          if IsCrossDriver(c, down.value) then (tried.(applied := db.applied - {f}), Result(down.value, sql, true))
          else (tried, Result(down.value, sql, false))
  }

  function DownAll<S>(c: Config<S>, db: Db<S>, files: seq<string>, dryRun: bool): (Db<S>, seq<Result>) {
    if files == [] then (db, [])
    else
      var (before, results) := DownAll(c, db, files[..|files| - 1], dryRun);
      var (after, result) := DownOne(c, before, files[|files| - 1], dryRun);
      (after, results + [result])
  }

  // ----- Which files -----

  function Pending(files: seq<string>, applied: set<string>): seq<string> {
    if files == [] then []
    else
      var before, last := Pending(files[..|files| - 1], applied), files[|files| - 1];
      if last in applied then before else before + [last]
  }

  function AppliedOf(files: seq<string>, applied: set<string>): seq<string> {
    if files == [] then []
    else
      var before, last := AppliedOf(files[..|files| - 1], applied), files[|files| - 1];
      if last in applied then before + [last] else before
  }

  function Reverse(s: seq<string>): seq<string> {
    if s == [] then [] else [s[|s| - 1]] + Reverse(s[..|s| - 1])
  }

  function Min(a: int, b: int): int {
    if a <= b then a else b
  }

  /** `s.slice(0, end)`: a negative end counts from the back. */
  function SliceTo(s: seq<string>, end: int): seq<string> {
    if end < 0 then s[..|s| - Min(-end, |s|)] else s[..Min(end, |s|)]
  }

  /** `s.slice(start)`: a negative start counts from the back. */
  function SliceFrom(s: seq<string>, start: int): seq<string> {
    if start < 0 then s[|s| - Min(-start, |s|)..] else s[Min(start, |s|)..]
  }

  function FilesToApply<S>(c: Config<S>, applied: set<string>, steps: Option<int>): seq<string> {
    var pending := Pending(UpFiles(c.allFiles), applied);
    SliceTo(pending, if steps.Some? then steps.value else |pending|)
  }

  function FilesToRevert<S>(c: Config<S>, applied: set<string>, steps: Option<int>): seq<string> {
    var appliedUp := AppliedOf(UpFiles(c.allFiles), applied);
    Reverse(SliceFrom(appliedUp, -(if steps.Some? then steps.value else |appliedUp|)))
  }

  function UpRun<S>(c: Config<S>, db: Db<S>, steps: Option<int>, dryRun: bool): (Db<S>, seq<Result>) {
    UpAll(c, db, FilesToApply(c, db.applied, steps), dryRun)
  }

  function DownRun<S>(c: Config<S>, db: Db<S>, steps: Option<int>, dryRun: bool): (Db<S>, seq<Result>) {
    DownAll(c, db, FilesToRevert(c, db.applied, steps), dryRun)
  }

  predicate ErrorFree(results: seq<Result>) {
    forall r | r in results :: r.applied
  }

  // ----- The loops -----

  /** The driver's database, changed in place. */
  class Database<!S> {
    var applied: set<string>
    var schema: S
    var commits: seq<string>
    var reverts: seq<string>
    var attempts: nat

    function Now(): Db<S>
      reads this
    {
      Db(applied, schema, commits, reverts, attempts)
    }

    constructor (schema: S)
      ensures Now() == Db({}, schema, [], [], 0)
    {
      applied, this.schema, commits, reverts, attempts := {}, schema, [], [], 0;
    }

    /** One atomic transaction: the SQL, then the history row. */
    method Execute(c: Config<S>, sql: string) returns (outcome: Outcome<S>)
      modifies `attempts, `schema
      ensures outcome == c.exec(old(attempts), sql, old(schema)) && attempts == old(attempts) + 1
      ensures schema == if outcome.Done? then outcome.schema else old(schema)
    {
      outcome := c.exec(attempts, sql, schema);
      attempts := attempts + 1;
      if outcome.Done? {
        schema := outcome.schema;
      }
    }

    method Apply(c: Config<S>, f: string, dryRun: bool) returns (result: Result)
      modifies this
      ensures (Now(), result) == UpOne(c, old(Now()), f, dryRun)
    {
      if Shadowed(c, f) {
        if !dryRun {
          applied := applied + {f};
        }
        return Result(f, "", true);
      }
      var sql := FinalSql(c, f);
      if dryRun {
        return Result(f, sql, true);
      }
      var outcome := Execute(c, sql);
      match outcome {
        case Done(_) =>
          applied, commits := applied + {f}, commits + [f];
          result := Result(f, sql, true);
        case Failed(duplicate) =>
          if IsCrossDriver(c, f) || duplicate {
            applied := applied + {f};
            result := Result(f, sql, true);
          } else {
            result := Result(f, sql, false);
          }
      }
    }

    method Revert(c: Config<S>, f: string, dryRun: bool) returns (result: Result)
      modifies this
      ensures (Now(), result) == DownOne(c, old(Now()), f, dryRun)
    {
      var down := DownMigrationFile(f, c.allFiles);
      if down.None? {
        return Result(DownName(f), "", false);
      }
      var sql := FinalSql(c, down.value);
      if dryRun {
        return Result(down.value, sql, true);
      }
      var outcome := Execute(c, sql);
      match outcome {
        case Done(_) =>
          applied, reverts := applied - {f}, reverts + [f];
          result := Result(down.value, sql, true);
        case Failed(_) =>
          if IsCrossDriver(c, down.value) {
            applied := applied - {f};
            result := Result(down.value, sql, true);
          } else {
            result := Result(down.value, sql, false);
          }
      }
    }

    method ProcessUpMigrations(c: Config<S>, steps: Option<int>, dryRun: bool) returns (results: seq<Result>)
      modifies this
      ensures (Now(), results) == UpRun(c, old(Now()), steps, dryRun)
    {
      hide UpOne, FilesToApply;
      var files := FilesToApply(c, applied, steps);
      results := [];
      var i := 0;
      while i < |files|
        invariant i <= |files| && (Now(), results) == UpAll(c, old(Now()), files[..i], dryRun)
      {
        assert files[..i + 1][..i] == files[..i];
        var result := Apply(c, files[i], dryRun);
        results := results + [result];
        i := i + 1;
      }
      assert files[..i] == files;
    }

    method ProcessDownMigrations(c: Config<S>, steps: Option<int>, dryRun: bool) returns (results: seq<Result>)
      modifies this
      ensures (Now(), results) == DownRun(c, old(Now()), steps, dryRun)
    {
      hide DownOne, FilesToRevert;
      var files := FilesToRevert(c, applied, steps);
      results := [];
      var i := 0;
      while i < |files|
        invariant i <= |files| && (Now(), results) == DownAll(c, old(Now()), files[..i], dryRun)
      {
        assert files[..i + 1][..i] == files[..i];
        var result := Revert(c, files[i], dryRun);
        results := results + [result];
        i := i + 1;
      }
      assert files[..i] == files;
    }
  }

  // ----- At most once -----

  /** Whatever committed is in the history, and committed once. */
  ghost predicate OnceGood<S>(db: Db<S>) {
    Distinct(db.commits) && forall f | f in db.commits :: f in db.applied
  }

  lemma UpOneOnce<S>(c: Config<S>, db: Db<S>, f: string, dryRun: bool)
    requires OnceGood(db) && f !in db.applied
    ensures OnceGood(UpOne(c, db, f, dryRun).0)
    ensures UpOne(c, db, f, dryRun).0.applied <= db.applied + {f}
  {
    hide FinalSql, Shadowed, IsCrossDriver;
  }

  lemma {:induction false} UpAllOnce<S>(c: Config<S>, db: Db<S>, files: seq<string>, dryRun: bool)
    requires OnceGood(db) && Distinct(files) && forall f | f in files :: f !in db.applied
    ensures OnceGood(UpAll(c, db, files, dryRun).0)
    ensures forall f | f in UpAll(c, db, files, dryRun).0.applied :: f in db.applied || f in files
  {
    hide OnceGood, UpOne;
    if files != [] {
      var before, last := files[..|files| - 1], files[|files| - 1];
      UpAllOnce(c, db, before, dryRun);
      UpOneOnce(c, UpAll(c, db, before, dryRun).0, last, dryRun);
    }
  }

  lemma {:induction false} PendingGood(files: seq<string>, applied: set<string>)
    requires Distinct(files)
    ensures Distinct(Pending(files, applied))
    ensures forall f :: f in Pending(files, applied) <==> f in files && f !in applied
  {
    if files != [] {
      PendingGood(files[..|files| - 1], applied);
    }
  }

  lemma {:induction false} UpFilesGood(allFiles: seq<string>)
    requires Distinct(allFiles)
    ensures Distinct(UpFiles(allFiles))
    ensures forall f :: f in UpFiles(allFiles) <==> f in allFiles && !IsDown(f)
  {
    hide IsDown;
    if allFiles != [] {
      UpFilesGood(allFiles[..|allFiles| - 1]);
    }
  }

  lemma FilesToApplyGood<S>(c: Config<S>, applied: set<string>, steps: Option<int>)
    requires Distinct(c.allFiles)
    ensures Distinct(FilesToApply(c, applied, steps))
    ensures forall f | f in FilesToApply(c, applied, steps) :: f in UpFiles(c.allFiles) && f !in applied
  {
    hide Pending, UpFiles;
    UpFilesGood(c.allFiles);
    PendingGood(UpFiles(c.allFiles), applied);
  }

  /** One up run: its configuration may differ from the others' in every way. */
  datatype Run<!S> = Run(config: Config<S>, steps: Option<int>, dryRun: bool)

  function UpRuns<S>(db: Db<S>, runs: seq<Run<S>>): Db<S>
    decreases |runs|
  {
    if runs == [] then db
    else
      var last := runs[|runs| - 1];
      UpRun(last.config, UpRuns(db, runs[..|runs| - 1]), last.steps, last.dryRun).0
  }

  /** Across any sequence of up runs, over any directories and outcomes, each file's SQL commits
      at most once. */
  lemma {:induction false} EachFileCommitsOnce<S>(db: Db<S>, runs: seq<Run<S>>)
    requires OnceGood(db) && forall i | 0 <= i < |runs| :: Distinct(runs[i].config.allFiles)
    ensures OnceGood(UpRuns(db, runs))
    decreases |runs|
  {
    if runs != [] {
      var before, last := UpRuns(db, runs[..|runs| - 1]), runs[|runs| - 1];
      EachFileCommitsOnce(db, runs[..|runs| - 1]);
      FilesToApplyGood(last.config, before.applied, last.steps);
      UpAllOnce(last.config, before, FilesToApply(last.config, before.applied, last.steps), last.dryRun);
    }
  }

  // ----- Shadowed files -----

  lemma {:induction false} UpAllSkips<S>(c: Config<S>, db: Db<S>, files: seq<string>, f: string, dryRun: bool)
    requires Shadowed(c, f)
    ensures f in UpAll(c, db, files, dryRun).0.commits <==> f in db.commits
  {
    hide Shadowed, FinalSql, IsCrossDriver;
    if files != [] {
      UpAllSkips(c, db, files[..|files| - 1], f, dryRun);
    }
  }

  /** A file of the other dialect whose counterpart exists is never executed; a run that reaches
      it records it. */
  lemma ShadowedNeverExecuted<S>(c: Config<S>, db: Db<S>, f: string, steps: Option<int>, dryRun: bool)
    requires Shadowed(c, f)
    ensures f in UpRun(c, db, steps, dryRun).0.commits <==> f in db.commits
    ensures !dryRun && f in FilesToApply(c, db.applied, steps) ==> f in UpRun(c, db, steps, dryRun).0.applied
  {
    var files := FilesToApply(c, db.applied, steps);
    hide Shadowed, FilesToApply;
    UpAllSkips(c, db, files, f, dryRun);
    if !dryRun && f in files {
      UpAllRecords(c, db, files);
      var i :| 0 <= i < |files| && files[i] == f;
      ShadowedSucceeds(c, db, files, i);
    }
  }

  lemma {:induction false} ShadowedSucceeds<S>(c: Config<S>, db: Db<S>, files: seq<string>, i: nat)
    requires i < |files| && Shadowed(c, files[i])
    ensures |UpAll(c, db, files, false).1| == |files| && UpAll(c, db, files, false).1[i].applied
  {
    hide Shadowed, FinalSql, IsCrossDriver;
    UpAllRecords(c, db, files);
    if i < |files| - 1 {
      ShadowedSucceeds(c, db, files[..|files| - 1], i);
    }
  }

  /** Exactly the files whose result carries no error are added to the history. */
  lemma {:induction false} UpAllRecords<S>(c: Config<S>, db: Db<S>, files: seq<string>)
    ensures |UpAll(c, db, files, false).1| == |files|
    ensures forall f :: f in UpAll(c, db, files, false).0.applied <==>
              f in db.applied || exists i ::
                  0 <= i < |files| && files[i] == f && UpAll(c, db, files, false).1[i].applied
  {
    if files != [] {
      var n := |files| - 1;
      var was, now := UpAll(c, db, files[..n], false), UpAll(c, db, files, false);
      UpAllRecords(c, db, files[..n]);
      UpOneRecords(c, was.0, files[n]);
      hide UpAll, UpOne;
      forall f ensures f in now.0.applied <==>
                         f in db.applied || exists i :: 0 <= i < |files| && files[i] == f && now.1[i].applied {
        RecordsNext(files, was.1, now.1, f);
      }
    }
  }

  lemma UpOneRecords<S>(c: Config<S>, db: Db<S>, f: string)
    ensures UpOne(c, db, f, false).0.applied ==
            if UpOne(c, db, f, false).1.applied then db.applied + {f} else db.applied
  {
    hide Shadowed, FinalSql, IsCrossDriver;
  }

  lemma RecordsNext(files: seq<string>, was: seq<Result>, now: seq<Result>, f: string)
    requires files != [] && |was| == |files| - 1 && |now| == |files| && now[..|was|] == was
    ensures (exists i :: 0 <= i < |files| && files[i] == f && now[i].applied) <==>
            (exists i :: 0 <= i < |was| && files[..|was|][i] == f && was[i].applied)
                || (files[|was|] == f && now[|was|].applied)
  {
    if i :| 0 <= i < |was| && files[..|was|][i] == f && was[i].applied {
      assert files[i] == f && now[i].applied;
    }
    if i :| 0 <= i < |files| && files[i] == f && now[i].applied && i < |was| {
      assert files[..|was|][i] == f && was[i].applied;
    }
  }

  // ----- A full run -----

  /** A full run leaves every migration in the history exactly when none of its results carries
      an error, and then any further up run executes and records nothing. */
  lemma FullRunCompletes<S>(c: Config<S>, db: Db<S>)
    requires Distinct(c.allFiles)
    ensures var (done, results) := UpRun(c, db, None, false);
            ErrorFree(results) <==> forall f | f in UpFiles(c.allFiles) :: f in done.applied
  {
    var up := UpFiles(c.allFiles);
    var files := FilesToApply(c, db.applied, None);
    UpFilesGood(c.allFiles);
    PendingGood(up, db.applied);
    hide UpAll, Pending, UpFiles;
    assert files == Pending(up, db.applied);
    UpAllRecords(c, db, files);
    var (done, results) := UpRun(c, db, None, false);
    if ErrorFree(results) {
      forall f | f in up ensures f in done.applied {
        if f in files {
          var i :| 0 <= i < |files| && files[i] == f;
          assert results[i] in results;
        }
      }
    } else {
      var r :| r in results && !r.applied;
      var i :| 0 <= i < |results| && results[i] == r;
      assert files[i] in files;
      assert forall j | 0 <= j < |files| && files[j] == files[i] :: j == i;
    }
  }

  lemma CompleteHistoryRunsNothing<S>(c: Config<S>, db: Db<S>, steps: Option<int>, dryRun: bool)
    requires Distinct(c.allFiles) && forall f | f in UpFiles(c.allFiles) :: f in db.applied
    ensures UpRun(c, db, steps, dryRun) == (db, [])
  {
    FilesToApplyGood(c, db.applied, steps);
    hide FilesToApply;
    var files := FilesToApply(c, db.applied, steps);
    HeadIn(files);
  }

  lemma HeadIn(files: seq<string>)
    ensures files == [] || files[0] in files
  {
  }

  /** Twice in a row: the second run finds nothing to do. */
  lemma SecondRunExecutesNothing<S>(c: Config<S>, db: Db<S>, steps: Option<int>, dryRun: bool)
    requires Distinct(c.allFiles) && ErrorFree(UpRun(c, db, None, false).1)
    ensures var done := UpRun(c, db, None, false).0; UpRun(c, done, steps, dryRun) == (done, [])
  {
    FullRunCompletes(c, db);
    CompleteHistoryRunsNothing(c, UpRun(c, db, None, false).0, steps, dryRun);
  }

  lemma {:induction false} DryUpChangesNothing<S>(c: Config<S>, db: Db<S>, files: seq<string>)
    ensures UpAll(c, db, files, true).0 == db
  {
    if files != [] {
      DryUpChangesNothing(c, db, files[..|files| - 1]);
    }
  }

  lemma {:induction false} DryDownChangesNothing<S>(c: Config<S>, db: Db<S>, files: seq<string>)
    ensures DownAll(c, db, files, true).0 == db
  {
    if files != [] {
      DryDownChangesNothing(c, db, files[..|files| - 1]);
    }
  }

  // ----- Up, then down -----

  /** No file in the history comes after one that is not. */
  predicate PrefixHistory(files: seq<string>, applied: set<string>) {
    forall i, j | 0 <= i < j < |files| && files[j] in applied :: files[i] in applied
  }

  predicate AllIn(files: seq<string>, applied: set<string>) {
    forall f | f in files :: f in applied
  }

  predicate NoneIn(files: seq<string>, applied: set<string>) {
    forall f | f in files :: f !in applied
  }

  function SetOf(files: seq<string>): set<string> {
    set f | f in files
  }

  lemma {:induction false} PartsConcat(a: seq<string>, b: seq<string>, applied: set<string>)
    ensures Pending(a + b, applied) == Pending(a, applied) + Pending(b, applied)
    ensures AppliedOf(a + b, applied) == AppliedOf(a, applied) + AppliedOf(b, applied)
  {
    if b == [] {
      assert a + b == a;
    } else {
      assert (a + b)[..|a + b| - 1] == a + b[..|b| - 1];
      PartsConcat(a, b[..|b| - 1], applied);
    }
  }

  lemma {:induction false} AllInParts(files: seq<string>, applied: set<string>)
    requires AllIn(files, applied)
    ensures AppliedOf(files, applied) == files && Pending(files, applied) == []
  {
    if files != [] {
      AllInParts(files[..|files| - 1], applied);
    }
  }

  lemma {:induction false} NoneInParts(files: seq<string>, applied: set<string>)
    requires NoneIn(files, applied)
    ensures AppliedOf(files, applied) == [] && Pending(files, applied) == files
  {
    if files != [] {
      NoneInParts(files[..|files| - 1], applied);
    }
  }

  function FirstPending(files: seq<string>, applied: set<string>): (k: nat)
    ensures k <= |files|
    ensures AllIn(files[..k], applied)
    ensures k < |files| ==> files[k] !in applied
  {
    if files == [] then 0
    else
      var k := FirstPending(files[..|files| - 1], applied);
      assert files[..|files| - 1][..k] == files[..k];
      if k < |files| - 1 || files[|files| - 1] !in applied then k else |files|
  }

  lemma DistinctParts(a: seq<string>, b: seq<string>, f: string)
    requires Distinct(a + b) && f in a
    ensures f !in b && Distinct(a) && Distinct(b)
  {
    var i :| 0 <= i < |a| && a[i] == f;
    assert (a + b)[i] == f;
    assert forall j | 0 <= j < |b| :: (a + b)[|a| + j] == b[j];
    assert forall j | 0 <= j < |a| :: (a + b)[j] == a[j];
  }

  /** The last `n` applied files, oldest first. */
  function LastApplied(files: seq<string>, applied: set<string>, n: nat): seq<string> {
    var appliedUp := AppliedOf(files, applied);
    appliedUp[|appliedUp| - Min(n, |appliedUp|)..]
  }

  lemma SplitParts(a: seq<string>, b: seq<string>, applied: set<string>)
    requires AllIn(a, applied) && NoneIn(b, applied)
    ensures Pending(a + b, applied) == b && AppliedOf(a + b, applied) == a
  {
    AllInParts(a, applied);
    NoneInParts(b, applied);
    PartsConcat(a, b, applied);
    hide Pending, AppliedOf;
    assert [] + b == b && a + [] == a;
  }

  lemma PrefixSplits(files: seq<string>, applied: set<string>) returns (a: seq<string>, b: seq<string>)
    requires PrefixHistory(files, applied)
    ensures files == a + b && AllIn(a, applied) && NoneIn(b, applied)
  {
    var k := FirstPending(files, applied);
    a, b := files[..k], files[k..];
    forall f | f in b ensures f !in applied {
      var j :| 0 <= j < |b| && b[j] == f;
      assert files[k + j] == f;
    }
  }

  lemma NowApplied(a: seq<string>, added: seq<string>, rest: seq<string>, applied: set<string>)
    requires Distinct(a + (added + rest)) && AllIn(a, applied) && NoneIn(added + rest, applied)
    ensures AllIn(a + added, applied + SetOf(added)) && NoneIn(rest, applied + SetOf(added))
  {
    DistinctAfter(a, added + rest);
    forall f | f in rest ensures f !in applied + SetOf(added) {
      assert f in added + rest;
      if f in added {
        DistinctParts(added, rest, f);
      }
    }
  }

  /** From a prefix history the files a down run of `n` takes are those an up run of `n` added. */
  lemma PrefixTakesBack(files: seq<string>, applied: set<string>, n: nat)
    requires Distinct(files) && PrefixHistory(files, applied) && n <= |Pending(files, applied)|
    ensures LastApplied(files, applied + SetOf(Pending(files, applied)[..n]), n) == Pending(files, applied)[..n]
  {
    hide Pending, AppliedOf, PrefixHistory, AllIn, NoneIn, Distinct, SetOf, LastApplied;
    var a, b := PrefixSplits(files, applied);
    SplitParts(a, b, applied);
    assert b == b[..n] + b[n..];
    NowApplied(a, b[..n], b[n..], applied);
    assert files == (a + b[..n]) + b[n..];
    SplitParts(a + b[..n], b[n..], applied + SetOf(b[..n]));
    LastAre(files, applied + SetOf(b[..n]), a, b[..n]);
  }

  lemma LastAre(files: seq<string>, applied: set<string>, a: seq<string>, b: seq<string>)
    requires AppliedOf(files, applied) == a + b
    ensures LastApplied(files, applied, |b|) == b
  {
    assert (a + b)[|a|..] == b;
  }

  lemma DistinctAfter(a: seq<string>, b: seq<string>)
    requires Distinct(a + b)
    ensures Distinct(b)
  {
    assert forall j | 0 <= j < |b| :: (a + b)[|a| + j] == b[j];
  }

  lemma {:induction false} AppliedGrows(files: seq<string>, applied: set<string>, now: set<string>, m: nat)
    requires applied <= now && m <= |Pending(files, applied)| && AllIn(Pending(files, applied)[..m], now)
    ensures |AppliedOf(files, now)| >= |AppliedOf(files, applied)| + m
    ensures forall f | f in AppliedOf(files, now) :: f in files
  {
    if files != [] {
      var before, last := files[..|files| - 1], files[|files| - 1];
      var p := Pending(before, applied);
      var kept := if m <= |p| then m else |p|;
      assert p[..kept] == Pending(files, applied)[..kept];
      assert AllIn(p[..kept], now) by {
        assert Pending(files, applied)[..kept] == Pending(files, applied)[..m][..kept];
      }
      if m == |p| + 1 {
        assert Pending(files, applied)[..m][m - 1] == last;
      }
      AppliedGrows(before, applied, now, kept);
    }
  }

  lemma {:induction false} AppliedNonEmpty(files: seq<string>, applied: set<string>, f: string)
    requires f in files && f in applied
    ensures |AppliedOf(files, applied)| >= 1
  {
    if f != files[|files| - 1] {
      AppliedNonEmpty(files[..|files| - 1], applied, f);
    }
  }

  lemma FrontParts(a: seq<string>, first: string, tail: seq<string>, applied: set<string>)
    requires AllIn(a, applied) && first !in applied
    ensures Pending(a + [first] + tail, applied) == [first] + Pending(tail, applied)
  {
    SplitParts(a, [first], applied);
    PartsConcat(a + [first], tail, applied);
  }

  /** With an applied file after it, the first file is too far back for a down run to reach. */
  lemma OutOfReach(a: seq<string>, first: string, tail: seq<string>, applied: set<string>, now: set<string>, n: nat,
                   f: string)
    requires Distinct(a + [first] + tail) && f in tail && f in applied && applied <= now
    requires 1 <= n <= 1 + |Pending(tail, applied)| && AllIn(Pending(tail, applied)[..n - 1], now)
    ensures first !in LastApplied(a + [first] + tail, now, n)
  {
    AppliedGrows(tail, applied, now, n - 1);
    AppliedNonEmpty(tail, applied, f);
    PartsConcat(a + [first], tail, now);
    DistinctParts(a + [first], tail, first);
    hide Pending, AppliedOf, Distinct, AllIn;
    SuffixMisses(AppliedOf(a + [first], now), AppliedOf(tail, now), first, n);
  }

  lemma SuffixMisses(front: seq<string>, later: seq<string>, f: string, n: nat)
    requires n <= |later| && f !in later
    ensures f !in (front + later)[|front + later| - n..]
  {
    assert (front + later)[|front + later| - n..] == later[|later| - n..];
  }

  lemma NotPrefixSplits(files: seq<string>, applied: set<string>)
    returns (a: seq<string>, first: string, tail: seq<string>, f: string)
    requires !PrefixHistory(files, applied)
    ensures files == a + [first] + tail && AllIn(a, applied) && first !in applied && f in tail && f in applied
  {
    var i, j :| 0 <= i < j < |files| && files[j] in applied && files[i] !in applied;
    var k := FirstPending(files, applied);
    FirstIsFirst(files, applied, k, i);
    a, first, tail, f := files[..k], files[k], files[k + 1..], files[j];
    assert tail[j - k - 1] == f;
  }

  lemma AddedLater(pending: seq<string>, later: seq<string>, applied: set<string>, n: nat)
    requires 1 <= n <= |pending| && pending[1..] == later
    ensures AllIn(later[..n - 1], applied + SetOf(pending[..n]))
  {
    assert later[..n - 1] == pending[..n][1..];
  }

  /** Otherwise the first file an up run adds is not among those the down run takes. */
  lemma OtherwiseFirstStays(files: seq<string>, applied: set<string>, n: nat)
    requires Distinct(files) && !PrefixHistory(files, applied) && 1 <= n <= |Pending(files, applied)|
    ensures Pending(files, applied)[0] !in LastApplied(files, applied + SetOf(Pending(files, applied)[..n]), n)
  {
    var a, first, tail, f := NotPrefixSplits(files, applied);
    hide Pending, AppliedOf, Distinct, PrefixHistory, LastApplied, AllIn, SetOf;
    FrontParts(a, first, tail, applied);
    AddedLater(Pending(files, applied), Pending(tail, applied), applied, n);
    OutOfReach(a, first, tail, applied, applied + SetOf(Pending(files, applied)[..n]), n, f);
  }

  lemma FirstIsFirst(files: seq<string>, applied: set<string>, k: nat, i: nat)
    requires k == FirstPending(files, applied) && i < |files| && files[i] !in applied
    ensures k <= i
  {
    assert forall j | 0 <= j < k :: files[..k][j] == files[j];
    assert forall j | 0 <= j < k :: files[j] in files[..k];
  }

  lemma {:induction false} DownAllForgets<S>(c: Config<S>, db: Db<S>, files: seq<string>)
    requires ErrorFree(DownAll(c, db, files, false).1)
    ensures DownAll(c, db, files, false).0.applied == db.applied - SetOf(files)
  {
    if files != [] {
      var n := |files| - 1;
      var was, now := DownAll(c, db, files[..n], false), DownAll(c, db, files, false);
      DownOneForgets(c, was.0, files[n]);
      hide DownOne;
      assert forall r | r in was.1 :: r in now.1;
      assert now.1[|now.1| - 1] in now.1;
      DownAllForgets(c, db, files[..n]);
      assert SetOf(files) == SetOf(files[..n]) + {files[n]};
    } else {
      assert SetOf(files) == {};
    }
  }

  lemma DownOneForgets<S>(c: Config<S>, db: Db<S>, f: string)
    requires DownOne(c, db, f, false).1.applied
    ensures DownOne(c, db, f, false).0.applied == db.applied - {f}
  {
    hide FinalSql, IsCrossDriver;
  }

  lemma ErrorFreeUpAdds<S>(c: Config<S>, db: Db<S>, files: seq<string>)
    requires ErrorFree(UpAll(c, db, files, false).1)
    ensures UpAll(c, db, files, false).0.applied == db.applied + SetOf(files)
  {
    UpAllRecords(c, db, files);
    hide UpAll;
    var results := UpAll(c, db, files, false).1;
    forall f | f in files ensures exists i :: 0 <= i < |files| && files[i] == f && results[i].applied {
      var i :| 0 <= i < |files| && files[i] == f;
      assert results[i] in results;
    }
  }

  lemma {:induction false} ReverseSet(files: seq<string>)
    ensures SetOf(Reverse(files)) == SetOf(files)
    ensures |Reverse(files)| == |files|
    ensures forall i | 0 <= i < |files| :: Reverse(files)[i] == files[|files| - 1 - i]
  {
    if files != [] {
      ReverseSet(files[..|files| - 1]);
      assert SetOf(files) == SetOf(files[..|files| - 1]) + {files[|files| - 1]};
      assert SetOf(Reverse(files)) == {files[|files| - 1]} + SetOf(Reverse(files[..|files| - 1]));
    }
  }

  lemma UpStepsAdd<S>(c: Config<S>, db: Db<S>, n: nat)
    requires n <= |Pending(UpFiles(c.allFiles), db.applied)| && ErrorFree(UpRun(c, db, Some(n), false).1)
    ensures FilesToApply(c, db.applied, Some(n)) == Pending(UpFiles(c.allFiles), db.applied)[..n]
    ensures UpRun(c, db, Some(n), false).0.applied == db.applied + SetOf(Pending(UpFiles(c.allFiles), db.applied)[..n])
  {
    hide Pending, UpFiles, UpAll, ErrorFree, SetOf;
    ErrorFreeUpAdds(c, db, FilesToApply(c, db.applied, Some(n)));
  }

  lemma DownStepsTake<S>(c: Config<S>, db: Db<S>, n: nat)
    requires 1 <= n && ErrorFree(DownRun(c, db, Some(n), false).1)
    ensures FilesToRevert(c, db.applied, Some(n)) == Reverse(LastApplied(UpFiles(c.allFiles), db.applied, n))
    ensures DownRun(c, db, Some(n), false).0.applied ==
            db.applied - SetOf(LastApplied(UpFiles(c.allFiles), db.applied, n))
  {
    hide AppliedOf, UpFiles, DownAll, ErrorFree, SetOf, Reverse;
    DownAllForgets(c, db, FilesToRevert(c, db.applied, Some(n)));
    ReverseSet(LastApplied(UpFiles(c.allFiles), db.applied, n));
  }

  lemma AddTake(applied: set<string>, added: seq<string>, taken: seq<string>)
    requires added != [] && NoneIn(added, applied) && (taken == added || added[0] !in taken)
    ensures (applied + SetOf(added)) - SetOf(taken) == applied <==> taken == added
  {
    HeadIn(added);
    if taken != added {
      assert added[0] in (applied + SetOf(added)) - SetOf(taken) && added[0] !in applied;
    }
  }

  /** Up `n` then down `n`, both error-free: from a prefix history the down run takes the same
      files in the opposite order, and the history comes back exactly when it was a prefix. */
  lemma UpDownRestoresIff<S>(c: Config<S>, db: Db<S>, n: nat)
    requires Distinct(c.allFiles) && 1 <= n <= |Pending(UpFiles(c.allFiles), db.applied)|
    requires ErrorFree(UpRun(c, db, Some(n), false).1)
    requires ErrorFree(DownRun(c, UpRun(c, db, Some(n), false).0, Some(n), false).1)
    ensures var up := UpRun(c, db, Some(n), false).0;
            DownRun(c, up, Some(n), false).0.applied == db.applied <==> PrefixHistory(UpFiles(c.allFiles), db.applied)
    ensures var up := UpRun(c, db, Some(n), false).0;
            PrefixHistory(UpFiles(c.allFiles), db.applied) ==>
              FilesToRevert(c, up.applied, Some(n)) == Reverse(FilesToApply(c, db.applied, Some(n)))
  {
    var files := UpFiles(c.allFiles);
    UpFilesGood(c.allFiles);
    PendingGood(files, db.applied);
    hide UpFiles, Pending, LastApplied, UpRun, DownRun, ErrorFree, FilesToApply, FilesToRevert, Reverse, SetOf,
      PrefixHistory, Distinct;
    UpStepsAdd(c, db, n);
    var up, added := UpRun(c, db, Some(n), false).0, Pending(files, db.applied)[..n];
    DownStepsTake(c, up, n);
    if PrefixHistory(files, db.applied) {
      PrefixTakesBack(files, db.applied, n);
    } else {
      OtherwiseFirstStays(files, db.applied, n);
    }
    AddTake(db.applied, added, LastApplied(files, up.applied, n));
    HeadIn(added);
  }

  /** Every execution succeeds. */
  ghost predicate NeverFails<S(!new)>(c: Config<S>) {
    forall n: nat, sql: string, schema: S :: c.exec(n, sql, schema).Done?
  }

  lemma {:induction false} UpNeverFails<S(!new)>(c: Config<S>, db: Db<S>, files: seq<string>)
    requires NeverFails(c)
    ensures ErrorFree(UpAll(c, db, files, false).1)
  {
    hide Shadowed, FinalSql;
    if files != [] {
      UpNeverFails(c, db, files[..|files| - 1]);
    }
  }

  lemma {:induction false} DownNeverFails<S(!new)>(c: Config<S>, db: Db<S>, files: seq<string>)
    requires NeverFails(c) && forall f | f in files :: DownMigrationFile(f, c.allFiles).Some?
    ensures ErrorFree(DownAll(c, db, files, false).1)
  {
    hide DownMigrationFile, FinalSql;
    if files != [] {
      DownNeverFails(c, db, files[..|files| - 1]);
      assert files[|files| - 1] in files;
    }
  }

  const TWO_FILES: seq<string> := ["a.down.sql", "a.sql", "b.down.sql", "b.sql"]

  lemma TwoDistinct()
    ensures Distinct(TWO_FILES) && UpFiles(TWO_FILES) == ["a.sql", "b.sql"]
  {
    hide UpFiles, IsDown;
    TwoKinds();
    var one: seq<string>, two := ["a.down.sql"], ["a.down.sql", "a.sql"];
    var three := two + ["b.down.sql"];
    UpFilesNext([], "a.down.sql");
    assert [] + ["a.down.sql"] == one && UpFiles(one) == [];
    UpFilesNext(one, "a.sql");
    assert one + ["a.sql"] == two && UpFiles(two) == ["a.sql"];
    UpFilesNext(two, "b.down.sql");
    UpFilesNext(three, "b.sql");
    assert three + ["b.sql"] == TWO_FILES && UpFiles(three) == ["a.sql"];
    assert forall i, j | 0 <= i < j < 4 :: TWO_FILES[i][0] != TWO_FILES[j][0] || |TWO_FILES[i]| != |TWO_FILES[j]|;
  }

  lemma TwoKinds()
    ensures IsDown("a.down.sql") && IsDown("b.down.sql") && !IsDown("a.sql") && !IsDown("b.sql")
  {
    assert "a.sql"[3] == 'q' && "b.sql"[3] == 'q';
  }

  lemma UpFilesNext(files: seq<string>, last: string)
    ensures UpFiles([]) == []
    ensures UpFiles(files + [last]) == UpFiles(files) + (if IsDown(last) then [] else [last])
  {
    hide IsDown;
    assert (files + [last])[..|files|] == files;
  }

  lemma TwoUpFiles()
    ensures UpFiles(TWO_FILES) == ["a.sql", "b.sql"] && Distinct(TWO_FILES)
    ensures DownMigrationFile("a.sql", TWO_FILES).Some? && DownMigrationFile("b.sql", TWO_FILES).Some?
  {
    hide DownName, UpFiles, Distinct;
    TwoDistinct();
    DownNameOf("a");
    DownNameOf("b");
    assert "a" + ".sql" == "a.sql" && "b" + ".sql" == "b.sql";
    assert "a" + ".down.sql" == TWO_FILES[0] && "b" + ".down.sql" == TWO_FILES[2];
  }

  lemma DownNameOf(stem: string)
    requires |stem| == 1 && stem[0] != '.'
    ensures DownName(stem + ".sql") == stem + ".down.sql"
  {
    assert (stem + ".sql")[0..4][0] == stem[0];
    DownNameIff(stem);
  }

  /** A history with a gap is not restored: with only `b.sql` applied, up 1 adds `a.sql` and
      down 1 takes `b.sql` away, both without error. */
  lemma GapNotRestored<S(!new)>(c: Config<S>, db: Db<S>)
    requires c.allFiles == TWO_FILES && NeverFails(c) && db.applied == {"b.sql"}
    ensures var (up, results) := UpRun(c, db, Some(1), false);
            var (down, reverted) := DownRun(c, up, Some(1), false);
            ErrorFree(results) && ErrorFree(reverted) && down.applied != db.applied
  {
    TwoUpFiles();
    var files := UpFiles(TWO_FILES);
    assert files[1] in db.applied && files[0] !in db.applied;
    assert !PrefixHistory(files, db.applied);
    FirstIsPending(db.applied);
    UpNeverFails(c, db, FilesToApply(c, db.applied, Some(1)));
    var up := UpRun(c, db, Some(1), false).0;
    RevertedKnown(c, up.applied, Some(1));
    DownNeverFails(c, up, FilesToRevert(c, up.applied, Some(1)));
    UpDownRestoresIff(c, db, 1);
  }

  lemma FirstIsPending(applied: set<string>)
    requires applied == {"b.sql"}
    ensures |Pending(UpFiles(TWO_FILES), applied)| >= 1
  {
    TwoUpFiles();
    UpFilesGood(TWO_FILES);
    PendingGood(UpFiles(TWO_FILES), applied);
    assert UpFiles(TWO_FILES)[0] == "a.sql" && "a.sql"[0] != "b.sql"[0];
    assert "a.sql" in UpFiles(TWO_FILES);
    assert "a.sql" in Pending(UpFiles(TWO_FILES), applied);
  }

  lemma {:induction false} AppliedAreFiles(files: seq<string>, applied: set<string>)
    ensures forall f | f in AppliedOf(files, applied) :: f in files
  {
    if files != [] {
      AppliedAreFiles(files[..|files| - 1], applied);
    }
  }

  lemma RevertedKnown<S>(c: Config<S>, applied: set<string>, steps: Option<int>)
    requires c.allFiles == TWO_FILES
    ensures forall f | f in FilesToRevert(c, applied, steps) :: DownMigrationFile(f, c.allFiles).Some?
  {
    TwoUpFiles();
    hide UpFiles, AppliedOf, DownMigrationFile, Reverse;
    var appliedUp := AppliedOf(UpFiles(TWO_FILES), applied);
    AppliedAreFiles(UpFiles(TWO_FILES), applied);
    var slice := SliceFrom(appliedUp, -(if steps.Some? then steps.value else |appliedUp|));
    ReverseSet(slice);
    forall f | f in FilesToRevert(c, applied, steps) ensures DownMigrationFile(f, c.allFiles).Some? {
      assert f in SetOf(slice);
      assert f in slice && f in appliedUp;
      assert f in ["a.sql", "b.sql"];
    }
  }

  // ----- Steps -----

  /** A down run with a step count reverts that many of the newest, or all when there are fewer;
      but zero steps revert everything, and negative ones all but the oldest so many. */
  lemma StepsReverted<S>(c: Config<S>, applied: set<string>, steps: int)
    ensures var n := |AppliedOf(UpFiles(c.allFiles), applied)|;
            |FilesToRevert(c, applied, Some(steps))| == if steps > 0 then Min(steps, n) else n - Min(-steps, n)
  {
    var appliedUp := AppliedOf(UpFiles(c.allFiles), applied);
    hide AppliedOf, UpFiles, Reverse;
    ReverseSet(SliceFrom(appliedUp, -steps));
  }

  /** An up run with a step count takes that many of the oldest pending files, or all when there
      are fewer; negative ones leave out so many of the newest. */
  lemma StepsApplied<S>(c: Config<S>, applied: set<string>, steps: int)
    ensures var pending := Pending(UpFiles(c.allFiles), applied);
            var n := |pending|;
            FilesToApply(c, applied, Some(steps)) ==
              pending[..if steps > n then n else if steps >= 0 then steps else if -steps < n then n + steps else 0]
    ensures FilesToApply(c, applied, None) == Pending(UpFiles(c.allFiles), applied)
  {
    hide Pending, UpFiles;
  }

  lemma ZeroSteps<S>(c: Config<S>, applied: set<string>)
    ensures FilesToApply(c, applied, Some(0)) == []
    ensures FilesToRevert(c, applied, Some(0)) == Reverse(AppliedOf(UpFiles(c.allFiles), applied))
    ensures FilesToRevert(c, applied, Some(0)) == FilesToRevert(c, applied, None)
  {
    hide AppliedOf, UpFiles, Reverse, Pending;
    var appliedUp := AppliedOf(UpFiles(c.allFiles), applied);
    assert SliceFrom(appliedUp, 0) == appliedUp == SliceFrom(appliedUp, -|appliedUp|);
  }

  // ----- Dialect pairs -----

  lemma {:induction false} ShadowedAcrossRuns<S>(db: Db<S>, runs: seq<Run<S>>, f: string)
    requires forall i | 0 <= i < |runs| :: Shadowed(runs[i].config, f)
    ensures f in UpRuns(db, runs).commits <==> f in db.commits
    decreases |runs|
  {
    hide Shadowed;
    if runs != [] {
      var last := runs[|runs| - 1];
      ShadowedAcrossRuns(db, runs[..|runs| - 1], f);
      ShadowedNeverExecuted(last.config, UpRuns(db, runs[..|runs| - 1]), f, last.steps, last.dryRun);
    }
  }

  /** A migration's name without its dialect and direction. */
  predicate IsStem(x: string) {
    !EndsWith(x, "_postgres") && !EndsWith(x, ".down")
  }

  /** The file of a migration for one kind of database. */
  function FileFor(x: string, postgres: bool): string {
    if postgres then x + "_postgres.sql" else x + ".sql"
  }

  lemma ShorterTail(x: string, end: string, suffix: string)
    ensures EndsWith(x + suffix, end + suffix) ==> EndsWith(x, end)
  {
    var f := x + suffix;
    if EndsWith(f, end + suffix) {
      Cut(f, end + suffix);
      var stem := f[..|f| - |end + suffix|];
      assert f == (stem + end) + suffix;
      assert x == f[..|f| - |suffix|] == stem + end;
    }
  }

  lemma TailOfTail(f: string, end: string, suffix: string)
    ensures EndsWith(f, end + suffix) ==> EndsWith(f, suffix)
  {
    if EndsWith(f, end + suffix) {
      assert f[|f| - |suffix|..] == f[|f| - |end + suffix|..][|end|..] == suffix;
    }
  }

  lemma StemNames(x: string)
    requires IsStem(x)
    ensures !IsPostgresDialectFile(FileFor(x, false)) && IsPostgresDialectFile(FileFor(x, true))
    ensures !IsDown(FileFor(x, false)) && !IsDown(FileFor(x, true))
    ensures CounterpartName(FileFor(x, false)) == FileFor(x, true)
    ensures CounterpartName(FileFor(x, true)) == FileFor(x, false)
  {
    var f, g := x + ".sql", x + "_postgres.sql";
    Tail(x, ".sql");
    Tail(x, "_postgres.sql");
    ShorterTail(x, "_postgres", ".sql");
    ShorterTail(x, ".down", ".sql");
    assert "_postgres" + ".sql" == "_postgres.sql" && ".down" + ".sql" == ".down.sql";
    assert "_postgres" + ".down.sql" == "_postgres.down.sql";
    TailOfTail(f, "_postgres", ".down.sql");
    Differs(g, ".down.sql", 5);
    Differs(g, "_postgres.down.sql", 5);
  }

  /** `sql` has been handed to the database for this file: if it worked, the schema is what it
      makes of it and the file is in the history; if not, nothing changes, except that the file
      counts as applied when the thing was already there or failing is `forgiven`. */
  ghost predicate ExecutedAs<S>(c: Config<S>, db: Db<S>, f: string, sql: string, forgiven: bool, after: Db<S>,
                                r: Result) {
    && after.attempts == db.attempts + 1 && after.reverts == db.reverts
    && r.filename == f && r.sql == sql
    && after.applied == (if r.applied then db.applied + {f} else db.applied)
    && match c.exec(db.attempts, sql, db.schema)
       case Done(schema) => r.applied && after.schema == schema && after.commits == db.commits + [f]
       case Failed(duplicate) =>
         (r.applied <==> duplicate || forgiven) && after.schema == db.schema && after.commits == db.commits
  }

  /** One file of a migration in an up run: when it is for the other kind of database and there is
      one for this kind, it is only recorded; otherwise its own text is executed, converted when it
      is for the other kind. Only a PostgreSQL file on SQLite may fail. */
  lemma UpFileIs<S>(c: Config<S>, db: Db<S>, x: string, postgres: bool)
    requires IsStem(x)
    ensures var f := FileFor(x, postgres);
            var (after, r) := UpOne(c, db, f, false);
            if postgres != c.isPostgres && FileFor(x, c.isPostgres) in c.allFiles then
              after == db.(applied := db.applied + {f}) && r == Result(f, "", true)
            else
              ExecutedAs(c, db, f,
                         if postgres == c.isPostgres then c.read(f)
                         else if c.isPostgres then c.toPostgres(c.read(f)) else c.toSqlite(c.read(f)),
                         postgres && !c.isPostgres, after, r)
  {
    hide FinalSql, Shadowed, IsCrossDriver, FileFor;
    StemTreatment(c, x, postgres);
  }

  lemma StemTreatment<S>(c: Config<S>, x: string, postgres: bool)
    requires IsStem(x)
    ensures var f := FileFor(x, postgres);
            && (Shadowed(c, f) <==> postgres != c.isPostgres && FileFor(x, c.isPostgres) in c.allFiles)
            && (IsCrossDriver(c, f) <==> postgres && !c.isPostgres)
            && FinalSql(c, f) == if postgres == c.isPostgres then c.read(f)
                                 else if c.isPostgres then c.toPostgres(c.read(f)) else c.toSqlite(c.read(f))
  {
    StemNames(x);
    hide FileFor, CounterpartName, IsPostgresDialectFile, IsDown;
  }

  lemma {:induction false} ResultAt<S>(c: Config<S>, db: Db<S>, files: seq<string>, dryRun: bool, k: nat)
    requires k < |files|
    ensures |UpAll(c, db, files, dryRun).1| == |files|
    ensures UpAll(c, db, files, dryRun).1[k] == UpOne(c, UpAll(c, db, files[..k], dryRun).0, files[k], dryRun).1
  {
    hide UpOne;
    var n := |files| - 1;
    if k < n {
      ResultAt(c, db, files[..n], dryRun, k);
      assert files[..n][..k] == files[..k] && files[..n][k] == files[k];
    } else if n > 0 {
      ResultAt(c, db, files[..n], dryRun, n - 1);
    }
  }

  /** With both files of a migration on disk a run never executes the one for the other kind of
      database, and when it reaches the one for this kind it executes that one's own text. */
  lemma RunPicksItsDialect<S>(c: Config<S>, db: Db<S>, x: string, steps: Option<int>)
    requires IsStem(x) && FileFor(x, true) in c.allFiles && FileFor(x, false) in c.allFiles
    ensures var (after, results) := UpRun(c, db, steps, false);
            var files := FilesToApply(c, db.applied, steps);
            && |results| == |files|
            && (FileFor(x, !c.isPostgres) in after.commits <==> FileFor(x, !c.isPostgres) in db.commits)
            && (forall k | 0 <= k < |files| && files[k] == FileFor(x, !c.isPostgres) ::
                  results[k] == Result(files[k], "", true))
            && (forall k | 0 <= k < |files| && files[k] == FileFor(x, c.isPostgres) ::
                  results[k].filename == files[k] && results[k].sql == c.read(files[k]))
  {
    var files := FilesToApply(c, db.applied, steps);
    var right, wrong := FileFor(x, c.isPostgres), FileFor(x, !c.isPostgres);
    assert Shadowed(c, wrong) by { StemNames(x); }
    ShadowedNeverExecuted(c, db, wrong, steps, false);
    hide FilesToApply, UpOne, Shadowed, FileFor;
    if files == [] {
      assert |UpAll(c, db, files, false).1| == 0;
    } else {
      ResultAt(c, db, files, false, 0);
    }
    hide UpAll;
    forall k | 0 <= k < |files|
      ensures files[k] == wrong ==> UpAll(c, db, files, false).1[k] == Result(wrong, "", true)
      ensures files[k] == right ==> UpAll(c, db, files, false).1[k].filename == right
                                    && UpAll(c, db, files, false).1[k].sql == c.read(right)
    {
      ResultAt(c, db, files, false, k);
      UpFileIs(c, UpAll(c, db, files[..k], false).0, x, c.isPostgres);
      UpFileIs(c, UpAll(c, db, files[..k], false).0, x, !c.isPostgres);
    }
  }

  /** However often the runner runs on one kind of database, with both files of a migration on
      disk, the one for the other kind never executes, and the one for this kind at most once. */
  lemma PairExecutesOnce<S>(db: Db<S>, runs: seq<Run<S>>, x: string, isPostgres: bool)
    requires OnceGood(db) && IsStem(x) && FileFor(x, !isPostgres) !in db.commits
    requires forall i | 0 <= i < |runs| ::
               && Distinct(runs[i].config.allFiles) && runs[i].config.isPostgres == isPostgres
               && FileFor(x, true) in runs[i].config.allFiles && FileFor(x, false) in runs[i].config.allFiles
    ensures Distinct(UpRuns(db, runs).commits)
    ensures FileFor(x, !isPostgres) !in UpRuns(db, runs).commits
  {
    StemNames(x);
    hide UpRuns, CounterpartName, IsPostgresDialectFile, FileFor, Distinct;
    EachFileCommitsOnce(db, runs);
    if runs != [] {
      ShadowedAcrossRuns(db, runs, FileFor(x, !isPostgres));
    } else {
      NoRuns(db, runs);
    }
  }

  lemma NoRuns<S>(db: Db<S>, runs: seq<Run<S>>)
    requires runs == []
    ensures UpRuns(db, runs) == db
  {
  }

  predicate ReturnsIff(f: string) {
    CounterpartName(CounterpartName(f)) == f <==>
    (IsPostgresDialectFile(CounterpartName(f)) != IsPostgresDialectFile(f) && IsDown(CounterpartName(f)) == IsDown(f))
  }

  lemma Cut(f: string, suffix: string)
    requires EndsWith(f, suffix)
    ensures f == f[..|f| - |suffix|] + suffix
  {
  }

  lemma Tail(stem: string, suffix: string)
    ensures EndsWith(stem + suffix, suffix) && (stem + suffix)[..|stem|] == stem
  {
  }

  /** Different characters at the same distance from the end. */
  lemma Differs(s: string, suffix: string, k: nat)
    requires 0 < k <= |s| && k <= |suffix| && s[|s| - k] != suffix[|suffix| - k]
    ensures !EndsWith(s, suffix)
  {
    if |s| >= |suffix| {
      assert s[|s| - |suffix|..][|suffix| - k] == s[|s| - k];
    }
  }

  lemma PostgresDownReturns(x: string)
    ensures ReturnsIff(x + "_postgres.down.sql")
  {
    var f, g := x + "_postgres.down.sql", x + ".down.sql";
    Tail(x, "_postgres.down.sql");
    Tail(x, ".down.sql");
    Tail(x + "_postgres", ".down.sql");
    assert f == (x + "_postgres") + ".down.sql";
    Differs(g, "_postgres.sql", 5);
    assert CounterpartName(f) == g && IsDown(f) && IsDown(g);
  }

  lemma PostgresReturns(x: string)
    requires !EndsWith(x + "_postgres.sql", "_postgres.down.sql")
    ensures ReturnsIff(x + "_postgres.sql")
  {
    var f, g := x + "_postgres.sql", x + ".sql";
    Tail(x, "_postgres.sql");
    Tail(x, ".sql");
    Differs(f, ".down.sql", 5);
    assert CounterpartName(f) == g && IsPostgresDialectFile(f) && !IsDown(f);
    assert f[|f| - 5] == 's';
    if IsDown(g) && !IsPostgresDialectFile(g) {
      assert CounterpartName(g)[|f| - 5] == 'n';
    }
  }

  lemma DownReturns(x: string)
    requires !IsPostgresDialectFile(x + ".down.sql")
    ensures ReturnsIff(x + ".down.sql")
  {
    var f, g := x + ".down.sql", x + "_postgres.down.sql";
    Tail(x, ".down.sql");
    Tail(x, "_postgres.down.sql");
    Tail(x + "_postgres", ".down.sql");
    assert g == (x + "_postgres") + ".down.sql";
    assert CounterpartName(f) == g && CounterpartName(g) == f;
  }

  lemma PlainReturns(x: string)
    requires !IsPostgresDialectFile(x + ".sql") && !IsDown(x + ".sql")
    ensures ReturnsIff(x + ".sql")
  {
    var f, g := x + ".sql", x + "_postgres.sql";
    Tail(x, ".sql");
    Tail(x, "_postgres.sql");
    Differs(g, ".down.sql", 5);
    Differs(g, "_postgres.down.sql", 5);
    assert CounterpartName(f) == g && CounterpartName(g) == f;
  }

  /** The counterpart of the counterpart is the file itself exactly when going there changes the
      dialect and keeps the direction. */
  lemma CounterpartReturnsIff(f: string)
    requires EndsWith(f, ".sql")
    ensures CounterpartName(CounterpartName(f)) == f <==>
            (IsPostgresDialectFile(CounterpartName(f)) != IsPostgresDialectFile(f)
             && IsDown(CounterpartName(f)) == IsDown(f))
  {
    assert ReturnsIff(f) by {
      hide ReturnsIff;
      if EndsWith(f, "_postgres.down.sql") {
        Cut(f, "_postgres.down.sql");
        PostgresDownReturns(f[..|f| - 18]);
      } else if EndsWith(f, "_postgres.sql") {
        Cut(f, "_postgres.sql");
        PostgresReturns(f[..|f| - 13]);
      } else if IsDown(f) {
        Cut(f, ".down.sql");
        DownReturns(f[..|f| - 9]);
      } else {
        Cut(f, ".sql");
        PlainReturns(f[..|f| - 4]);
      }
    }
  }

  // ----- Down names -----

  lemma {:induction false} FindFirst(s: string, i: nat, pattern: string)
    requires i <= |s|
    ensures var k := Find(s, i, pattern);
            i <= k && (k == |s| || StartsAt(s, k, pattern)) && forall j | i <= j < k :: !StartsAt(s, j, pattern)
    decreases |s| - i
  {
    if i < |s| && !StartsAt(s, i, pattern) {
      FindFirst(s, i + 1, pattern);
    }
  }

  /** The down name is the stem with the down suffix exactly when `.sql` occurs nowhere earlier. */
  lemma DownNameIff(stem: string)
    ensures DownName(stem + ".sql") == stem + ".down.sql" <==>
            forall j | 0 <= j < |stem| :: !StartsAt(stem + ".sql", j, ".sql")
  {
    var f := stem + ".sql";
    FindFirst(f, 0, ".sql");
    var k := Find(f, 0, ".sql");
    assert StartsAt(f, |stem|, ".sql");
    if k < |stem| {
      assert f[k..k + 4][1] == 's';
      assert DownName(f)[k + 1] == 'd';
      assert (stem + ".down.sql")[k + 1] == if k + 1 < |stem| then stem[k + 1] else '.';
      assert k + 1 < |stem| ==> stem[k + 1] == f[k + 1];
    }
  }

  // ----- What going down does with one file -----

  /** The down file of a migration for one kind of database. */
  function DownFor(x: string, postgres: bool): string {
    if postgres then x + "_postgres.down.sql" else x + ".down.sql"
  }

  lemma DownNames(x: string, postgres: bool)
    requires forall j | 0 <= j < |FileFor(x, postgres)| - 4 :: !StartsAt(FileFor(x, postgres), j, ".sql")
    ensures DownName(FileFor(x, postgres)) == DownFor(x, postgres)
  {
    var stem := if postgres then x + "_postgres" else x;
    assert FileFor(x, postgres) == stem + ".sql" && DownFor(x, postgres) == stem + ".down.sql";
    hide FileFor, DownFor, DownName, StartsAt;
    DownNameIff(stem);
  }

  lemma DownDialect(x: string, postgres: bool)
    requires IsStem(x)
    ensures IsPostgresDialectFile(DownFor(x, postgres)) <==> postgres
  {
    var stem := if postgres then x + "_postgres" else x;
    assert DownFor(x, postgres) == stem + ".down.sql";
    assert "_postgres" + ".down.sql" == "_postgres.down.sql";
    Tail(x, "_postgres.down.sql");
    ShorterTail(x, "_postgres", ".down.sql");
    hide EndsWith;
    Differs(stem + ".down.sql", "_postgres.sql", 5);
  }

  lemma DownTreatment<S>(c: Config<S>, x: string, postgres: bool)
    requires IsStem(x) && forall j | 0 <= j < |FileFor(x, postgres)| - 4 :: !StartsAt(FileFor(x, postgres), j, ".sql")
    ensures var f, down := FileFor(x, postgres), DownFor(x, postgres);
            && DownName(f) == down
            && DownMigrationFile(f, c.allFiles) == (if down in c.allFiles then Some(down) else None)
            && (IsCrossDriver(c, down) <==> postgres && !c.isPostgres)
            && FinalSql(c, down) == if postgres == c.isPostgres then c.read(down)
                                    else if c.isPostgres then c.toPostgres(c.read(down)) else c.toSqlite(c.read(down))
  {
    DownNames(x, postgres);
    DownDialect(x, postgres);
    hide FileFor, DownFor, DownName, IsPostgresDialectFile;
  }

  /** Reverting one file, whose name holds `.sql` only at its end, executes the down file of the
      same dialect, converted when that is for the other kind of database; the file leaves the
      history when it works, and a PostgreSQL file on SQLite also when it fails. Without a down
      file nothing happens, with an error. */
  lemma DownFileIs<S>(c: Config<S>, db: Db<S>, x: string, postgres: bool)
    requires IsStem(x) && forall j | 0 <= j < |FileFor(x, postgres)| - 4 :: !StartsAt(FileFor(x, postgres), j, ".sql")
    ensures var f, down := FileFor(x, postgres), DownFor(x, postgres);
            var sql := if postgres == c.isPostgres then c.read(down)
                       else if c.isPostgres then c.toPostgres(c.read(down)) else c.toSqlite(c.read(down));
            var (after, r) := DownOne(c, db, f, false);
            if down !in c.allFiles then after == db && r == Result(down, "", false)
            else
              && after.attempts == db.attempts + 1 && after.commits == db.commits
              && r.filename == down && r.sql == sql
              && after.applied == (if r.applied then db.applied - {f} else db.applied)
              && match c.exec(db.attempts, sql, db.schema)
                 case Done(schema) => r.applied && after.schema == schema && after.reverts == db.reverts + [f]
                 case Failed(_) =>
                   (r.applied <==> postgres && !c.isPostgres) && after.schema == db.schema
                       && after.reverts == db.reverts
  {
    hide FinalSql, IsCrossDriver, FileFor, DownFor, DownName, DownMigrationFile;
    DownTreatment(c, x, postgres);
  }
}
