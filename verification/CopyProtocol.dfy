/** The resumable copy (scripts/migrate-sqlite-to-postgres.ts, lines 260-321) as a state
    machine over what PostgreSQL has committed: setting the manifest up, opening a run that
    passed validation, committing a batch with its checkpoint, and ending a run at any point. */
module CopyProtocol {
  import opened CodeUnits
  import opened JsonNumbers
  import opened JsonWriting
  import opened StableText
  import opened RowCanonical
  import opened CopiedRows
  import Radix
  import TableChecksum
  import TableOrder

  datatype SourceRow = SourceRow(rowid: int, values: Row)

  /** One SQLite snapshot. `bundle` identifies its migration files. */
  datatype Source = Source(bundle: string, names: seq<string>, rows: map<string, seq<SourceRow>>)

  datatype Checkpoint = Checkpoint(bundle: string, fingerprint: Text, sourceRows: nat, copied: int)

  datatype Manifest = NoManifest | Manifest(rows: map<string, Checkpoint>)

  /** What the target database has committed; a table without rows is one that exists. */
  datatype Target = Target(tables: map<string, seq<Row>>, manifest: Manifest)

  /** What does not change between runs: the engine, the foreign keys and columns of the schema,
      SHA-256, and the row that PostgreSQL returns for the parameters of one INSERT. */
  datatype Context = Context(
    engine: Engine,
    deps: TableOrder.Dependencies,
    columns: string -> seq<Column>,
    sha256: Text -> Text,
    store: (seq<Column>, Row) -> Row)

  ghost predicate ValidSource(source: Source) {
    && (forall i, j | 0 <= i < j < |source.names| :: source.names[i] != source.names[j])
    && (forall n :: n in source.names <==> n in source.rows)
  }

  predicate AllConvertible(ctx: Context, name: string, rows: seq<SourceRow>) {
    forall i | 0 <= i < |rows| :: Convertible(ctx.engine, ctx.columns(name), rows[i].values)
  }

  predicate ConvertibleSource(ctx: Context, source: Source) {
    forall name | name in source.rows :: AllConvertible(ctx, name, source.rows[name])
  }

  // ----- Fingerprints -----

  /** A row as the fingerprint sees it: its rowid and its serialized values. */
  type Line = (int, Text)

  function LineOf(ctx: Context, name: string, row: SourceRow): Line {
    (row.rowid, SerialRow(ctx.engine, ctx.columns(name), row.values))
  }

  function Lines(ctx: Context, name: string, rows: seq<SourceRow>): (lines: seq<Line>)
    ensures |lines| == |rows| && forall i | 0 <= i < |rows| :: lines[i] == LineOf(ctx, name, rows[i])
  {
    if rows == [] then [] else Lines(ctx, name, rows[..|rows| - 1]) + [LineOf(ctx, name, rows[|rows| - 1])]
  }

  function LineCells(line: Line): seq<Cell> {
    [CText(IntUnits(line.0)), CText(line.1)]
  }

  /** What is hashed: each line a JSON array, ended by a line feed. */
  function FingerprintText(spell: Double -> JsonNumber, lines: seq<Line>): Text {
    if lines == [] then []
    else Stable(LineCells(lines[0]), spell) + ([LINE_FEED] + FingerprintText(spell, lines[1..]))
  }

  lemma {:induction false} FingerprintTextSnoc(spell: Double -> JsonNumber, lines: seq<Line>, line: Line)
    ensures FingerprintText(spell, lines + [line]) ==
            FingerprintText(spell, lines) + (Stable(LineCells(line), spell) + [LINE_FEED])
  {
    hide Stable;
    if lines == [] {
      assert [line][1..] == [];
    } else {
      FingerprintTextSnoc(spell, lines[1..], line);
      assert (lines + [line])[1..] == lines[1..] + [line];
    }
  }

  function Fingerprint(ctx: Context, name: string, rows: seq<SourceRow>): Text {
    ctx.sha256(FingerprintText(ctx.engine.spell, Lines(ctx, name, rows)))
  }

  // ----- Setting up and validating the manifest -----

  function FreshCheckpoint(ctx: Context, source: Source, name: string): Checkpoint
    requires name in source.rows
  {
    Checkpoint(source.bundle, Fingerprint(ctx, name, source.rows[name]), |source.rows[name]|, 0)
  }

  /** The setup transaction: every table emptied, every checkpoint at zero. */
  function SetUp(ctx: Context, source: Source): Target {
    Target(map name | name in source.rows :: [],
           Manifest(map name | name in source.rows :: FreshCheckpoint(ctx, source, name)))
  }

  /** What the validation loop checks of one table. */
  predicate CheckpointMatches(ctx: Context, source: Source, t: Target, name: string)
    requires name in source.rows
  {
    && t.manifest.Manifest? && name in t.manifest.rows && name in t.tables
    && var c := t.manifest.rows[name];
    && c.bundle == source.bundle
    && c.fingerprint == Fingerprint(ctx, name, source.rows[name])
    && c.sourceRows == |source.rows[name]|
    && 0 <= c.copied <= |source.rows[name]|
    && |t.tables[name]| == c.copied
  }

  /** Every row converts, and the whole manifest matches, before anything is written. */
  ghost predicate Validates(ctx: Context, source: Source, t: Target) {
    && ValidSource(source) && ConvertibleSource(ctx, source)
    && t.manifest.Manifest?
    && t.tables.Keys == source.rows.Keys
    && |t.manifest.rows| == |source.names|
    && forall name | name in source.rows :: CheckpointMatches(ctx, source, t, name)
  }

  /** An order the copy may follow: each table once, parents first. */
  ghost predicate ValidOrder(ctx: Context, source: Source, order: seq<string>) {
    && TableOrder.NoRepeats(order)
    && (forall n :: n in order <==> n in source.names)
    && TableOrder.ParentsFirst(source.names, ctx.deps, order)
  }

  predicate Complete(source: Source, t: Target, name: string)
    requires name in source.rows
  {
    t.manifest.Manifest? && name in t.manifest.rows && t.manifest.rows[name].copied == |source.rows[name]|
  }

  /** The rows PostgreSQL holds once these source rows have been sent. */
  function Stored(ctx: Context, name: string, rows: seq<SourceRow>): (stored: seq<Row>)
    ensures |stored| == |rows|
    ensures forall i | 0 <= i < |rows| ::
              stored[i] == ctx.store(ctx.columns(name), SentRow(ctx.engine, ctx.columns(name), rows[i].values))
  {
    if rows == [] then []
    else
      var last := rows[|rows| - 1];
      Stored(ctx, name, rows[..|rows| - 1])
      + [ctx.store(ctx.columns(name), SentRow(ctx.engine, ctx.columns(name), last.values))]
  }

  /** One batch transaction: k more rows and the checkpoint that counts them. */
  function BatchCommitted(ctx: Context, source: Source, t: Target, name: string, k: nat): Target
    requires t.manifest.Manifest? && name in t.manifest.rows && name in t.tables && name in source.rows
    requires 0 <= t.manifest.rows[name].copied && t.manifest.rows[name].copied + k <= |source.rows[name]|
  {
    var c := t.manifest.rows[name];
    var batch := source.rows[name][c.copied..c.copied + k];
    Target(t.tables[name := t.tables[name] + Stored(ctx, name, batch)],
           Manifest(t.manifest.rows[name := c.(copied := c.copied + k)]))
  }

  // ----- The machine -----

  datatype Session = Closed | Open(source: Source, order: seq<string>)

  /** `origin` remembers the source the manifest was set up from, and `sent` the source rows
      that the copied rows were converted from. */
  datatype State = State(target: Target, session: Session, origin: Origin, sent: map<string, seq<SourceRow>>)

  datatype Origin = Unset | From(source: Source)

  datatype Event =
    | CreateSchema(tables: map<string, seq<Row>>)
    | WriteManifest(source: Source)
    | OpenRun(source: Source, order: seq<string>)
    | CommitBatch(at: nat, k: nat)
    | EndRun

  const EMPTY: Target := Target(map[], NoManifest)

  ghost predicate Enabled(ctx: Context, s: State, e: Event) {
    match e
    case CreateSchema(_) => s.session.Closed? && s.target == EMPTY
    case WriteManifest(source) =>
      && s.session.Closed? && s.target.manifest.NoManifest?
      && ValidSource(source) && ConvertibleSource(ctx, source) && s.target.tables.Keys == source.rows.Keys
    case OpenRun(source, order) =>
      s.session.Closed? && Validates(ctx, source, s.target) && ValidOrder(ctx, source, order)
    case CommitBatch(at, k) =>
      && s.session.Open? && at < |s.session.order|
      && var source, name := s.session.source, s.session.order[at];
      && s.target.manifest.Manifest? && name in s.target.manifest.rows && name in s.target.tables && name in source.rows
      && 0 <= s.target.manifest.rows[name].copied
      && 0 < k && s.target.manifest.rows[name].copied + k <= |source.rows[name]|
      && (forall i | 0 <= i < at :: s.session.order[i] in source.rows && Complete(source, s.target, s.session.order[i]))
    case EndRun => true
  }

  function SentTo(s: State, name: string): seq<SourceRow> {
    if name in s.sent then s.sent[name] else []
  }

  /** The rows of the open source that a batch takes. */
  function BatchOf(s: State, name: string, k: nat): seq<SourceRow>
    requires s.session.Open? && name in s.session.source.rows
    requires s.target.manifest.Manifest? && name in s.target.manifest.rows
    requires 0 <= s.target.manifest.rows[name].copied
            && s.target.manifest.rows[name].copied + k <= |s.session.source.rows[name]|
  {
    var copied := s.target.manifest.rows[name].copied;
    s.session.source.rows[name][copied..copied + k]
  }

  ghost function Next(ctx: Context, s: State, e: Event): State
    requires Enabled(ctx, s, e)
  {
    match e
    case CreateSchema(tables) => s.(target := Target(tables, NoManifest))
    case WriteManifest(source) =>
      s.(target := SetUp(ctx, source), origin := From(source), sent := map name | name in source.rows :: [])
    case OpenRun(source, order) => s.(session := Open(source, order))
    case CommitBatch(at, k) =>
      var name := s.session.order[at];
      s.(target := BatchCommitted(ctx, s.session.source, s.target, name, k),
         sent := s.sent[name := SentTo(s, name) + BatchOf(s, name, k)])
    case EndRun => s.(session := Closed)
  }

  ghost predicate CanRun(ctx: Context, s: State, events: seq<Event>)
    decreases |events|, 0
  {
    events == [] ||
    (var before := events[..|events| - 1];
     CanRun(ctx, s, before) && Enabled(ctx, After(ctx, s, before), events[|events| - 1]))
  }

  ghost function After(ctx: Context, s: State, events: seq<Event>): State
    requires CanRun(ctx, s, events)
    decreases |events|, 1
  {
    if events == [] then s
    else Next(ctx, After(ctx, s, events[..|events| - 1]), events[|events| - 1])
  }

  lemma Extended(ctx: Context, s: State, events: seq<Event>, e: Event)
    requires CanRun(ctx, s, events) && Enabled(ctx, After(ctx, s, events), e)
    ensures CanRun(ctx, s, events + [e])
    ensures After(ctx, s, events + [e]) == Next(ctx, After(ctx, s, events), e)
  {
    hide Enabled, Next;
    assert (events + [e])[..|events|] == events;
  }

  const START: State := State(EMPTY, Closed, Unset, map[])

  // ----- What a fingerprint tells -----

  /** The engine is a standard one and SHA-256 has no collisions. */
  ghost predicate Sound(ctx: Context) {
    Standard(ctx.engine) && forall a: Text, b: Text :: ctx.sha256(a) == ctx.sha256(b) ==> a == b
  }

  lemma IntUnitsInjective(m: int, n: int)
    requires IntUnits(m) == IntUnits(n)
    ensures m == n
  {
    AsciiInjective(Radix.IntText(m), Radix.IntText(n));
    Radix.IntTextInjective(m, n);
  }

  lemma SameLineText(spell: Double -> JsonNumber, a: Line, b: Line)
    requires Faithful(spell) && Stable(LineCells(a), spell) == Stable(LineCells(b), spell)
    ensures a == b
  {
    RowsWrittenAlikeIff(LineCells(a), LineCells(b), spell);
    assert WrittenAlike(LineCells(a)[0], LineCells(b)[0]) && WrittenAlike(LineCells(a)[1], LineCells(b)[1]);
    IntUnitsInjective(a.0, b.0);
  }

  /** The hashed text determines every rowid and every serialized row. */
  lemma {:induction false} FingerprintTextInjective(spell: Double -> JsonNumber, a: seq<Line>, b: seq<Line>)
    requires Faithful(spell) && FingerprintText(spell, a) == FingerprintText(spell, b)
    ensures a == b
  {
    hide Stable, Faithful;
    if a != [] && b != [] {
      SameStableLine(LineCells(a[0]), FingerprintText(spell, a[1..]), LineCells(b[0]), FingerprintText(spell, b[1..]),
                     spell);
      SameLineText(spell, a[0], b[0]);
      FingerprintTextInjective(spell, a[1..], b[1..]);
      assert a == [a[0]] + a[1..] && b == [b[0]] + b[1..];
    }
  }

  lemma SameStableLine(c: seq<Cell>, x: Text, d: seq<Cell>, y: Text, spell: Double -> JsonNumber)
    requires Stable(c, spell) + ([LINE_FEED] + x) == Stable(d, spell) + ([LINE_FEED] + y)
    ensures Stable(c, spell) == Stable(d, spell) && x == y
  {
    SameLine(ListJson(CellItems(c, spell)), x, ListJson(CellItems(d, spell)), y);
  }

  /** Same rowids, and value by value the same value of its column. */
  ghost predicate RowsUnchanged(ctx: Context, name: string, a: seq<SourceRow>, b: seq<SourceRow>) {
    && |a| == |b|
    && forall i | 0 <= i < |a| ::
         a[i].rowid == b[i].rowid && RowsSameForm(ctx.engine, ctx.columns(name), a[i].values, b[i].values)
  }

  lemma LinesIff(ctx: Context, name: string, a: seq<SourceRow>, b: seq<SourceRow>)
    requires Sound(ctx) && AllConvertible(ctx, name, a) && AllConvertible(ctx, name, b)
    ensures Lines(ctx, name, a) == Lines(ctx, name, b) <==> RowsUnchanged(ctx, name, a, b)
  {
    hide SerialRow, RowsSameForm, Standard;
    if |a| == |b| {
      forall i | 0 <= i < |a|
        ensures LineOf(ctx, name, a[i]) == LineOf(ctx, name, b[i]) <==>
                a[i].rowid == b[i].rowid && RowsSameForm(ctx.engine, ctx.columns(name), a[i].values, b[i].values)
      {
        SerialRowsIff(ctx.engine, ctx.columns(name), a[i].values, b[i].values);
      }
    }
  }

  lemma SameFingerprintSameLines(ctx: Context, name: string, a: seq<SourceRow>, b: seq<SourceRow>)
    requires Sound(ctx) && Fingerprint(ctx, name, a) == Fingerprint(ctx, name, b)
    ensures Lines(ctx, name, a) == Lines(ctx, name, b)
  {
    hide Lines, FingerprintText;
    StandardSpelling(ctx.engine);
    FingerprintTextInjective(ctx.engine.spell, Lines(ctx, name, a), Lines(ctx, name, b));
  }

  /** Two tables have one fingerprint exactly when their rows are unchanged. */
  lemma FingerprintsEqualIff(ctx: Context, name: string, a: seq<SourceRow>, b: seq<SourceRow>)
    requires Sound(ctx) && AllConvertible(ctx, name, a) && AllConvertible(ctx, name, b)
    ensures Fingerprint(ctx, name, a) == Fingerprint(ctx, name, b) <==> RowsUnchanged(ctx, name, a, b)
  {
    hide Lines, FingerprintText, Sound, RowsUnchanged, AllConvertible;
    LinesIff(ctx, name, a, b);
    if Fingerprint(ctx, name, a) == Fingerprint(ctx, name, b) {
      SameFingerprintSameLines(ctx, name, a, b);
    }
  }

  /** A text replaced by the blob whose hexadecimal digits it spells goes unnoticed. */
  lemma BlobForTextUnnoticed(ctx: Context, name: string, rowid: int)
    requires ctx.columns(name) == [OtherColumn]
    ensures Fingerprint(ctx, name, [SourceRow(rowid, [Str(Ascii("ab"))])])
         == Fingerprint(ctx, name, [SourceRow(rowid, [Bytes([0xAB])])])
  {
    var a, b := SourceRow(rowid, [Str(Ascii("ab"))]), SourceRow(rowid, [Bytes([0xAB])]);
    BlobLooksLikeText(ctx.engine);
    assert CanonicalRow(ctx.engine, [OtherColumn], a.values) == CanonicalRow(ctx.engine, [OtherColumn], b.values);
    hide SerialRow;
    assert Lines(ctx, name, [a]) == Lines(ctx, name, [b]);
  }

  // ----- What every reachable state keeps -----

  /** A table holds what was stored for the rows sent, and these are, up to what fingerprints
      see, the source prefix that its checkpoint counts. */
  ghost predicate IsPrefixOf(ctx: Context, name: string, source: Source, c: Checkpoint, table: seq<Row>,
                             sent: seq<SourceRow>)
    requires name in source.rows
  {
    var rows := source.rows[name];
    && c.bundle == source.bundle && c.fingerprint == Fingerprint(ctx, name, rows) && c.sourceRows == |rows|
    && 0 <= c.copied <= |rows| && |sent| == c.copied
    && table == Stored(ctx, name, sent) && AllConvertible(ctx, name, sent)
    && Lines(ctx, name, sent) == Lines(ctx, name, rows)[..c.copied]
  }

  ghost predicate IsPrefixCopy(ctx: Context, source: Source, t: Target, sent: map<string, seq<SourceRow>>) {
    && t.manifest.Manifest?
    && t.tables.Keys == source.rows.Keys && t.manifest.rows.Keys == source.rows.Keys && sent.Keys == source.rows.Keys
    && forall name | name in source.rows ::
         IsPrefixOf(ctx, name, source, t.manifest.rows[name], t.tables[name], sent[name])
  }

  /** A table with a copied row has all its parents copied in full. */
  ghost predicate ParentsComplete(ctx: Context, source: Source, t: Target)
    requires t.manifest.Manifest? && t.manifest.rows.Keys == source.rows.Keys
  {
    forall child, parent | TableOrder.DependsOn(source.names, ctx.deps, child, parent)
      && child in source.rows && parent in source.rows && t.manifest.rows[child].copied > 0 ::
      Complete(source, t, parent)
  }

  /** Two sources that fingerprints do not tell apart. */
  ghost predicate SameLines(ctx: Context, a: Source, b: Source) {
    a.rows.Keys == b.rows.Keys && forall name | name in a.rows ::
        Lines(ctx, name, a.rows[name]) == Lines(ctx, name, b.rows[name])
  }

  ghost predicate Good(ctx: Context, s: State) {
    match s.origin
    case Unset => s.target.manifest.NoManifest? && s.session.Closed?
    case From(source) =>
      && ValidSource(source) && ConvertibleSource(ctx, source)
      && IsPrefixCopy(ctx, source, s.target, s.sent)
      && ParentsComplete(ctx, source, s.target)
      && (s.session.Open? ==>
            && SameLines(ctx, s.session.source, source) && ConvertibleSource(ctx, s.session.source)
            && ValidOrder(ctx, source, s.session.order))
  }

  lemma GoodTable(ctx: Context, s: State, source: Source, name: string)
    requires Good(ctx, s) && s.origin == From(source) && name in source.rows
    ensures s.target.manifest.Manifest? && name in s.target.manifest.rows && name in s.target.tables && name in s.sent
    ensures s.target.tables.Keys == s.target.manifest.rows.Keys == s.sent.Keys == source.rows.Keys
    ensures IsPrefixOf(ctx, name, source, s.target.manifest.rows[name], s.target.tables[name], s.sent[name])
  {
    hide IsPrefixOf, ParentsComplete, ConvertibleSource, SameLines, ValidOrder, ValidSource;
  }

  lemma PrefixCounts(ctx: Context, name: string, source: Source, c: Checkpoint, table: seq<Row>, sent: seq<SourceRow>)
    requires name in source.rows && IsPrefixOf(ctx, name, source, c, table, sent)
    ensures 0 <= c.copied <= |source.rows[name]| && |sent| == c.copied == |table| && table == Stored(ctx, name, sent)
  {
  }

  lemma GoodParents(ctx: Context, s: State)
    requires Good(ctx, s) && s.origin.From?
    ensures s.target.manifest.Manifest? && s.target.manifest.rows.Keys == s.origin.source.rows.Keys
    ensures ParentsComplete(ctx, s.origin.source, s.target)
  {
    hide IsPrefixOf, ParentsComplete;
  }

  lemma OriginHasManifest(ctx: Context, s: State)
    requires Good(ctx, s) && s.origin.From?
    ensures s.target.manifest.Manifest? && ValidSource(s.origin.source)
  {
  }

  /** Validation accepts a source over a prefix copy only if fingerprints do not tell it from the
      source copied from. */
  lemma ValidatesSameLines(ctx: Context, origin: Source, source: Source, t: Target, sent: map<string, seq<SourceRow>>)
    requires Sound(ctx) && IsPrefixCopy(ctx, origin, t, sent) && Validates(ctx, source, t)
    ensures SameLines(ctx, source, origin)
  {
    hide Lines, Fingerprint, Sound, AllConvertible;
    forall name | name in source.rows
      ensures Lines(ctx, name, source.rows[name]) == Lines(ctx, name, origin.rows[name])
    {
      assert CheckpointMatches(ctx, source, t, name);
      assert IsPrefixOf(ctx, name, origin, t.manifest.rows[name], t.tables[name], sent[name]);
      SameFingerprintSameLines(ctx, name, source.rows[name], origin.rows[name]);
    }
  }

  lemma SetUpIsGood(ctx: Context, source: Source)
    requires ValidSource(source)
    ensures IsPrefixCopy(ctx, source, SetUp(ctx, source), map name | name in source.rows :: [])
    ensures ParentsComplete(ctx, source, SetUp(ctx, source))
  {
    hide Fingerprint, LineOf;
    var t := SetUp(ctx, source);
    assert t.tables.Keys == source.rows.Keys && t.manifest.rows.Keys == source.rows.Keys;
    forall name | name in source.rows
      ensures IsPrefixOf(ctx, name, source, t.manifest.rows[name], t.tables[name], [])
    {
      assert Lines(ctx, name, source.rows[name])[..0] == [];
    }
  }

  /** k more rows of a source that looks the same. */
  lemma BatchExtendsTable(ctx: Context, name: string, source: Source, c: Checkpoint, table: seq<Row>,
                          sent: seq<SourceRow>, rows: seq<SourceRow>, k: nat)
    requires name in source.rows && IsPrefixOf(ctx, name, source, c, table, sent)
    requires Lines(ctx, name, rows) == Lines(ctx, name, source.rows[name]) && AllConvertible(ctx, name, rows)
    requires c.copied + k <= |rows|
    ensures var batch := rows[c.copied..c.copied + k];
            IsPrefixOf(ctx, name, source, c.(copied := c.copied + k), table + Stored(ctx, name, batch), sent + batch)
  {
    hide Stored, Lines, Fingerprint, Convertible;
    var batch := rows[c.copied..c.copied + k];
    StoredConcat(ctx, name, sent, batch);
    LinesConcat(ctx, name, sent, batch);
    LinesSlice(ctx, name, rows, c.copied, c.copied + k);
    assert |Lines(ctx, name, rows)| == |source.rows[name]|;
    JoinSlices(Lines(ctx, name, rows), c.copied, c.copied + k);
  }

  lemma JoinSlices<T>(s: seq<T>, i: nat, j: nat)
    requires i <= j <= |s|
    ensures s[..i] + s[i..j] == s[..j]
  {
  }

  lemma StoredConcat(ctx: Context, name: string, a: seq<SourceRow>, b: seq<SourceRow>)
    ensures Stored(ctx, name, a + b) == Stored(ctx, name, a) + Stored(ctx, name, b)
  {
    hide SentRow;
  }

  lemma LinesConcat(ctx: Context, name: string, a: seq<SourceRow>, b: seq<SourceRow>)
    ensures Lines(ctx, name, a + b) == Lines(ctx, name, a) + Lines(ctx, name, b)
  {
    hide LineOf;
  }

  lemma LinesSlice(ctx: Context, name: string, rows: seq<SourceRow>, i: nat, j: nat)
    requires i <= j <= |rows|
    ensures Lines(ctx, name, rows[i..j]) == Lines(ctx, name, rows)[i..j]
  {
    hide LineOf;
  }

  /** A batch and its checkpoint keep every table a prefix copy. */
  lemma BatchKeepsPrefix(ctx: Context, s: State, at: nat, k: nat)
    requires Good(ctx, s) && s.origin.From? && Enabled(ctx, s, CommitBatch(at, k))
    ensures var t := Next(ctx, s, CommitBatch(at, k)); IsPrefixCopy(ctx, s.origin.source, t.target, t.sent)
  {
    hide Good, IsPrefixOf, Stored, Lines, AllConvertible, ParentsComplete, ValidOrder, Complete;
    var origin, source, name := s.origin.source, s.session.source, s.session.order[at];
    OpenNameKnown(ctx, s, name);
    OpenSameLines(ctx, s);
    GoodTable(ctx, s, origin, name);
    BatchExtendsTable(ctx, name, origin, s.target.manifest.rows[name], s.target.tables[name], s.sent[name],
                      source.rows[name], k);
    var after := Next(ctx, s, CommitBatch(at, k));
    forall other | other in origin.rows
      ensures IsPrefixOf(ctx, other, origin, after.target.manifest.rows[other], after.target.tables[other],
                         after.sent[other])
    {
      GoodTable(ctx, s, origin, other);
    }
  }

  lemma BatchKeepsParents(ctx: Context, s: State, at: nat, k: nat)
    requires Good(ctx, s) && s.origin.From? && Enabled(ctx, s, CommitBatch(at, k))
    ensures var source := s.origin.source;
            var after := BatchCommitted(ctx, s.session.source, s.target, s.session.order[at], k);
            && after.manifest.rows.Keys == source.rows.Keys
            && ParentsComplete(ctx, source, after)
  {
    hide Good, IsPrefixOf, Stored, CheckpointMatches, TableOrder.DependsOn, ConvertibleSource, SameLines, Lines;
    var source, name, order := s.origin.source, s.session.order[at], s.session.order;
    OpenSameLines(ctx, s);
    OpenNameKnown(ctx, s, name);
    GoodTable(ctx, s, source, name);
    GoodParents(ctx, s);
    var after := BatchCommitted(ctx, s.session.source, s.target, name, k);
    forall child, parent | TableOrder.DependsOn(source.names, ctx.deps, child, parent)
      && child in source.rows && parent in source.rows && after.manifest.rows[child].copied > 0
      ensures Complete(source, after, parent)
    {
      SameCounts(ctx, s.session.source, source, parent);
      if child == name {
        assert parent in order[..at];
        var i :| 0 <= i < at && order[i] == parent;
        assert order[i] != order[at];
      } else {
        assert Complete(source, s.target, parent);
        assert parent != name;
      }
    }
  }

  lemma SameCounts(ctx: Context, a: Source, b: Source, name: string)
    requires SameLines(ctx, a, b) && name in b.rows
    ensures name in a.rows && |a.rows[name]| == |b.rows[name]|
  {
    assert |Lines(ctx, name, a.rows[name])| == |Lines(ctx, name, b.rows[name])|;
  }

  lemma NextIsGood(ctx: Context, s: State, e: Event)
    requires Sound(ctx) && Good(ctx, s) && Enabled(ctx, s, e)
    ensures Good(ctx, Next(ctx, s, e))
  {
    hide IsPrefixCopy, ParentsComplete, ConvertibleSource, SameLines, Sound, BatchOf, SetUp;
    if s.origin.From? { OriginHasManifest(ctx, s); }
    match e
    case CreateSchema(_) =>
    case WriteManifest(source) => SetUpIsGood(ctx, source);
    case OpenRun(source, order) =>
      hide Validates;
      OpenIsGood(ctx, s, source, order);
    case CommitBatch(at, k) =>
      BatchKeepsPrefix(ctx, s, at, k);
      BatchKeepsParents(ctx, s, at, k);
    case EndRun =>
  }

  lemma OpenIsGood(ctx: Context, s: State, source: Source, order: seq<string>)
    requires Sound(ctx) && Good(ctx, s) && Enabled(ctx, s, OpenRun(source, order))
    ensures s.origin.From? && SameLines(ctx, source, s.origin.source) && ConvertibleSource(ctx, source)
    ensures ValidOrder(ctx, s.origin.source, order)
  {
    ValidatesSameLines(ctx, s.origin.source, source, s.target, s.sent);
    hide IsPrefixCopy, ParentsComplete, Sound, CheckpointMatches;
    SameTablesSameOrder(ctx, s.origin.source, source, order);
  }

  lemma SameTablesSameOrder(ctx: Context, origin: Source, source: Source, order: seq<string>)
    requires ValidSource(origin) && ValidSource(source) && source.rows.Keys == origin.rows.Keys
    requires ValidOrder(ctx, source, order)
    ensures ValidOrder(ctx, origin, order)
  {
    forall n ensures n in origin.names <==> n in source.names {
      assert n in origin.rows <==> n in source.rows;
    }
    forall i, p | 0 <= i < |order| && TableOrder.DependsOn(origin.names, ctx.deps, order[i], p)
      ensures p in order[..i]
    {
      assert TableOrder.DependsOn(source.names, ctx.deps, order[i], p);
    }
  }

  /** Every state reachable by setting up, batches, crashes and resumes keeps the prefix copy,
      with no table started before its parents are complete. */
  lemma {:induction false} ReachableIsGood(ctx: Context, events: seq<Event>)
    requires Sound(ctx) && CanRun(ctx, START, events)
    ensures Good(ctx, After(ctx, START, events))
  {
    hide Enabled, Next, Sound;
    if events != [] {
      hide Good;
      var before := events[..|events| - 1];
      ReachableIsGood(ctx, before);
      NextIsGood(ctx, After(ctx, START, before), events[|events| - 1]);
    }
  }

  // ----- One source throughout -----

  /** Every run opens a source with these rows. */
  ghost predicate OpensOnly(events: seq<Event>, rows: map<string, seq<SourceRow>>) {
    forall e | e in events && e.OpenRun? :: e.source.rows == rows
  }

  ghost predicate SentFrom(s: State, rows: map<string, seq<SourceRow>>) {
    && (s.session.Open? ==> s.session.source.rows == rows)
    && forall name | name in s.sent && name in rows :: s.sent[name] <= rows[name]
  }

  lemma PrefixGrows<T>(sent: seq<T>, rows: seq<T>, copied: nat, k: nat)
    requires sent <= rows && |sent| == copied && copied + k <= |rows|
    ensures sent + rows[copied..copied + k] == rows[..copied + k]
  {
    assert rows[..copied] + rows[copied..copied + k] == rows[..copied + k];
  }

  lemma BatchSentFrom(ctx: Context, s: State, at: nat, k: nat, rows: map<string, seq<SourceRow>>)
    requires Good(ctx, s) && Enabled(ctx, s, CommitBatch(at, k)) && SentFrom(s, rows)
    ensures SentFrom(Next(ctx, s, CommitBatch(at, k)), rows)
  {
    hide Good, IsPrefixOf, BatchCommitted, Complete, Stored;
    var name := s.session.order[at];
    OpenNameKnown(ctx, s, name);
    GoodTable(ctx, s, s.origin.source, name);
    PrefixCounts(ctx, name, s.origin.source, s.target.manifest.rows[name], s.target.tables[name], s.sent[name]);
    PrefixGrows(s.sent[name], rows[name], s.target.manifest.rows[name].copied, k);
  }

  lemma OpenNameKnown(ctx: Context, s: State, name: string)
    requires Good(ctx, s) && s.session.Open? && name in s.session.source.rows
    ensures s.origin.From? && name in s.origin.source.rows
  {
    hide IsPrefixCopy, ParentsComplete, ConvertibleSource, ValidOrder, ValidSource;
  }

  lemma {:induction false} OpensOnlySendsOnly(ctx: Context, events: seq<Event>, rows: map<string, seq<SourceRow>>)
    requires Sound(ctx) && CanRun(ctx, START, events) && OpensOnly(events, rows)
    ensures SentFrom(After(ctx, START, events), rows)
  {
    if events != [] {
      var before, e := events[..|events| - 1], events[|events| - 1];
      OpensOnlySendsOnly(ctx, before, rows);
      ReachableIsGood(ctx, before);
      hide Good, Sound, Validates, ValidOrder, SetUp, BatchCommitted;
      if e.CommitBatch? {
        BatchSentFrom(ctx, After(ctx, START, before), e.at, e.k, rows);
      } else {
        assert e in events;
      }
    }
  }

  /** When every run opens the same rows, each table is exactly what was stored for the source
      prefix that its checkpoint counts. */
  lemma UnchangedSourceCopiedExactly(ctx: Context, events: seq<Event>, source: Source, name: string)
    requires Sound(ctx) && CanRun(ctx, START, events) && OpensOnly(events, source.rows)
    requires After(ctx, START, events).origin == From(source) && name in source.rows
    ensures var t := After(ctx, START, events).target;
            && t.manifest.Manifest? && name in t.manifest.rows && name in t.tables
            && 0 <= t.manifest.rows[name].copied <= |source.rows[name]|
            && t.tables[name] == Stored(ctx, name, source.rows[name][..t.manifest.rows[name].copied])
  {
    ReachableIsGood(ctx, events);
    OpensOnlySendsOnly(ctx, events, source.rows);
    ExactPrefix(ctx, After(ctx, START, events), source, name);
  }

  lemma ExactPrefix(ctx: Context, s: State, source: Source, name: string)
    requires Good(ctx, s) && s.origin == From(source) && name in source.rows && SentFrom(s, source.rows)
    ensures s.target.manifest.Manifest? && name in s.target.manifest.rows && name in s.target.tables
    ensures var c := s.target.manifest.rows[name];
            0 <= c.copied <= |source.rows[name]|
                && s.target.tables[name] == Stored(ctx, name, source.rows[name][..c.copied])
  {
    hide Good, IsPrefixOf, Stored;
    GoodTable(ctx, s, source, name);
    PrefixCounts(ctx, name, source, s.target.manifest.rows[name], s.target.tables[name], s.sent[name]);
    assert s.sent[name] == source.rows[name][..s.target.manifest.rows[name].copied];
  }

  // ----- Completed runs -----

  ghost predicate IsComplete(source: Source, t: Target) {
    t.tables.Keys == source.rows.Keys && forall name | name in source.rows :: Complete(source, t, name)
  }

  function Values(rows: seq<SourceRow>): (values: seq<Row>)
    ensures |values| == |rows| && forall i | 0 <= i < |rows| :: values[i] == rows[i].values
  {
    if rows == [] then [] else Values(rows[..|rows| - 1]) + [rows[|rows| - 1].values]
  }

  // ----- Where the copied rows come from -----

  /** A row of a source that some run has opened. */
  ghost predicate IsOpened(events: seq<Event>, name: string, row: SourceRow) {
    exists e | e in events && e.OpenRun? :: name in e.source.rows && row in e.source.rows[name]
  }

  ghost predicate SentAreOpened(events: seq<Event>, s: State) {
    forall name, row | name in s.sent && row in s.sent[name] :: IsOpened(events, name, row)
  }

  ghost predicate SessionIsOpened(events: seq<Event>, s: State) {
    s.session.Open? ==> exists e | e in events && e.OpenRun? :: e.source == s.session.source
  }

  lemma OpenedExtends(before: seq<Event>, e: Event, name: string, row: SourceRow)
    requires IsOpened(before, name, row)
    ensures IsOpened(before + [e], name, row)
  {
    var o :| o in before && o.OpenRun? && name in o.source.rows && row in o.source.rows[name];
    assert o in before + [e];
  }

  lemma BatchIsOpened(ctx: Context, before: seq<Event>, s: State, at: nat, k: nat, name: string, row: SourceRow)
    requires Enabled(ctx, s, CommitBatch(at, k)) && SentAreOpened(before, s) && SessionIsOpened(before, s)
    requires name in Next(ctx, s, CommitBatch(at, k)).sent && row in Next(ctx, s, CommitBatch(at, k)).sent[name]
    ensures IsOpened(before, name, row)
  {
    hide BatchCommitted, IsOpened;
    if !(name in s.sent && row in s.sent[name]) {
      assert name == s.session.order[at] && row in BatchOf(s, name, k);
      var e :| e in before && e.OpenRun? && e.source == s.session.source;
      FromOpened(before, e, name, row);
    }
  }

  lemma FromOpened(events: seq<Event>, e: Event, name: string, row: SourceRow)
    requires e in events && e.OpenRun? && name in e.source.rows && row in e.source.rows[name]
    ensures IsOpened(events, name, row)
  {
  }

  /** Every row sent is a row of an opened source, and the session's source is one. */
  lemma {:induction false} SentOpened(ctx: Context, events: seq<Event>)
    requires CanRun(ctx, START, events)
    ensures SentAreOpened(events, After(ctx, START, events)) && SessionIsOpened(events, After(ctx, START, events))
  {
    if events != [] {
      var n := |events| - 1;
      var before, e := events[..n], events[n];
      SentOpened(ctx, before);
      assert events == before + [e];
      hide IsOpened, BatchCommitted, SetUp, Validates, ValidOrder;
      var s, t := After(ctx, START, before), After(ctx, START, events);
      forall name, row | name in t.sent && row in t.sent[name] ensures IsOpened(events, name, row) {
        if e.CommitBatch? { BatchIsOpened(ctx, before, s, e.at, e.k, name, row); }
        OpenedExtends(before, e, name, row);
      }
      SessionOpened(ctx, before, e, s);
    }
  }

  lemma SessionOpened(ctx: Context, before: seq<Event>, e: Event, s: State)
    requires Enabled(ctx, s, e) && SessionIsOpened(before, s)
    ensures SessionIsOpened(before + [e], Next(ctx, s, e))
  {
    hide BatchCommitted, SetUp, Validates, ValidOrder;
    if s.session.Open? {
      var o :| o in before && o.OpenRun? && o.source == s.session.source;
      assert o in before + [e];
    }
    assert e in before + [e];
  }

  // ----- What is stored for them -----

  /** PostgreSQL returns the parameters of this row as its column types do. */
  ghost predicate StoresRow(ctx: Context, name: string, row: SourceRow) {
    var columns := ctx.columns(name);
    ReturnsRow(ctx.engine, columns, SentRow(ctx.engine, columns, row.values),
               ctx.store(columns, SentRow(ctx.engine, columns, row.values)))
  }

  /** That holds of every row of the sources the runs open. */
  ghost predicate StoresOpened(ctx: Context, events: seq<Event>) {
    forall name, row | IsOpened(events, name, row) :: StoresRow(ctx, name, row)
  }

  /** Every value of these rows keeps its form when it is stored. */
  predicate KeepsRows(ctx: Context, name: string, rows: seq<SourceRow>) {
    forall i | 0 <= i < |rows| :: RowKeepsForm(ctx.engine, ctx.columns(name), rows[i].values)
  }

  /** Every value of the sources the runs open does. */
  ghost predicate KeepsOpened(ctx: Context, events: seq<Event>) {
    forall name, row | IsOpened(events, name, row) :: RowKeepsForm(ctx.engine, ctx.columns(name), row.values)
  }

  ghost predicate SentStored(ctx: Context, s: State) {
    forall name, row | name in s.sent && row in s.sent[name] :: StoresRow(ctx, name, row)
  }

  ghost predicate SentKept(ctx: Context, s: State) {
    forall name | name in s.sent :: KeepsRows(ctx, name, s.sent[name])
  }

  lemma OpenedStored(ctx: Context, events: seq<Event>)
    requires CanRun(ctx, START, events) && StoresOpened(ctx, events)
    ensures SentStored(ctx, After(ctx, START, events))
  {
    SentOpened(ctx, events);
    hide CanRun, After, IsOpened, StoresRow;
  }

  lemma OpenedKept(ctx: Context, events: seq<Event>)
    requires CanRun(ctx, START, events) && KeepsOpened(ctx, events)
    ensures SentKept(ctx, After(ctx, START, events))
  {
    SentOpened(ctx, events);
    hide CanRun, After, IsOpened, RowKeepsForm;
    var s := After(ctx, START, events);
    forall name, i | name in s.sent && 0 <= i < |s.sent[name]|
      ensures RowKeepsForm(ctx.engine, ctx.columns(name), s.sent[name][i].values)
    {
      assert s.sent[name][i] in s.sent[name];
    }
  }

  /** What the rows sent have left in a table. */
  lemma SentReturned(ctx: Context, name: string, sent: seq<SourceRow>)
    requires AllConvertible(ctx, name, sent) && forall row | row in sent :: StoresRow(ctx, name, row)
    ensures AllConvert(ctx.engine, ctx.columns(name), Values(sent))
    ensures ReturnsRows(ctx.engine, ctx.columns(name), Values(sent), Stored(ctx, name, sent))
    ensures AllKeepForm(ctx.engine, ctx.columns(name), Values(sent)) <==> KeepsRows(ctx, name, sent)
  {
    hide Convertible, ReturnsRow, RowKeepsForm, SentRow;
    forall i | 0 <= i < |sent|
      ensures ReturnsRow(ctx.engine, ctx.columns(name), SentRow(ctx.engine, ctx.columns(name), Values(sent)[i]),
                         Stored(ctx, name, sent)[i])
    {
      assert StoresRow(ctx, name, sent[i]);
    }
  }

  lemma SameLinesSameTexts(ctx: Context, name: string, a: seq<SourceRow>, b: seq<SourceRow>)
    requires Lines(ctx, name, a) == Lines(ctx, name, b)
    ensures Serialized(ctx.engine, ctx.columns(name), Values(a)) == Serialized(ctx.engine, ctx.columns(name), Values(b))
  {
    hide SerialRow;
    assert |Lines(ctx, name, a)| == |Lines(ctx, name, b)|;
    forall i | 0 <= i < |a|
      ensures SerialRow(ctx.engine, ctx.columns(name), a[i].values) ==
              SerialRow(ctx.engine, ctx.columns(name), b[i].values)
    {
      assert Lines(ctx, name, a)[i] == Lines(ctx, name, b)[i];
    }
  }

  /** A table holds what was stored for the rows sent, which are serialized as the source's. */
  ghost predicate IsCopyOf(ctx: Context, name: string, table: seq<Row>, sent: seq<SourceRow>, rows: seq<SourceRow>) {
    && table == Stored(ctx, name, sent) && AllConvertible(ctx, name, sent)
    && (forall row | row in sent :: StoresRow(ctx, name, row))
    && Serialized(ctx.engine, ctx.columns(name), Values(sent)) ==
        Serialized(ctx.engine, ctx.columns(name), Values(rows))
  }

  lemma GoodComplete(ctx: Context, s: State, source: Source, name: string)
    requires Good(ctx, s) && SentStored(ctx, s) && s.origin == From(source)
    requires name in source.rows && Complete(source, s.target, name)
    ensures s.target.tables.Keys == s.sent.Keys == source.rows.Keys
    ensures IsCopyOf(ctx, name, s.target.tables[name], s.sent[name], source.rows[name])
  {
    hide Good, StoresRow, Stored, Serialized, Values, Lines, Convertible;
    GoodTable(ctx, s, source, name);
    var rows := source.rows[name];
    assert Lines(ctx, name, rows)[..|rows|] == Lines(ctx, name, rows);
    SameLinesSameTexts(ctx, name, s.sent[name], rows);
  }

  lemma OpenComplete(ctx: Context, s: State, source: Source, name: string)
    requires Good(ctx, s) && SentStored(ctx, s) && s.session.Open? && s.session.source == source
    requires IsComplete(source, s.target) && name in source.rows
    ensures name in s.target.tables && name in s.sent
    ensures IsCopyOf(ctx, name, s.target.tables[name], s.sent[name], source.rows[name])
  {
    OpenSameLines(ctx, s);
    var origin := s.origin.source;
    SameCounts(ctx, source, origin, name);
    SameLinesSameTexts(ctx, name, source.rows[name], origin.rows[name]);
    hide Good, SentStored, Serialized, Values, Lines, Convertible, Stored, StoresRow;
    assert Complete(source, s.target, name);
    GoodComplete(ctx, s, origin, name);
  }

  /** Such a table is serialized as the source, in whatever order, exactly when every row sent
      keeps its form; it is then serialized row by row as the source. */
  lemma CopyTextsIff(ctx: Context, name: string, table: seq<Row>, sent: seq<SourceRow>, rows: seq<SourceRow>)
    requires Standard(ctx.engine) && IsCopyOf(ctx, name, table, sent, rows)
    ensures AllConvert(ctx.engine, ctx.columns(name), table) && |table| == |rows|
    ensures KeepsRows(ctx, name, sent) ==>
              Serialized(ctx.engine, ctx.columns(name), table) ==
                  Serialized(ctx.engine, ctx.columns(name), Values(rows))
    ensures KeepsRows(ctx, name, sent) <==>
              multiset(Serialized(ctx.engine, ctx.columns(name), table)) ==
              multiset(Serialized(ctx.engine, ctx.columns(name), Values(rows)))
  {
    SentReturned(ctx, name, sent);
    assert |Serialized(ctx.engine, ctx.columns(name), Values(sent))| ==
        |Serialized(ctx.engine, ctx.columns(name), Values(rows))|;
    hide Standard, AllConvertible, AllConvert, ReturnsRows, AllKeepForm, KeepsRows, Serialized, StoresRow;
    BacksConvert(ctx.engine, ctx.columns(name), Values(sent), table);
    CopiedTextsIff(ctx.engine, ctx.columns(name), Values(sent), table);
  }

  lemma CopyVerifiesIff(ctx: Context, name: string, table: seq<Row>, sent: seq<SourceRow>, rows: seq<SourceRow>,
                        hash: TableChecksum.Hash, fetched: seq<Row>)
    requires Standard(ctx.engine) && IsCopyOf(ctx, name, table, sent, rows) && multiset(fetched) == multiset(table)
    ensures var wanted, found := Serialized(ctx.engine, ctx.columns(name), Values(rows)),
                                 Serialized(ctx.engine, ctx.columns(name), fetched);
            && (KeepsRows(ctx, name, sent) ==> TableChecksum.Verified(hash, wanted, found))
            && (TableChecksum.Separates(hash, wanted, found) ==>
                  (TableChecksum.Verified(hash, wanted, found) <==> KeepsRows(ctx, name, sent)))
  {
    SentReturned(ctx, name, sent);
    hide *;
    hide Serialized;
    CopyIsCopyOf(ctx, name, table, sent, rows);
    CopiedTableVerifiesIff(hash, ctx.engine, ctx.columns(name), Values(sent), table, fetched);
  }

  lemma CopyIsCopyOf(ctx: Context, name: string, table: seq<Row>, sent: seq<SourceRow>, rows: seq<SourceRow>)
    requires IsCopyOf(ctx, name, table, sent, rows)
    ensures table == Stored(ctx, name, sent)
    ensures Serialized(ctx.engine, ctx.columns(name), Values(sent)) ==
            Serialized(ctx.engine, ctx.columns(name), Values(rows))
  {
  }

  /** Once every table is complete, the target has the source's tables and no other. Each holds
      what was stored for one row per source row, serialized as that one, and it is serialized as
      the source's, nothing lost and nothing twice, exactly when the rows sent keep their form:
      always, if no opened source holds a value that does not. */
  lemma CompleteIsWholeCopy(ctx: Context, events: seq<Event>, source: Source, name: string)
    requires Sound(ctx) && CanRun(ctx, START, events) && StoresOpened(ctx, events)
    requires After(ctx, START, events).origin == From(source)
    requires name in source.rows && Complete(source, After(ctx, START, events).target, name)
    ensures var s := After(ctx, START, events);
            && s.target.tables.Keys == s.sent.Keys == source.rows.Keys
            && IsCopyOf(ctx, name, s.target.tables[name], s.sent[name], source.rows[name])
            && (KeepsRows(ctx, name, s.sent[name]) <==>
                  multiset(Serialized(ctx.engine, ctx.columns(name), s.target.tables[name])) ==
                  multiset(Serialized(ctx.engine, ctx.columns(name), Values(source.rows[name]))))
            && (KeepsOpened(ctx, events) ==>
                  Serialized(ctx.engine, ctx.columns(name), s.target.tables[name]) ==
                  Serialized(ctx.engine, ctx.columns(name), Values(source.rows[name])))
  {
    SoundEngine(ctx);
    OpenedStored(ctx, events);
    if KeepsOpened(ctx, events) { OpenedKept(ctx, events); }
    hide CanRun, After, Sound, Standard, Good, SentStored, KeepsRows, KeepsOpened, StoresOpened, Serialized, Complete,
      IsCopyOf;
    ReachableIsGood(ctx, events);
    var s := After(ctx, START, events);
    GoodComplete(ctx, s, source, name);
    CopyTextsIff(ctx, name, s.target.tables[name], s.sent[name], source.rows[name]);
  }

  /** A run that has completed every table of the source it opened: each table is serialized as
      that source's exactly when the rows sent keep their form. */
  lemma OpenSessionCopiesSource(ctx: Context, events: seq<Event>, source: Source, name: string)
    requires Sound(ctx) && CanRun(ctx, START, events) && StoresOpened(ctx, events)
    requires After(ctx, START, events).session.Open? && After(ctx, START, events).session.source == source
    requires IsComplete(source, After(ctx, START, events).target) && name in source.rows
    ensures var s := After(ctx, START, events);
            && name in s.target.tables && name in s.sent
            && IsCopyOf(ctx, name, s.target.tables[name], s.sent[name], source.rows[name])
            && (KeepsRows(ctx, name, s.sent[name]) <==>
                  multiset(Serialized(ctx.engine, ctx.columns(name), s.target.tables[name])) ==
                  multiset(Serialized(ctx.engine, ctx.columns(name), Values(source.rows[name]))))
            && (KeepsOpened(ctx, events) ==>
                  Serialized(ctx.engine, ctx.columns(name), s.target.tables[name]) ==
                  Serialized(ctx.engine, ctx.columns(name), Values(source.rows[name])))
  {
    SoundEngine(ctx);
    OpenedStored(ctx, events);
    if KeepsOpened(ctx, events) { OpenedKept(ctx, events); }
    hide CanRun, After, Sound, Standard, Good, SentStored, KeepsRows, KeepsOpened, StoresOpened, Serialized, IsComplete,
      IsCopyOf;
    ReachableIsGood(ctx, events);
    var s := After(ctx, START, events);
    OpenComplete(ctx, s, source, name);
    CopyTextsIff(ctx, name, s.target.tables[name], s.sent[name], source.rows[name]);
  }

  lemma OpenSameLines(ctx: Context, s: State)
    requires Good(ctx, s) && s.session.Open?
    ensures s.origin.From? && SameLines(ctx, s.session.source, s.origin.source)
            && ConvertibleSource(ctx, s.session.source)
    ensures ValidOrder(ctx, s.origin.source, s.session.order)
  {
    hide SameLines, IsPrefixCopy, ParentsComplete, ConvertibleSource, ValidOrder, ValidSource;
  }

  /** The rows of a complete table convert again, so verification can serialize them. */
  lemma CopiedRowsConvert(ctx: Context, events: seq<Event>, source: Source, name: string)
    requires Sound(ctx) && CanRun(ctx, START, events) && StoresOpened(ctx, events)
    requires After(ctx, START, events).session.Open? && After(ctx, START, events).session.source == source
    requires IsComplete(source, After(ctx, START, events).target) && name in source.rows
    ensures name in After(ctx, START, events).target.tables
    ensures AllConvert(ctx.engine, ctx.columns(name), After(ctx, START, events).target.tables[name])
  {
    SoundEngine(ctx);
    OpenSessionCopiesSource(ctx, events, source, name);
    hide *;
    CopyTextsIff(ctx, name, After(ctx, START, events).target.tables[name], After(ctx, START, events).sent[name],
                 source.rows[name]);
  }

  /** End to end: whatever crashed and was resumed before, when a run has copied everything, a
      table verifies in every fetch order if the rows sent to it keep their form, and only then
      unless the checksum takes two lists for the same. */
  lemma CopiedRunVerifiesIff(ctx: Context, events: seq<Event>, source: Source, name: string,
                             hash: TableChecksum.Hash, fetched: seq<Row>)
    requires Sound(ctx) && CanRun(ctx, START, events) && StoresOpened(ctx, events)
    requires After(ctx, START, events).session.Open? && After(ctx, START, events).session.source == source
    requires IsComplete(source, After(ctx, START, events).target) && name in source.rows
    requires name in After(ctx, START, events).target.tables ==>
               multiset(fetched) == multiset(After(ctx, START, events).target.tables[name])
    ensures name in After(ctx, START, events).sent
    ensures var wanted, found := Serialized(ctx.engine, ctx.columns(name), Values(source.rows[name])),
                                 Serialized(ctx.engine, ctx.columns(name), fetched);
            && (KeepsRows(ctx, name, After(ctx, START, events).sent[name]) ==>
                TableChecksum.Verified(hash, wanted, found))
            && (TableChecksum.Separates(hash, wanted, found) ==>
                  (TableChecksum.Verified(hash, wanted, found) <==>
                   KeepsRows(ctx, name, After(ctx, START, events).sent[name])))
  {
    SoundEngine(ctx);
    OpenSessionCopiesSource(ctx, events, source, name);
    hide *;
    CopyVerifiesIff(ctx, name, After(ctx, START, events).target.tables[name], After(ctx, START, events).sent[name],
                    source.rows[name], hash, fetched);
  }

  /** When every run opens the same rows, the rows sent to a complete table are the source's, so the
      condition can be checked on the source. */
  lemma UnchangedSent(ctx: Context, events: seq<Event>, source: Source, name: string)
    requires Sound(ctx) && CanRun(ctx, START, events) && OpensOnly(events, source.rows)
    requires After(ctx, START, events).origin.From? && name in source.rows
    requires name in After(ctx, START, events).origin.source.rows
            && Complete(source, After(ctx, START, events).target, name)
    ensures name in After(ctx, START, events).sent && After(ctx, START, events).sent[name] == source.rows[name]
  {
    OpensOnlySendsOnly(ctx, events, source.rows);
    hide CanRun, After, OpensOnly, Sound, Good, IsPrefixOf, Stored;
    ReachableIsGood(ctx, events);
    var s := After(ctx, START, events);
    GoodTable(ctx, s, s.origin.source, name);
    PrefixCounts(ctx, name, s.origin.source, s.target.manifest.rows[name], s.target.tables[name], s.sent[name]);
  }

  // ----- Foreign keys -----

  /** The parent rows a row refers to, by table. */
  type References = (string, Row) -> set<(string, Row)>

  /** In the source, every reference follows a foreign key to an existing row. */
  ghost predicate Consistent(ctx: Context, source: Source, refs: References) {
    forall name, i, r | name in source.rows && 0 <= i < |source.rows[name]|
        && r in refs(name, source.rows[name][i].values) ::
      && TableOrder.DependsOn(source.names, ctx.deps, name, r.0)
      && r.0 in source.rows && exists j :: 0 <= j < |source.rows[r.0]| && source.rows[r.0][j].values == r.1
  }

  /** From a consistent source, no committed state ever holds a dangling reference: for the row
      that a copied row refers to, a row serialized like it has been sent, and what was stored for
      that one is in the target. It is the very row when every run opened the same rows. */
  lemma NoDanglingReference(ctx: Context, events: seq<Event>, source: Source, refs: References,
                            name: string, i: nat, r: (string, Row)) returns (j: nat)
    requires Sound(ctx) && CanRun(ctx, START, events)
    requires After(ctx, START, events).origin == From(source) && Consistent(ctx, source, refs)
    requires name in source.rows && name in After(ctx, START, events).target.tables
    requires i < |After(ctx, START, events).target.tables[name]| && i < |source.rows[name]|
    requires r in refs(name, source.rows[name][i].values)
    ensures var s := After(ctx, START, events);
            && r.0 in s.sent && r.0 in s.target.tables && j < |s.sent[r.0]| && j < |s.target.tables[r.0]|
            && s.target.tables[r.0][j]
            == ctx.store(ctx.columns(r.0), SentRow(ctx.engine, ctx.columns(r.0), s.sent[r.0][j].values))
            && SerialRow(ctx.engine, ctx.columns(r.0), s.sent[r.0][j].values) ==
                SerialRow(ctx.engine, ctx.columns(r.0), r.1)
            && (OpensOnly(events, source.rows) ==> s.sent[r.0][j].values == r.1)
  {
    if OpensOnly(events, source.rows) {
      OpensOnlySendsOnly(ctx, events, source.rows);
    }
    hide CanRun, After, OpensOnly, Sound, SerialRow, SentRow, SentFrom, Good, Consistent;
    ReachableIsGood(ctx, events);
    j := ReferredRow(ctx, After(ctx, START, events), source, refs, name, i, r);
  }

  lemma ReferredRow(ctx: Context, s: State, source: Source, refs: References, name: string, i: nat, r: (string, Row))
    returns (j: nat)
    requires Good(ctx, s) && s.origin == From(source) && Consistent(ctx, source, refs)
    requires name in source.rows && name in s.target.tables && i < |s.target.tables[name]| && i < |source.rows[name]|
    requires r in refs(name, source.rows[name][i].values)
    ensures r.0 in s.sent && r.0 in s.target.tables && j < |s.sent[r.0]| && j < |s.target.tables[r.0]|
    ensures s.target.tables[r.0][j]
         == ctx.store(ctx.columns(r.0), SentRow(ctx.engine, ctx.columns(r.0), s.sent[r.0][j].values))
    ensures SerialRow(ctx.engine, ctx.columns(r.0), s.sent[r.0][j].values) ==
            SerialRow(ctx.engine, ctx.columns(r.0), r.1)
    ensures SentFrom(s, source.rows) ==> s.sent[r.0][j].values == r.1
  {
    hide Good, SerialRow, SentRow, TableOrder.DependsOn;
    ParentComplete(ctx, s, source, name, r.0);
    GoodTable(ctx, s, source, r.0);
    var c, table, sent := s.target.manifest.rows[r.0], s.target.tables[r.0], s.sent[r.0];
    PrefixCounts(ctx, r.0, source, c, table, sent);
    j :| 0 <= j < |source.rows[r.0]| && source.rows[r.0][j].values == r.1;
    assert Lines(ctx, r.0, sent)[j] == Lines(ctx, r.0, source.rows[r.0])[j];
  }

  lemma ParentComplete(ctx: Context, s: State, source: Source, name: string, parent: string)
    requires Good(ctx, s) && s.origin == From(source) && name in source.rows && parent in source.rows
    requires TableOrder.DependsOn(source.names, ctx.deps, name, parent)
    requires name in s.target.tables && |s.target.tables[name]| > 0
    ensures Complete(source, s.target, parent)
  {
    hide Good, IsPrefixOf, TableOrder.DependsOn, Complete, Stored;
    GoodTable(ctx, s, source, name);
    PrefixCounts(ctx, name, source, s.target.manifest.rows[name], s.target.tables[name], s.sent[name]);
    GoodParents(ctx, s);
  }

  lemma SoundEngine(ctx: Context)
    requires Sound(ctx)
    ensures Standard(ctx.engine)
  {
  }

  // ----- What a resume refuses -----

  /** A table with a changed rowid or value, or whose row count no longer matches its checkpoint,
      fails validation, so no run opens and nothing is written. */
  lemma ResumeRefusesChange(ctx: Context, origin: Source, source: Source, t: Target, name: string)
    requires Sound(ctx) && name in source.rows && name in origin.rows && AllConvertible(ctx, name, origin.rows[name])
    requires t.manifest.Manifest? && name in t.manifest.rows && name in t.tables
    requires t.manifest.rows[name].fingerprint == Fingerprint(ctx, name, origin.rows[name])
    requires !RowsUnchanged(ctx, name, origin.rows[name], source.rows[name])
            || |t.tables[name]| != t.manifest.rows[name].copied
    ensures !Validates(ctx, source, t)
  {
    hide Fingerprint, Sound, RowsUnchanged, AllConvertible;
    if Validates(ctx, source, t) {
      assert CheckpointMatches(ctx, source, t, name);
      FingerprintsEqualIff(ctx, name, origin.rows[name], source.rows[name]);
    }
  }

  /** Opening a run over an untouched prefix copy succeeds exactly for a convertible source with
      the same bundle and tables and unchanged rows. */
  lemma ResumeAcceptsIff(ctx: Context, origin: Source, source: Source, t: Target, sent: map<string, seq<SourceRow>>)
    requires Sound(ctx) && IsPrefixCopy(ctx, origin, t, sent) && ValidSource(origin) && ValidSource(source)
    requires ConvertibleSource(ctx, origin) && source.names != []
    ensures Validates(ctx, source, t) <==>
            && ConvertibleSource(ctx, source) && source.bundle == origin.bundle && source.rows.Keys == origin.rows.Keys
            && forall name | name in source.rows :: RowsUnchanged(ctx, name, origin.rows[name], source.rows[name])
  {
    hide Fingerprint, Sound, RowsUnchanged, AllConvertible, Lines, Stored;
    if Validates(ctx, source, t) {
      AcceptedIsUnchanged(ctx, origin, source, t, sent);
    }
    if ConvertibleSource(ctx, source) && source.bundle == origin.bundle && source.rows.Keys == origin.rows.Keys
       && forall name | name in source.rows :: RowsUnchanged(ctx, name, origin.rows[name], source.rows[name]) {
      UnchangedIsAccepted(ctx, origin, source, t, sent);
    }
  }

  /** The same source, as far as the migrator compares sources. */
  ghost predicate Unchanged(ctx: Context, origin: Source, source: Source) {
    && source.bundle == origin.bundle && source.rows.Keys == origin.rows.Keys
    && forall name | name in source.rows :: RowsUnchanged(ctx, name, origin.rows[name], source.rows[name])
  }

  /** After any history of batches and crashes a resume is accepted exactly for an unchanged
      source whose rows convert. */
  lemma ResumeAfterCrashesIff(ctx: Context, events: seq<Event>, source: Source)
    requires Sound(ctx) && CanRun(ctx, START, events) && ValidSource(source) && source.names != []
    ensures var s := After(ctx, START, events);
            Validates(ctx, source, s.target) <==>
              s.origin.From? && ConvertibleSource(ctx, source) && Unchanged(ctx, s.origin.source, source)
  {
    ReachableIsGood(ctx, events);
    var s := After(ctx, START, events);
    GoodCopy(ctx, s);
    hide CanRun, After, Good, IsPrefixCopy, ConvertibleSource, RowsUnchanged, Sound;
    if s.origin.From? {
      ResumeAcceptsIff(ctx, s.origin.source, source, s.target, s.sent);
    }
  }

  lemma GoodCopy(ctx: Context, s: State)
    requires Good(ctx, s)
    ensures s.origin.From? ==> IsPrefixCopy(ctx, s.origin.source, s.target, s.sent) && ValidSource(s.origin.source)
                               && ConvertibleSource(ctx, s.origin.source)
    ensures s.origin.Unset? ==> s.target.manifest.NoManifest?
  {
    hide IsPrefixCopy, ParentsComplete, ConvertibleSource, ValidSource, SameLines;
  }

  lemma AcceptedIsUnchanged(ctx: Context, origin: Source, source: Source, t: Target, sent: map<string, seq<SourceRow>>)
    requires Sound(ctx) && IsPrefixCopy(ctx, origin, t, sent) && Validates(ctx, source, t)
    requires ConvertibleSource(ctx, origin) && source.names != []
    ensures source.bundle == origin.bundle
    ensures forall name | name in source.rows ::
              name in origin.rows && RowsUnchanged(ctx, name, origin.rows[name], source.rows[name])
  {
    hide Fingerprint, Sound, RowsUnchanged, AllConvertible, Lines, Stored;
    forall name | name in source.rows
      ensures source.bundle == origin.bundle && RowsUnchanged(ctx, name, origin.rows[name], source.rows[name])
    {
      assert CheckpointMatches(ctx, source, t, name);
      assert IsPrefixOf(ctx, name, origin, t.manifest.rows[name], t.tables[name], sent[name]);
      FingerprintsEqualIff(ctx, name, origin.rows[name], source.rows[name]);
    }
    assert source.names[0] in source.rows;
  }

  lemma UnchangedIsAccepted(ctx: Context, origin: Source, source: Source, t: Target, sent: map<string, seq<SourceRow>>)
    requires Sound(ctx) && IsPrefixCopy(ctx, origin, t, sent) && ValidSource(source)
    requires ConvertibleSource(ctx, origin) && ConvertibleSource(ctx, source)
    requires source.bundle == origin.bundle && source.rows.Keys == origin.rows.Keys
    requires forall name | name in source.rows :: RowsUnchanged(ctx, name, origin.rows[name], source.rows[name])
    ensures Validates(ctx, source, t)
  {
    hide Fingerprint, Sound, AllConvertible, Lines;
    forall name | name in source.rows ensures CheckpointMatches(ctx, source, t, name) {
      assert IsPrefixOf(ctx, name, origin, t.manifest.rows[name], t.tables[name], sent[name]);
      FingerprintsEqualIff(ctx, name, origin.rows[name], source.rows[name]);
    }
    NamesCount(source);
    assert |t.manifest.rows| == |t.manifest.rows.Keys|;
  }

  lemma NamesCount(source: Source)
    requires ValidSource(source)
    ensures |source.names| == |source.rows.Keys|
  {
    var all := set n | n in source.names;
    DistinctCount(source.names);
    assert all == source.rows.Keys;
  }

  lemma {:induction false} DistinctCount(names: seq<string>)
    requires forall i, j | 0 <= i < j < |names| :: names[i] != names[j]
    ensures |set n | n in names| == |names|
  {
    if names != [] {
      DistinctCount(names[1..]);
      assert (set n | n in names) == {names[0]} + (set n | n in names[1..]);
    }
  }
}
