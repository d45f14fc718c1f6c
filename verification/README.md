# Verified model of the backend's stateful core

This project models the parts of the backend whose correctness depends on an argument rather
than on one line of code, and proves what each part is for.

* **SQLite to PostgreSQL migrator** (`scripts/migrate-sqlite-to-postgres.ts`): the JSON tokenizer
  and its canonical trees, the row conversion, the order-blind table checksum, the table ordering,
  and the batched copy that may crash at any statement and be resumed.
* **GraphQL cost and depth rules** (`src/graphql/validation.ts`).
* **Graceful shutdown** (`src/shutdown.ts`).
* **Transaction drivers** (`src/db/postgres-driver.ts`, `src/db/sqlite-driver.ts`): the advisory
  lock and the promise queue, and the two placeholder scanners.
* **Migration runner** (`src/db/migrate.ts`, `src/db/migration-files.ts`).
* **CSV event export** (`src/controllers/exportController.ts`).
* **Spec comparison** (`scripts/validate-openapi.js`).
* **Fixed-window rate limit store** (`src/middleware/inMemoryRateLimitStore.ts`).

## How it is built

A step-by-step part of the program is a class or a method with loops, and its `ensures` ties the
new state to a specification function; the lemmas are then about that function. Protocols that
interleave or crash are state machines (`Enabled`, `Next`, runs as sequences of events), and what
is proved holds in every reachable state or over every run. `SHA-256`, the clock, the verdict of
`JSON.parse`, the spelling of numbers, SQL execution, file contents and the behaviour of clients
are parameters. Where a fingerprint has to detect a change, SHA-256 is taken to be injective;
the text it hashes is defined, and what that text does not tell apart is stated.

| file | contents |
|---|---|
| `CodeUnits`, `Radix`, `ArrayIndexes`, `Sorting`, `Options` | UTF-16 texts and their order, numerals, index keys, sorting a finite map, missing values |
| `JsonNumbers`, `JsonText`, `CanonicalJson`, `JsonTokens`, `JsonRoundTrip`, `JsonEquality`, `JsonTokenizer` | RFC 8259 texts, what they denote, and the tokenizer |
| `JsonWriting`, `StableText` | how `JSON.stringify` writes strings and `stable` writes a row, and when two writings are equal |
| `RowCanonical`, `SentValues`, `CopiedRows`, `TableChecksum`, `TableOrder`, `CopyProtocol`, `CopyRun` | the migrator |
| `QueryRules` | cost and depth |
| `Shutdown` | deadlines and cleanup |
| `PostgresTransactions`, `SqliteQueue`, `Placeholders` | the drivers |
| `MigrationRunner`, `CsvExport`, `SpecCanonical`, `RateLimitStore` | the remaining components |

## Where the code differs from its own description

* The cost rule is described as rejecting a cost that exceeds the maximum; the code rejects at the
  maximum (`src/graphql/validation.ts:7-8` and `:176`). The model rejects at the maximum.
* "Inlined and named fragments are both counted" (`src/graphql/validation.ts:53-56`) is not exact:
  a fragment spread again further down is passed over, so the measured depth can be less than the
  inlined one. `QueryRules.MeasuredDepthIsInlinedDepthIff` says exactly when they are equal.
* `translatePlaceholders` ignores double-quoted identifiers, `convertPlaceholders` does not
  (`src/db/postgres-driver.ts:43-44` and `:121-142`). `Placeholders.SameTranslationIff` says when
  they agree.
* A down run with `steps: 0` reverts everything, because `slice(-0)` is the whole list
  (`src/db/migrate.ts:235-236`).
* Up `n` then down `n` gives the history back exactly when it was a prefix of the file list.
* `specsAreEqual` is described as detecting any real difference at any depth
  (`scripts/validate-openapi.js:74-79`); members called `__proto__`, the time of a date, and the
  numbers JSON cannot write are lost.
* The migrator is meant to refuse a resume whose source changed
  (`scripts/migrate-sqlite-to-postgres.ts:286-287`), but its fingerprint does not tell a text from
  the blob whose hexadecimal digits it spells, nor an infinity from a missing value, outside JSON
  and numeric columns (`:136-137` and `:122`). `CopyProtocol.ResumeAcceptsIff` says exactly which
  sources it accepts, `CopyProtocol.BlobForTextUnnoticed` gives an input.
* A fully copied table is meant to verify (`:326-337`). A number that SQLite holds in a text column,
  or a blob with content, is copied and then fails: it is hashed in one form on one side and as a
  text on the other (`:135-138`). `CopiedRows.CopiedTableVerifiesIff` says exactly which source
  tables verify.
* The CSV export ends records with a bare line feed, where RFC 4180 section 2 asks for CRLF;
  `CsvExport.StrictReaderRefuses` shows that a reader to the letter takes no complete file.

## Model

| member | source | states |
|---|---|---|
| JsonNumbers.NormaliseToken | scripts/migrate-sqlite-to-postgres.ts:105-111 | The stripping loops compute the canonical string of the token's digits and exponent |
| JsonNumbers.ScaledUnique | scripts/migrate-sqlite-to-postgres.ts:108-111 | A positive rational has only one significand not divisible by ten and one exponent |
| JsonNumbers.MantissaIs | scripts/migrate-sqlite-to-postgres.ts:108-109 | A token's digits read as an integer are its value times a power of ten for each digit after the point |
| JsonNumbers.ExponentIs | scripts/migrate-sqlite-to-postgres.ts:109 | An exponent multiplies by the power of ten it spells, and one with a minus divides by it |
| JsonNumbers.NormaliseKeepsValue | scripts/migrate-sqlite-to-postgres.ts:108-110 | Stripping zeros on both ends keeps the rational the token denotes and leaves none |
| JsonNumbers.SameCanonicalNumberIff | scripts/migrate-sqlite-to-postgres.ts:105-111 | Two tokens get the same canonical string exactly when they denote the same rational; every spelling of zero gets `0` |
| JsonTokens.NumberScanned | scripts/migrate-sqlite-to-postgres.ts:105-107 | The number pattern takes exactly the token that is written, whatever may follow it in a JSON text |
| JsonTokens.StringScanned | scripts/migrate-sqlite-to-postgres.ts:62-69 | The string scan stops at the literal's own closing quote and yields the units its escapes denote |
| JsonText.HexDigitIs | scripts/migrate-sqlite-to-postgres.ts:62-69 | Hexadecimal digits count from their place among the sixteen, in either case, and no other character is one |
| JsonText.ShortUnitIs | scripts/migrate-sqlite-to-postgres.ts:62-69 | Which two-character escapes there are and the character each stands for |
| JsonRoundTrip.DocumentTokenized | scripts/migrate-sqlite-to-postgres.ts:57-114 | From any rendering of a document, with any whitespace, escapes, spellings and duplicate names, the tokenizer returns the document's tree |
| JsonTokenizer.Tokenizer.Value | scripts/migrate-sqlite-to-postgres.ts:70-112 | The cursor parser over a shared position returns what the specification parser returns and stops where it stops |
| JsonTokenizer.Tokenizer.Items | scripts/migrate-sqlite-to-postgres.ts:74-85 | The array loop terminates and collects the items in order |
| JsonTokenizer.Tokenizer.Members | scripts/migrate-sqlite-to-postgres.ts:86-99 | The object loop terminates and keeps the last value of each name |
| JsonTokenizer.Tokenizer.StringLiteral | scripts/migrate-sqlite-to-postgres.ts:62-69 | The literal loop refines the specification scan |
| JsonTokenizer.CanonicaliseText | scripts/migrate-sqlite-to-postgres.ts:57-60 | Given the verdict of JSON.parse, the method returns the canonical tree of a JSON text and refuses every other text |
| JsonEquality.SameTreeIffSameValue | scripts/migrate-sqlite-to-postgres.ts:70-113 | Canonical trees separate documents exactly as their values do |
| JsonEquality.CanonicalOfDocument | scripts/migrate-sqlite-to-postgres.ts:57-114 | The canonical form of a rendering is the document's tree, and its value is unambiguous |
| JsonEquality.TokenizedIffJson | scripts/migrate-sqlite-to-postgres.ts:57-60 | Every JSON text is tokenized and no other text is |
| JsonEquality.SameCanonicalIffSameValue | scripts/migrate-sqlite-to-postgres.ts:56-114 | Two JSON texts get equal canonical trees exactly when they denote equal values |
| CopiedRows.CanonicalSurvives | scripts/migrate-sqlite-to-postgres.ts:49-54 | A value with a canonical form can be sent, and what PostgreSQL returns for it converts again; it has the same form exactly when the source value is no number, boolean or blob with content in a text column and no number its numeric type would respell |
| RowCanonical.JsonNullIsNotSqlNull | scripts/migrate-sqlite-to-postgres.ts:129-133 | In a JSON column a JSON null and a missing value are written as different texts |
| RowCanonical.BooleanColumnTakes | scripts/migrate-sqlite-to-postgres.ts:42-45 | In a boolean column only the integer 1 is sent as true and only 0 as false, the same for numbers and texts that spell them, booleans as themselves, and everything else throws |
| RowCanonical.BooleanConverts | scripts/migrate-sqlite-to-postgres.ts:42-45 | What a boolean column sends and compares is the value's truth value; it throws exactly when there is none |
| SentValues.PlainSent | scripts/migrate-sqlite-to-postgres.ts:51-54 | In numeric and text columns an integer is sent and compared as a text that spells it, any other value is sent as it is, and in a numeric column every value is compared as a text |
| SentValues.NumberCompared | scripts/migrate-sqlite-to-postgres.ts:134-138 | A number is compared as itself in a text column and by its spelling in a numeric one |
| SentValues.BlobCompared | scripts/migrate-sqlite-to-postgres.ts:137 | A blob in a text column is compared by two hexadecimal digits a byte, which read back as its bytes |
| SentValues.JsonSent | scripts/migrate-sqlite-to-postgres.ts:46-54 | In a JSON column valid JSON is sent as it is and other text throws, a 64-bit integer throws, and any other value is sent as a JSON text of what it stands for; compared is the canonical tree of the text sent |
| RowCanonical.JsonCellsEqualIff | scripts/migrate-sqlite-to-postgres.ts:116-133 | In a JSON column two JSON texts are written alike exactly when they denote equal values |
| StableText.CellsWrittenAlikeIff | scripts/migrate-sqlite-to-postgres.ts:116-123 | Two canonical values get the same text exactly when they are equal or both written as null, which a missing value and an infinity are |
| StableText.RowsWrittenAlikeIff | scripts/migrate-sqlite-to-postgres.ts:116-126 | Two rows of canonical values get the same text exactly when they do so value by value |
| StableText.StableMeans | scripts/migrate-sqlite-to-postgres.ts:116-123 | A row is written as a JSON text: the list of its values, nulls, booleans, texts and numbers as themselves and JSON tagged |
| RowCanonical.CanonicalEqualIff | scripts/migrate-sqlite-to-postgres.ts:116-139 | For every column type, when two values share a canonical form and when they are written alike: equal truth values, equal JSON values, equal spellings, or outside those columns the same value up to blobs that read as a text and infinities that are written as null |
| RowCanonical.BlobLooksLikeText | scripts/migrate-sqlite-to-postgres.ts:136-138 | The blob x'AB' and the text "ab" have one canonical form |
| RowCanonical.InfinityLooksLikeNull | scripts/migrate-sqlite-to-postgres.ts:122 | An infinity, a form of its own, is written as a missing value is |
| RowCanonical.SerialRowsIff | scripts/migrate-sqlite-to-postgres.ts:125-140 | Two rows are serialized alike exactly when each value of one is the same value of its column as the other's |
| CopiedRows.RowSurvives | scripts/migrate-sqlite-to-postgres.ts:125-140 | What comes back for a row is serialized as the source row exactly when every source value keeps its form |
| CopiedRows.CopiedTableVerifiesIff | scripts/migrate-sqlite-to-postgres.ts:322-337 | For what PostgreSQL returns for every source row, in any fetch order: a table whose source values all keep their form verifies, and no other does unless the checksum takes the two lists of rows for the same |
| CopiedRows.CopiedTextsIff | scripts/migrate-sqlite-to-postgres.ts:125-140 | Whatever the order, the copy is serialized as the source exactly when every source value keeps its form |
| CopiedRows.OneRowNoticedIff | scripts/migrate-sqlite-to-postgres.ts:326-337 | With a single row that does not keep its form, verification fails exactly when the hash tells that row from what came back for it |
| CopiedRows.NumberInTextColumnDiffers | scripts/migrate-sqlite-to-postgres.ts:135-138 | A number in a text column comes back as a text, and whatever the text the two rows are serialized differently |
| CopiedRows.NumberInTextColumnFails | scripts/migrate-sqlite-to-postgres.ts:326-337 | Verification then fails, in any fetch order, unless the hash confuses the two rows |
| TableChecksum.TableChecksum.Add | scripts/migrate-sqlite-to-postgres.ts:146-149 | Adding a row moves sum and count to those of the longer list |
| TableChecksum.TableChecksum.Digest | scripts/migrate-sqlite-to-postgres.ts:150 | The digest is 64 hexadecimal digits that read back as the sum of the rows added |
| TableChecksum.SumPermuted | scripts/migrate-sqlite-to-postgres.ts:142-151 | Reordering rows never changes the sum |
| TableChecksum.SumConcat | scripts/migrate-sqlite-to-postgres.ts:146-149 | Sums add over concatenation modulo 2^256 |
| TableChecksum.SumCopies | scripts/migrate-sqlite-to-postgres.ts:142-149 | n copies of a row weigh n times its hash modulo 2^256 |
| TableChecksum.DigestDecodes | scripts/migrate-sqlite-to-postgres.ts:150 | A digest is always 64 hexadecimal digits and decodes back to the sum |
| TableChecksum.VerifiedIff | scripts/migrate-sqlite-to-postgres.ts:336 | Verification passes exactly when counts agree and hash totals agree modulo 2^256 |
| TableChecksum.ChangedRowNoticedIff | scripts/migrate-sqlite-to-postgres.ts:142-151 | One row replaced by another is noticed, in any fetch order, exactly when their hashes differ modulo 2^256 |
| TableChecksum.FullCopyVerifies | scripts/migrate-sqlite-to-postgres.ts:326-337 | A table holding the source's rows verifies in whatever order they are fetched |
| TableChecksum.SeparatedVerifyIff | scripts/migrate-sqlite-to-postgres.ts:142-151 | A checksum that does not take two lists for the same passes exactly for the same rows in any order |
| TableChecksum.VerifyTable | scripts/migrate-sqlite-to-postgres.ts:326-336 | The fetch loop, in batches of any size, returns that verdict |
| TableOrder.Search.VisitTable | scripts/migrate-sqlite-to-postgres.ts:156-163 | The recursive visit that edits `ordered` and `visiting` in place refines the specification search and restores `visiting` |
| TableOrder.OrderTables | scripts/migrate-sqlite-to-postgres.ts:153-166 | The whole search returns the specification's outcome |
| TableOrder.VisitExtends | scripts/migrate-sqlite-to-postgres.ts:156-163 | A visit that succeeds extends the list, adds its table, and keeps parents before children |
| TableOrder.VisitFindsCycle | scripts/migrate-sqlite-to-postgres.ts:158 | A visit that fails names a table on a dependency cycle |
| TableOrder.OrderTablesCorrect | scripts/migrate-sqlite-to-postgres.ts:153-166 | It throws exactly when the dependencies among the names have a cycle, self-references included; otherwise it lists each name once with every parent before its child |
| CopyProtocol.ReachableIsGood | scripts/migrate-sqlite-to-postgres.ts:269-321 | In every state reachable by setting up, batches, crashes and resumes, each table is what was stored for as many rows as its checkpoint counts, these are the source prefix as fingerprints see it, and no table is begun before its parents are complete |
| CopyProtocol.UnchangedSourceCopiedExactly | scripts/migrate-sqlite-to-postgres.ts:294-321 | When every run opens the same rows, each table is exactly what was stored for the source prefix its checkpoint counts |
| CopyProtocol.FingerprintTextInjective | scripts/migrate-sqlite-to-postgres.ts:266 | The hashed text determines every rowid and every serialized row of a table, and their order |
| CopyProtocol.FingerprintsEqualIff | scripts/migrate-sqlite-to-postgres.ts:261-268 | Two tables have one fingerprint exactly when their rowids agree and every value is the same value of its column |
| CopyProtocol.BlobForTextUnnoticed | scripts/migrate-sqlite-to-postgres.ts:262-268 | A text replaced by the blob whose hexadecimal digits it spells leaves the fingerprint as it was |
| CopyProtocol.CompleteIsWholeCopy | scripts/migrate-sqlite-to-postgres.ts:294-321 | Once all tables are complete the target has the source's tables and no other; each holds what was stored for one row per source row, no row lost or doubled, and is serialized as the source's exactly when the rows sent keep their form |
| CopyProtocol.OpenSessionCopiesSource | scripts/migrate-sqlite-to-postgres.ts:278-321 | A run that completes every table of the source it opened leaves each one so, serialized as in that source exactly when the rows sent keep their form |
| CopyProtocol.CopiedRunVerifiesIff | scripts/migrate-sqlite-to-postgres.ts:269-337 | End to end: whatever crashed and was resumed before, when a run has copied everything a table verifies in every fetch order if the rows sent to it keep their form, and only then with a checksum that tells the lists apart |
| CopyProtocol.SentOpened | scripts/migrate-sqlite-to-postgres.ts:294-316 | Every row ever sent is a row of a source that some run has opened |
| CopyProtocol.UnchangedSent | scripts/migrate-sqlite-to-postgres.ts:294-321 | When every run opens the same rows, the rows sent to a complete table are the source's, so that condition can be checked on the source |
| CopyProtocol.BatchKeepsPrefix | scripts/migrate-sqlite-to-postgres.ts:307-313 | A batch with its checkpoint keeps the prefix copy |
| CopyProtocol.BatchKeepsParents | scripts/migrate-sqlite-to-postgres.ts:294-321 | A batch keeps parents complete even when a resume follows another valid order |
| CopyProtocol.NoDanglingReference | scripts/migrate-sqlite-to-postgres.ts:269-321 | From a consistent source no committed state holds a row whose referenced row is missing: what was stored for a row serialized like it is there, and for that very row when every run opened the same rows |
| CopyProtocol.ResumeRefusesChange | scripts/migrate-sqlite-to-postgres.ts:281-293 | A table with a changed rowid, row count or value, in the sense of its column, or a target row count that differs from its checkpoint, fails validation |
| CopyProtocol.ResumeAcceptsIff | scripts/migrate-sqlite-to-postgres.ts:261-293 | Over an untouched prefix copy a resume is accepted exactly for a convertible source with the same bundle, tables, rowids and, value by value, the same values of their columns |
| CopyProtocol.ResumeAfterCrashesIff | scripts/migrate-sqlite-to-postgres.ts:261-293 | After any history of batches and crashes a resume is accepted exactly for an unchanged source whose rows convert |
| CopyRun.Client.Commit | scripts/migrate-sqlite-to-postgres.ts:312 | A COMMIT performs one event of the machine when it is answered or lands before the connection is lost, and otherwise leaves the committed state alone |
| CopyRun.SendBatch | scripts/migrate-sqlite-to-postgres.ts:302-311 | The INSERT and the checkpoint UPDATE build the machine's batch, or the transaction is gone, which is so only when the connection dies within three statements |
| CopyRun.Flush | scripts/migrate-sqlite-to-postgres.ts:300-316 | Batch and checkpoint commit together or not at all; a flush succeeds exactly when its five steps are answered |
| CopyRun.CopyTable | scripts/migrate-sqlite-to-postgres.ts:295-320 | The row loop from the checkpoint on completes the table exactly when the connection answers five steps a batch, and otherwise stops in a state the machine reaches |
| CopyRun.CopyTables | scripts/migrate-sqlite-to-postgres.ts:294-321 | The table loop completes every table in order, exactly when the connection lasts for all their batches |
| CopyRun.WriteFreshManifest | scripts/migrate-sqlite-to-postgres.ts:270-277 | The setup transaction empties every table and writes every checkpoint at zero, atomically, exactly when all its statements are answered |
| CopyRun.ValidateManifest | scripts/migrate-sqlite-to-postgres.ts:278-293 | The loop accepts exactly the targets that validate, before any write |
| CopyRun.ReadTable | scripts/migrate-sqlite-to-postgres.ts:261-268 | The reading loop converts every row or throws, and leaves the serialized rows and the fingerprint of the table |
| CopyRun.PrepareTarget | scripts/migrate-sqlite-to-postgres.ts:214-277 | Exactly when a first run or a resume is refused or cut off here: a resume writes nothing, a first run needs an empty target, tables that fit, values that convert and foreign keys without a cycle; the order used is then the one of the search |
| CopyRun.Migrate | scripts/migrate-sqlite-to-postgres.ts:186-340 | Whatever statement the connection dies at, a run is an execution of the machine; exactly when it is refused and when it is cut off; otherwise everything is copied, and it finishes exactly when every table verifies. After any history of crashes, a resume over an unchanged source that keeps its form finishes if the connection lasts |
| CopyRun.VerifyTables | scripts/migrate-sqlite-to-postgres.ts:326-340 | The verification loop is cut off exactly when the connection dies, and otherwise reports success exactly when every table, as fetched, converts and passes its checksum |
| CopyRun.CopyAndVerify | scripts/migrate-sqlite-to-postgres.ts:278-340 | A prepared run is refused exactly when the manifest does not validate, which changes nothing, and is cut off exactly when the connection answers less than copying and verifying what is left takes |
| CopyRun.ParametersWithinLimit | scripts/migrate-sqlite-to-postgres.ts:317-319 | An INSERT takes as many rows as keep it within the batch size and 60000 parameters, no fewer, and at least one with at most 60000 columns |
| CopyRun.BatchesAreLeast | scripts/migrate-sqlite-to-postgres.ts:319-321 | The batches of a table are the fewest of that size that hold its rows |
| QueryRules.CostTraversal.CalculateCost | src/graphql/validation.ts:147-173 | The traversal with its shared mutable visited set terminates on cyclic documents and refines the state-passing cost |
| QueryRules.VisitedAreReachable | src/graphql/validation.ts:164-168 | The fragments visited are exactly those reachable by spreads |
| QueryRules.CostIsReachableWeight | src/graphql/validation.ts:147-175 | The cost is the weight of the operation's own non-meta fields plus, once each, that of every reachable fragment |
| QueryRules.CostIgnoresOrder | src/graphql/validation.ts:153-171 | Reordering selections at any depth, in the operation and in every fragment, never changes the cost |
| QueryRules.PermutedIsReordered | src/graphql/validation.ts:153-171 | Any shuffle of one list is such a reordering |
| QueryRules.QueryCostRule | src/graphql/validation.ts:132-190 | An operation is reported exactly when the weight of its fields and of the reachable fragments, in the table of the document's definitions, is at least the maximum |
| QueryRules.TableHoldsDefinitions | src/graphql/validation.ts:137-145 | The fragment table holds exactly the defined names, each with the body of its last definition |
| QueryRules.AliasBoundary | src/graphql/validation.ts:30-36 | Nineteen aliased milestone blocks pass and twenty are rejected |
| QueryRules.DepthTraversal.MeasureDepth | src/graphql/validation.ts:72-102 | The depth traversal terminates on every document and refines the state-passing measure |
| QueryRules.DepthLimitRule | src/graphql/validation.ts:57-116 | An operation is reported exactly when its depth, measured with the table of the document's definitions, is greater than the maximum |
| QueryRules.DepthWithinCost | src/graphql/validation.ts:72-173 | Both traversals visit the same fragments, and the depth never exceeds the cost |
| QueryRules.InlinedHasNoSpreads | src/graphql/validation.ts:53-56 | In an acyclic document inlining leaves no spread, so the inlined depth is that of a plain tree |
| QueryRules.InlinedDepthIsMeasuredOrSkipped | src/graphql/validation.ts:88-98 | The inlined depth is the measured one or comes from a spread that the visited guard passes over |
| QueryRules.MeasuredDepthIsInlinedDepthIff | src/graphql/validation.ts:53-104 | The measured depth never exceeds the inlined one, and equals it exactly when no skipped spread reaches deeper |
| QueryRules.InlinedDepthBound | src/graphql/validation.ts:53-104 | In an acyclic document the inlined depth is at most the measured one times one more than the number of reachable fragments |
| QueryRules.MeasuredDepthWithoutRepeats | src/graphql/validation.ts:72-104 | It equals the inlined depth when no fragment is expanded twice |
| QueryRules.MeasuredDepthNeverDeeper | src/graphql/validation.ts:72-104 | It equals the inlined depth also when no fragment is spread deeper than where it is first expanded, however often it is |
| QueryRules.CostWithinInlined | src/graphql/validation.ts:122-126 | The cost never exceeds the inlined weight, and equals it when nothing is skipped |
| QueryRules.DepthUndercountsRepeatedSpread | src/graphql/validation.ts:88-98 | A document whose repeated spread makes the measured depth too small |
| Shutdown.Clamp | src/shutdown.ts:151-154 | A clamped value lies within the bounds, and one that lay there is unchanged |
| Shutdown.SlicesOf | src/shutdown.ts:245-269 | Whatever the configuration, NaN and infinite settings included, no slice of a finite budget reaches past the cleanup reserve, which is at most half of it; an infinite budget keeps finite slices, and one that is not a number has none |
| Shutdown.SlicesKeepSettings | src/shutdown.ts:245-269 | A setting is kept as far as there is room for it, and unset the reserve is 2000 ms, the pre-stop delay 0, the request slice half the budget and the job slice three tenths |
| Shutdown.BudgetIs | src/shutdown.ts:247 | The budget is the timeout, 0 instead of anything below it, and NaN or infinity when it is that |
| Shutdown.SpecialNumbers | src/shutdown.ts:151-154 | Sums, minima, maxima and comparisons with NaN and infinities are those of IEEE 754 |
| Shutdown.WaitFor | src/shutdown.ts:156-167 | The poll ends at the condition or the deadline, never past it, and notices a lasting condition within one interval |
| Shutdown.RunCleanupStep | src/shutdown.ts:191-204 | A step ends by its limit, times out exactly when it does not settle in time, and fails exactly when it rejects |
| Shutdown.RunCleanup | src/shutdown.ts:378-412 | Every supplied step is attempted in order with what is left of the budget and at least 1 ms, and the failures are exactly those listed |
| Shutdown.StepsAreSupplied | src/shutdown.ts:379-384 | The steps are exactly the supplied tasks, Redis before the database before tracing |
| Shutdown.Drain | src/shutdown.ts:274-353 | Both waits end by the cleanup deadline and within their slices, and end early only when their condition holds; a budget that is not a number skips them |
| Shutdown.ForceClose | src/shutdown.ts:355-376 | Connections are forced exactly when the server has not closed, for at most 250 ms and never past the hard deadline |
| Shutdown.RunShutdown | src/shutdown.ts:217-427 | For every configuration and behaviour the deadlines hold, cleanup starts in time, every step is attempted, the exit code is right, and the total is at most a finite budget plus 1 ms a step; an infinite or NaN budget leaves 1 ms for each step |
| Shutdown.RequestCounter.Track | src/shutdown.ts:116-122 | Tracking counts the request in |
| Shutdown.RequestCounter.Release | src/shutdown.ts:123-129 | The first of finish and close counts it out, the second changes nothing, so the counter is always the number of open requests |
| PostgresTransactions.LockedRunsAreSerial | src/db/postgres-driver.ts:260-268 | Over every interleaving that locks before it reads, whatever keys collide, committed rows under a key form one chain, and the table is what its writes give made one at a time in commit order |
| PostgresTransactions.AllOrNothing | src/db/postgres-driver.ts:271-283 | All rows of committed transactions are in the table and no row of any other, so a rolled-back one leaves no trace |
| PostgresTransactions.TableHoldsCommitted | src/db/postgres-driver.ts:271-283 | The table holds exactly the keys and values that the committed transactions asked to insert, each transaction's together and in its order |
| PostgresTransactions.StepKeepsInv | src/db/driver.ts:21-40 | Every step keeps locks exclusive and every reader's last row current while it holds the lock |
| PostgresTransactions.UnlockedRunForks | src/db/driver.ts:24-29 | Without the lock two transactions can chain onto the same row |
| PostgresTransactions.PoolClient.Transaction | src/db/postgres-driver.ts:235-286 | A call sends BEGIN, the callback's statements and COMMIT, or on the first error that reaches it ROLLBACK instead of the rest; it succeeds exactly when BEGIN, COMMIT and the callback do, errors that the callback catches included, and always releases the client |
| PostgresTransactions.CallIsRun | src/db/postgres-driver.ts:271-283 | However far its statements are performed, a call is a run of the machine: committed as a whole, or rolled back without a trace in the table or in any other transaction |
| PostgresTransactions.PerformedAllIff | src/db/postgres-driver.ts:271-275 | A call commits exactly when none of its statements errs, so one that succeeds after a caught error commits nothing |
| SqliteQueue.OneAtATimeInOrder | src/db/sqlite-driver.ts:92-97 | Once a call has begun every earlier one has settled: at most one runs, in call order |
| SqliteQueue.BeginNeverNested | src/db/sqlite-driver.ts:15-22 | A call whose turn has come never meets an open transaction |
| SqliteQueue.DatabaseIsSerial | src/db/sqlite-driver.ts:66-97 | The database, or what a running call would roll back to, is the successful calls, with the local variables of their callbacks, applied whole in call order |
| SqliteQueue.SucceedsIff | src/db/sqlite-driver.ts:77-89 | A call succeeds exactly when its BEGIN and COMMIT work, its callback does not throw and every statement works, and then all have been executed |
| SqliteQueue.FailsIff | src/db/sqlite-driver.ts:77-89 | It fails exactly when BEGIN meets a busy file, the callback throws, a statement fails or COMMIT does |
| SqliteQueue.BeginSees | src/db/sqlite-driver.ts:92-96 | A call begins on the database that the successful calls before it have left |
| SqliteQueue.CommitAppliesWhole | src/db/sqlite-driver.ts:78-82 | A COMMIT that works makes the call succeed and leaves what its whole callback makes of the database it began with |
| SqliteQueue.FailureRestores | src/db/sqlite-driver.ts:83-89 | Whatever else ends a call puts the database back to what it began with |
| SqliteQueue.CallsAreTransactions | src/db/sqlite-driver.ts:92-97 | The calls are the transactions asked for, in order, each with its own callback |
| SqliteQueue.NeverStuck | src/db/sqlite-driver.ts:92-96 | While a call is unsettled, it or an earlier one has an enabled step, so a failure never blocks later calls |
| SqliteQueue.StepsProgress | src/db/sqlite-driver.ts:67-90 | Every step leaves less work |
| SqliteQueue.EverythingSettles | src/db/sqlite-driver.ts:66-97 | Without new calls only so many steps remain |
| SqliteQueue.SqliteDriver.Transaction | src/db/sqlite-driver.ts:92-97 | A call chains onto the tail and becomes the tail |
| SqliteQueue.SqliteDriver.Begin | src/db/sqlite-driver.ts:77 | BEGIN opens the transaction unless the file is busy, and a failed one settles the call without ROLLBACK |
| SqliteQueue.SqliteDriver.Execute | src/db/sqlite-driver.ts:78-89 | A statement advances the callback or rolls everything back |
| SqliteQueue.SqliteDriver.Finish | src/db/sqlite-driver.ts:80-89 | COMMIT settles the call, or rolls it back when it fails |
| Placeholders.ConvertPlaceholders | src/db/postgres-driver.ts:46-96 | The scanner with doubled-quote skipping computes the translation in which quotes toggle |
| Placeholders.TranslatePlaceholders | src/db/postgres-driver.ts:121-142 | The toggling scanner computes the translation without identifiers |
| Placeholders.PieceInOutput | src/db/postgres-driver.ts:86-92 | Each character stands in the output after the pieces before it, a placeholder as `$` and the numeral that spells one more than the placeholders before it, anything else as itself |
| Placeholders.PartsTranslated | src/db/postgres-driver.ts:46-142 | For every statement made of code, literals and quoted identifiers, doubled quotes included, exactly the question marks of the code are numbered, in order, and everything else is copied |
| Placeholders.ClosedStatementTranslated | src/db/postgres-driver.ts:46-142 | Every statement whose quotes are closed is made of such parts, so its translation numbers exactly its code |
| Radix.DecimalIff | src/db/postgres-driver.ts:86-90 | The text of a number is the one numeral that spells it |
| Placeholders.EachNumberOnce | src/db/postgres-driver.ts:86-90 | Each number from 1 to the count is given to exactly one placeholder |
| Placeholders.SameTranslationIff | src/db/postgres-driver.ts:43-142 | The scanners return the same text exactly when every question mark is a placeholder for both or neither |
| Placeholders.SameWithoutIdentifiers | src/db/postgres-driver.ts:113-120 | They agree when every double quote lies inside a literal |
| Placeholders.IdentifierTellsApart | src/db/postgres-driver.ts:68-84 | A question mark in a quoted identifier tells them apart |
| MigrationRunner.Database.Apply | src/db/migrate.ts:128-216 | One file of an up run, with its skip, dry-run, success and duplicate-error branches, changes the history as specified |
| MigrationRunner.Database.Revert | src/db/migrate.ts:240-300 | One file of a down run, likewise |
| MigrationRunner.Database.ProcessUpMigrations | src/db/migrate.ts:111-219 | The up loop performs the specified run |
| MigrationRunner.Database.ProcessDownMigrations | src/db/migrate.ts:221-304 | The down loop performs the specified run |
| MigrationRunner.EachFileCommitsOnce | src/db/migrate.ts:121-175 | Across any sequence of up runs, over any directories and outcomes, each file's SQL commits at most once and is then in the history |
| MigrationRunner.ShadowedNeverExecuted | src/db/migrate.ts:128-147 | A file of the other dialect with a counterpart is never executed, and a run that reaches it records it |
| MigrationRunner.UpFileIs | src/db/migrate.ts:128-214 | By name and driver alone, what an up run does with each file: the one for the other kind of database is only recorded when there is one for this kind, otherwise its own text, converted if need be, is executed, and what counts as applied |
| MigrationRunner.RunPicksItsDialect | src/db/migrate.ts:121-175 | With both files of a migration on disk a run never executes the one for the other kind of database, and executes the own text of the one for this kind |
| MigrationRunner.DownFileIs | src/db/migrate.ts:240-300 | The same for going down: the down file of the same dialect is executed and the file leaves the history when it works |
| MigrationRunner.PairExecutesOnce | src/db/migrate.ts:90-109 | However often the runner runs with both files of a migration on disk, the one for the other kind of database never executes and the one for this kind at most once |
| MigrationRunner.UpAllRecords | src/db/migrate.ts:165-214 | Exactly the files whose result carries no error are added to the history |
| MigrationRunner.FullRunCompletes | src/db/migrate.ts:121-219 | A full run covers every file exactly when no result carries an error |
| MigrationRunner.SecondRunExecutesNothing | src/db/migrate.ts:121-125 | After an error-free full run another run changes nothing and reports nothing |
| MigrationRunner.UpDownRestoresIff | src/db/migrate.ts:221-304 | Up n then down n, both error-free, gives the history back exactly when it was a prefix of the file list, and then reverts in the opposite order |
| MigrationRunner.GapNotRestored | src/db/migrate.ts:221-304 | With only the second of two files applied, up 1 then down 1, both error-free, leaves another history |
| MigrationRunner.StepsReverted | src/db/migrate.ts:235-236 | How many files a down run takes for every step count, zero and negative ones included |
| MigrationRunner.StepsApplied | src/db/migrate.ts:124-125 | An up run takes the oldest pending files, as many as its step count and there are; a negative count leaves out so many of the newest |
| MigrationRunner.ZeroSteps | src/db/migrate.ts:235-236 | Zero steps apply nothing going up and revert everything going down |
| MigrationRunner.DryUpChangesNothing | src/db/migrate.ts:157-167 | A dry up run leaves the database as it is |
| MigrationRunner.DryDownChangesNothing | src/db/migrate.ts:260-271 | A dry down run leaves the database as it is |
| MigrationRunner.CounterpartReturnsIff | src/db/migrate.ts:104-109 | The counterpart's counterpart is the file exactly when the step changes the dialect and keeps the direction |
| MigrationRunner.DownNameIff | src/db/migrate.ts:82-88 | The down name is the stem with the down suffix exactly when `.sql` occurs nowhere earlier |
| CsvExport.ExportEvents | src/controllers/exportController.ts:148-177 | A finished stream is the complete file; an abandoned one is the header and the rows so far, left at the first point where the loop yields and the client is gone |
| CsvExport.RowRoundTrip | src/controllers/exportController.ts:28-50 | A line decodes to one record that tells its row: the ledger and whole seconds spelled, the free-text fields behind a tab exactly where a formula would start, and stripping to the originals |
| CsvExport.CompleteFileDecodes | src/controllers/exportController.ts:126-177 | A complete file decodes to the header, a record that tells each row, in order, and one footer that spells their number |
| CsvExport.OnlyLastIsFooter | src/controllers/exportController.ts:79-87 | No header or data record can look like the footer |
| CsvExport.TruncationNoticed | src/controllers/exportController.ts:79-87 | Of a complete file's prefixes exactly the whole one, with or without its last line feed, looks complete |
| CsvExport.AbandonedNoticed | src/controllers/exportController.ts:160-172 | An export the client left early, cut anywhere, never looks complete |
| CsvExport.LeftSoon | src/controllers/exportController.ts:160-172 | A client that stays away is noticed within 500 rows |
| CsvExport.StrictReaderRefuses | src/controllers/exportController.ts:40-50 | A reader for which only CRLF ends a record takes no complete file |
| CsvExport.StrictReaderTakes | src/controllers/exportController.ts:40-50 | That reader does take a line that ends in CRLF |
| JsonWriting.StringPiecesUnits | scripts/validate-openapi.js:80-82 | Every string is read back from the literal JSON.stringify writes, lone surrogates included |
| JsonWriting.EscapedExactly | scripts/validate-openapi.js:80-82 | In that literal a unit stands for itself exactly when it is no control character, quotation mark, backslash or lone surrogate; seven units have short escapes, and the rest lower-case hexadecimal ones |
| SpecCanonical.EnumeratedMap | scripts/validate-openapi.js:60-72 | Enumerating index keys first loses and adds no member |
| ArrayIndexes.IndexIff | scripts/validate-openapi.js:60-72 | Index keys are exactly the numbers below 2^32 - 1, written without leading zeros |
| ArrayIndexes.IndexesByNumber | scripts/validate-openapi.js:60-72 | Index keys are enumerated by number, not as texts |
| SpecCanonical.ComparedTextMeans | scripts/validate-openapi.js:60-82 | The text that is compared is a JSON text whose value is the document's, without `__proto__` members, the times of dates and the numbers JSON cannot write |
| SpecCanonical.SpecsEqualIff | scripts/validate-openapi.js:60-82 | Two documents compare equal exactly when they are equal after dropping `__proto__` members, emptying dates and nulling what JSON cannot write |
| SpecCanonical.PlainSpecsEqualIff | scripts/validate-openapi.js:74-82 | Without those, exactly when they are equal as trees of finite maps and ordered lists |
| SpecCanonical.PlainIffSeen | scripts/validate-openapi.js:60-72 | Those documents are exactly the ones in which the comparison sees everything |
| SpecCanonical.ProtoMissed | scripts/validate-openapi.js:66-68 | A `__proto__` member is a difference the comparison misses |
| SpecCanonical.DateMissed | scripts/validate-openapi.js:60-72 | Dates compare equal whatever their times, and equal to an object without members |
| SpecCanonical.NonFiniteMissed | scripts/validate-openapi.js:80-82 | A number JSON cannot write compares equal to null |
| RateLimitStore.InMemoryRateLimitStore.Increment | src/middleware/inMemoryRateLimitStore.ts:6-18 | One hit updates the key's entry and no other |
| RateLimitStore.IncrementAll | src/middleware/inMemoryRateLimitStore.ts:6-18 | Over any run of hits on any keys from an empty store, each key's results are those of its own hits alone, and the store ends with the last of them |
| RateLimitStore.WindowStart | src/middleware/inMemoryRateLimitStore.ts:10-17 | Inside a window counts run 1, 2, 3 without gaps from the hit that opened it |
| RateLimitStore.WindowsDisjoint | src/middleware/inMemoryRateLimitStore.ts:10-14 | Windows never overlap |
| RateLimitStore.AtMostTwiceMax | src/middleware/inMemoryRateLimitStore.ts:6-18 | Any half-open interval of one window length admits at most twice the maximum |

## Left out

- CopyRun.Migrate: ends with the checksum report; the table lock held meanwhile and the sequence updates after it (`setval`) are not modelled. Reads before the copy are taken as answered, and the schema migrations and the fetches of one table count as one statement each.
- CopyRun.PrepareTarget: the source history check, the target history and column drift checks and the advisory lock are not modelled; they only refuse more runs before anything is copied.
- CopiedRows.CanonicalSurvives: the other columns are taken for text columns, the only ones the schema has besides boolean, JSON and numeric ones, and how a numeric type prints and how bytes read as UTF-8 are parameters; rows that PostgreSQL rejects, for their values or for a constraint, are not modelled.
- Shutdown.RunShutdown: hooks do not throw and the clock is ideal; finite times are whole milliseconds, and a timer asked for NaN or infinity fires after 1 ms, as in Node.js, whose limit of 2^31 - 1 ms for finite ones is not modelled; `Math.floor(budget * 0.3)` is taken as exact, where rounding may cost 1 ms.
- PostgresTransactions.LockedRunsAreSerial: starts from an empty table; READ COMMITTED visibility, atomic commit and the id sequence are taken from PostgreSQL.
- PostgresTransactions.PoolClient.Transaction: what a failing ROLLBACK leaves behind on the pooled connection is not modelled.
- SqliteQueue.DatabaseIsSerial: a ROLLBACK is taken to succeed, and statements issued on the outer driver while a transaction is open are outside the contract.
- MigrationRunner.Database.Apply: the regex dialect converters are parameters, and one runner works on a database at a time, so the history insert of a pending file never conflicts; a history insert that throws outside a transaction ends the source's run, which is not modelled.
- SpecCanonical.SpecsEqualIff: binary YAML scalars are not modelled, and number formatting is a parameter that spells different doubles differently.
- CsvExport.ExportEvents: the query, its validation and `setImmediate` scheduling are parameters; a drain that never comes is not modelled.
- JsonTokenizer.CanonicaliseText: the verdict of JSON.parse is a parameter, taken to be RFC 8259; recursion depth limits of the engine are not modelled.
- QueryRules.CostTraversal.CalculateCost: a spread named after a property of `Object.prototype` counts as unknown; in the source it adds nothing either.
- RateLimitStore.AtMostTwiceMax: one process and a clock that does not go back.
- Express routing, other controllers, Redis, Soroban and Pinata calls, configuration, tracing and health probes: no claims here.
