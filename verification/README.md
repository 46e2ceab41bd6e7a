# pg-upmig, modelled in Dafny

pg-upmig is a PostgreSQL migration runner. A migrations folder holds files
named `<timestamp>_<name>.js` (plus a `template.stub` and an `sql/`
sub-folder), and a history table records which migrations have been applied.
The `migration` class (`src/index.js`) lists the folder (`_files`), works out
which migrations are newer than everything recorded (`pending`), applies
them in order inside a transaction (`up`), and scaffolds new ones
(`create`). Its `init` prepares the folder and the table once per instance,
and every public call merges its options into the instance's options. The
command-line tool (`src/cli.js`) coerces its `--to` and `--pgtable`
arguments and prints reports padded to a column width.

The project models this core as follows.

- **Values.** Directory entries, migration descriptors, history rows, the
  database, the folder and the options are datatypes.
  - `Js` models the JavaScript values that `_pluck` and `parseInt` see.
  - `Catalog` models the entry test and the parsing of `_files`.
  - `Reconcile` models the high-water-mark cut of `pending`.
  - `Apply` models the loop of `up` with its two bounds, BEGIN, COMMIT and
    ROLLBACK.
  - `Scaffold` models the name defaulting and sanitising of `create`.
  - `Folder` models the folder work of `init`.
  - `Settings` models `Object.assign` on the options.
- **Specification.** `Engine` puts these together as functions on the whole
  state: `Initialized`, `PendingOf`, `UpOf`/`Upgrade` and `CreateOf`/`Made`.
- **Class.** `Runner.Migration` is the class itself. Its fields are
  `options`, `isInit`, `isConnected`, the database, the folder and the
  clock. Its methods update them step by step, and each method is proved to
  leave exactly the state, and give exactly the answer, that its `Engine`
  function describes.
- **Command line.** `Cli` models the two coercions and the report
  arithmetic of `src/cli.js`.

The database is a value with these parts:
- the set of methods the client object has;
- whether the client has connected (set by `_connect` when the connect
  method exists; the runner itself only reads its own `isConnected`);
- whether the history table exists;
- the history rows;
- the effects the migration bodies have had (`schema`);
- an optional snapshot taken at BEGIN.

What a migration body and its INSERT do at run time is given by a `Runtime`
value, two predicates on descriptors. The wall clock is the `clock` field.
How late each retry timer of `create` fires is a function `late` from the
retry's number to extra milliseconds, and the time that passes between two
calls is a parameter `gap` of the lemma that relates them.

## Model

| member | source | states |
|---|---|---|
| Js.Pluck | src/index.js:148-160 | An array result comes back unchanged; an object whose own `resultKey` property is truthy yields that property; every other result (missing key, null, number, string, Date) yields `[]`. |
| Js.PluckNeverFalsy | src/index.js:148-160 | `_pluck` never answers a falsy value: it is an array or the truthy `resultKey` field of an object. |
| Js.ParseInt | src/cli.js:10 | After leading white space and one sign, `parseInt` gives NaN exactly when the text starts with `0x`/`0X` and no hex digit follows (so `"0x"` and `"0xg"` are NaN), or does not start with that prefix and has no leading decimal digit. |
| Js.ParseIntDecimal | src/index.js:239 | On a string that starts with a digit (not `0x`), `parseInt` is the value of the leading digit run. |
| Text.NatToStringRoundTrip | src/index.js:382 | The decimal rendering `${ts}` reads back as `ts`. |
| Text.DigitRunOfPrefix | src/index.js:239 | The leading digit run of `<digits><non-digit>…` is exactly `<digits>`. |
| Catalog.EntryTestIsRegex | src/index.js:232 | The entry test used by the model accepts exactly the strings `/^[0-9]+_.+\.js$/` matches (a digit run, `_`, one or more characters without line terminators, `.js` at the end). |
| Catalog.ParseEntry | src/index.js:236-241 | An entry is parsed exactly when it passes the test; then `filename` is the entry without `.js`, `ts` is the value of the leading digits, and `name` is the non-empty text between the first `_` and `.js`. |
| Catalog.ParsedSnoc | src/index.js:236-242 | Parsing one more entry appends its descriptor when it passes the test and nothing otherwise. |
| Catalog.ParsedMembers | src/index.js:231-242 | A descriptor is in the filtered list exactly when some directory entry parses to it. |
| Catalog.CatalogSpec | src/index.js:229-248 | `_files` is sorted ascending by `ts`, is a permutation of the parsed entries, and holds exactly the descriptors of entries that pass the test. |
| Catalog.NonMigrationEntries | src/index.js:232 | `template.stub` and `sql` are never listed as migrations. |
| Sorting.SortBySorted | src/index.js:245 | The sort leaves the list ascending by key. |
| Sorting.SortByPermutes | src/index.js:245 | The sort neither loses nor duplicates an element. |
| Runner.Migration.Files | src/index.js:229-248 | The loop that parses entry by entry and then sorts answers exactly the catalog `Catalog.Catalog` of the current listing. |
| Reconcile.FindFrom | src/index.js:282 | `findIndex(file => file.ts > bound)`: the answer is -1 or an index whose `ts` exceeds the bound, and every earlier file has `ts <= bound`. |
| Reconcile.Cut | src/index.js:278-285 | The pending list is a suffix of the catalog. It is the whole catalog without history. Otherwise every file cut off has `ts` at most the newest recorded `ts`, and the first file kept is newer. |
| Reconcile.CutIsNewer | src/index.js:276-287 | On a sorted catalog with history, the cut equals the independent definition "every file strictly newer than the newest recorded `ts`". |
| Reconcile.PendingAreNewer | src/index.js:280-285 | Every pending file is a catalog file newer than the newest recorded `ts`. |
| Reconcile.NewerAreNewer | src/index.js:282 | Every member of `Newer(files, bound)` is a file of the catalog with `ts > bound`. |
| Reconcile.NewerAppend | src/index.js:282 | `Newer` distributes over concatenation. |
| Reconcile.NothingNewerNothingPending | src/index.js:282-285 | When no file exceeds the newest recorded `ts`, `pending` is `[]`. |
| History.TsColumn | src/index.js:277 | The selected column holds each row's `ts`, one per row, in row order. |
| History.PluckSelect | src/index.js:277 | `_pluck` on the SELECT's answer (a pg result with `command`, `rowCount`, `oid`, `rows` and `fields`) yields the rows newest first under "rows", the column list under "fields", `"SELECT"` under "command", the row count under "rowCount" when there are rows, and `[]` under "oid" and every other key. |
| History.NewestFirstIsMax | src/index.js:277-282 | The first row of `ORDER BY ts DESC` holds the largest recorded `ts`, and it is one of the rows. |
| History.RollbackRestores | src/index.js:317-341 | ROLLBACK after BEGIN restores the rows and the schema as they were at BEGIN and closes the transaction. |
| Settings.Merge | src/index.js:181 | Merging an absent argument leaves the options unchanged. |
| Settings.MergePersists | src/index.js:272 | Two merges in a row equal one merge of both arguments, the later key winning; merging the same argument twice is merging it once. |
| Settings.MergeSelf | src/index.js:314 | `this.pending(this.options)` merges the options into themselves and changes nothing. |
| Runner.Migration.constructor | src/index.js:43-61 | A new instance has the defaults overridden by the given options, is neither initialised nor connected. |
| Engine.Connected | src/index.js:112-122 | After `_connect` the instance counts as connected whatever the client did, and a connected instance is left as it is. Otherwise only the client's own connection changes: it is connected exactly when it was or its connect method exists. |
| Runner.Migration.Connect | src/index.js:112-122 | The method leaves exactly the state `Engine.Connected` describes. |
| Runner.Migration.Query | src/index.js:132-139 | A statement goes through the configured query method; without that method the answer is `{}` and the database is untouched. |
| Engine.InitSpec | src/index.js:180-220 | `init` always merges its options. The first time it also connects, prepares the folder and creates the table (when the query method exists). On an initialised instance it changes nothing but the options. It never touches the schema or the clock, and keeps the history rows, except that a table it creates starts empty. |
| Engine.InitAfterMerge | src/index.js:308-312 | Merging and then calling `init()` with no argument is `init` with the options. |
| Engine.InitIdempotent | src/index.js:183-184 | A second `init` only merges options. |
| Runner.Migration.Init | src/index.js:180-220 | The method leaves exactly the state `Engine.Initialized` describes and keeps the instance sound. |
| Folder.Put | src/index.js:197 | Writing a file records its text, keeps the folder well-formed, and keeps every listed entry. |
| Folder.MakeDirs | src/index.js:188-194 | After the two `mkdir`s the folder exists, no file changes, and `sql` exists exactly when it did before or the folder itself had to be created. |
| Folder.InitDiskSpec | src/index.js:188-208 | After `init`'s folder work the template exists. An existing template is never overwritten, no other file changes, and `sql` exists exactly when it existed before or the folder was missing. |
| Folder.InitDiskIdempotent | src/index.js:196-208 | Doing the folder work twice is doing it once. |
| Folder.InitDiskKeepsReady | src/index.js:196 | A folder that already holds its template is left as it is. |
| Folder.NoSqlDirInExistingFolder | src/index.js:189-194 | In an existing folder without `sql`, `init` does not create `sql`: both `mkdir`s share one `try`. |
| Folder.InitFromMissing | src/index.js:188-208 | From nothing, `init` creates the folder, `sql` and the template. |
| Engine.FirstRowBound | src/index.js:282 | `latest[0].ts` of the selected rows reads as the first selected timestamp. |
| Engine.CutIsAbove | src/index.js:282-285 | Cutting at the newest recorded timestamp is the `findIndex` and `slice` of `pending`. |
| Engine.ReconciledCut | src/index.js:281-287 | An array with as many elements as timestamps, whose `latest[0].ts` reads as the first, reconciles to the cut at it, with its length as `history`. |
| Engine.ReconciledRows | src/index.js:277-287 | On the selected rows, the reconciliation is the cut at the newest recorded `ts`, and `history` counts the rows. |
| Engine.LatestRows | src/index.js:276-287 | With a query method, the table and `resultKey` "rows", `pending` answers the cut of the catalog at the newest recorded `ts` and the number of rows. |
| Engine.PendingSpec | src/index.js:270-288 | `pending` counts the rows as `history`. Without history it answers the whole catalog. Otherwise it answers exactly the catalog files strictly newer than every recorded row, so a file at or below the newest row is never pending, recorded or not. |
| Engine.PendingWithoutRows | src/index.js:132-139 | Without a query method, `_query` answers `{}`, which plucks to `[]`: every catalog file is pending and `history` is 0. |
| Engine.PendingUnderFields | src/index.js:277-287 | Under `resultKey` "fields", `latest` is the one-element column list without a `ts` property: nothing is pending and `history` is 1. |
| Engine.PendingUnderCommand | src/index.js:277-287 | Under "command", `latest` is the text "SELECT", whose first character has no `ts`: nothing is pending and `history` is 6. |
| Engine.PendingUnderRowCount | src/index.js:277-287 | Under "rowCount", a non-zero count is plucked and has no `length`: the whole catalog is pending with `history` undefined; with no rows, the whole catalog and 0. |
| Engine.PendingUnderOtherKey | src/index.js:277-287 | Under "oid" or a key the answer lacks, `latest` is `[]`: every catalog file is pending and `history` is 0. |
| Engine.PendingHistoryShape | src/index.js:287 | Whatever the options, a `history` that `pending` answers is a non-negative count or undefined. |
| Engine.PendingWithoutTable | src/index.js:277 | With a query method but no table, `pending` rejects with the database's error. |
| Runner.Migration.Pending | src/index.js:270-288 | The method merges, initialises and answers exactly `Engine.PendingOf` of the new state. |
| Runner.Migration.Reconcile | src/index.js:278-287 | The `idx` variable, the `findIndex` and the slice answer exactly `Engine.Reconciled`, including the TypeError when `latest[0]` is undefined or null and a file is compared. |
| Apply.Loop | src/index.js:321-334 | The loop ends at a step between its start and the number pending. It fails only before the end of the list. It keeps the client's methods, the table, the connection and the transaction. |
| Apply.Advance | src/index.js:329-333 | A migration that completes with a query method and a table has its INSERT accepted and recorded. |
| Apply.Begun | src/index.js:319 | BEGIN changes neither the client's methods nor the table's existence. |
| Apply.Closed | src/index.js:336-341 | COMMIT or ROLLBACK changes neither the client's methods nor the table's existence. |
| Apply.Run | src/index.js:317-343 | `up` applies at most all pending migrations and fails only on one of them. It keeps the methods and the table, and leaves no transaction open. |
| Apply.LoopStopsAtFirst | src/index.js:321-334 | The loop runs migrations until the first one a bound excludes or that does not complete. It fails exactly when it stopped for the second reason. |
| Apply.LoopRows | src/index.js:331-333 | Each completed migration appends exactly its own row `(name, ts, filename)`, in order, when the query method exists. |
| Apply.LoopEffects | src/index.js:326-333 | Each completed migration's body has taken effect, in order, plus the body of the migration whose INSERT then failed. |
| Apply.LoopEffectsAtStop | src/index.js:323-330 | At the iteration where the loop ends, only a body that ran before a failed INSERT has taken effect. |
| Apply.RowsOfAppend | src/index.js:332 | The rows of two lists of migrations are the rows of the first followed by those of the second. |
| Apply.EffectsOfAppend | src/index.js:329 | The body effects of two lists of migrations are those of the first followed by those of the second. |
| Apply.StepsCap | src/index.js:323 | A non-zero `steps` caps the number applied (a negative one stops at once). |
| Apply.TargetBound | src/index.js:324 | A non-zero `to` admits only migrations with `ts <= to`. |
| Apply.CountUpToSorted | src/index.js:324 | On a sorted list, exactly the first `CountUpTo` migrations have `ts <= to`. |
| Apply.BothBounds | src/index.js:323-324 | With positive `steps`, a non-zero `to` and no failure, the number applied is `min(steps, number pending with ts <= to)`; `ts == to` is applied. |
| Engine.PendingSorted | src/index.js:279-285 | The pending list `pending` answers is in ascending `ts` order (a suffix of the sorted catalog, all of it, or nothing), and so is the answer of `up`. |
| Engine.UpBothBounds | src/index.js:321-343 | With positive `steps`, a non-zero `to` and every migration succeeding, `up` answers exactly the first `min(steps, number pending with ts <= to)` pending migrations. |
| Apply.Unbounded | src/index.js:321-334 | With `steps` and `to` at 0 or unset and no failure, every pending migration is applied. |
| Apply.FailedTransactionLeavesNoTrace | src/index.js:317-341 | With `transactionnal` and a failure, the history rows and the schema are as they were before `up`, and no transaction is left open. |
| Apply.SuccessfulRunRecords | src/index.js:317-337 | A run without failure records one row per applied migration, in order, keeps every body's effect, and leaves no transaction open. |
| Apply.FailedAutocommitKeepsPrefix | src/index.js:338-343 | Without `transactionnal`, a failure keeps the rows of the migrations applied before it, and their effects, plus the body that ran before a failed INSERT. |
| Apply.FullRunLeavesNothingPending | src/index.js:276-287 | Recording every pending migration leaves nothing pending. |
| Engine.UpPrefix | src/index.js:343 | `up` succeeds exactly when its `pending` does, and answers a prefix of that pending list (in ascending `ts` order, by Engine.PendingSorted), failure or not. |
| Engine.UpBounds | src/index.js:321-343 | The answer of `up` is no longer than a non-zero `steps` (empty for a negative one), and holds only `ts <= to` for a non-zero `to`. |
| Engine.UpAtomic | src/index.js:317-343 | With `transactionnal` and a query method, a failed `up` leaves the history and the schema exactly as before. |
| Engine.UpThenNothingPending | src/index.js:308-344 | After an unbounded `up` in which every migration completes, a fresh `pending` is empty. |
| Runner.Migration.Up | src/index.js:308-344 | The method leaves exactly the state, and answers exactly what, `Engine.UpOf` describes. |
| Runner.Migration.Proceed | src/index.js:314-343 | Once initialised, the `pending` call, BEGIN, the loop and COMMIT or ROLLBACK leave exactly what `Engine.Upgrade` describes. |
| Runner.Migration.Open | src/index.js:319 | The database becomes exactly what `Apply.Begun` describes: BEGIN is sent only when `transactionnal`, and takes effect only through an existing query method. |
| Runner.Migration.Close | src/index.js:336-341 | The database becomes exactly what `Apply.Closed` describes: ROLLBACK after any failure, COMMIT after success when `transactionnal`. |
| Runner.Migration.Apply | src/index.js:315-334 | The `for` loop with its `step` counter and `break`s ends in exactly the outcome `Apply.Loop` describes. |
| Scaffold.Defaulted | src/index.js:361 | The empty (falsy) name becomes `unnamed`; any other name is kept. |
| Scaffold.Strip | src/index.js:362 | The first replacement keeps only `[0-9A-Za-z_\- ]` and never lengthens the name. |
| Scaffold.StripChar | src/index.js:362 | On one character, the first replacement keeps an allowed character and drops any other. |
| Scaffold.StripAppend | src/index.js:362 | The first replacement works piecewise (it has the g flag): on `a + b` it is its result on `a` followed by its result on `b`. |
| Scaffold.HyphenateNoSpace | src/index.js:362 | Text without white space passes the second replacement unchanged. |
| Scaffold.HyphenateRun | src/index.js:362 | One maximal run of white space between `w` and `q` becomes exactly one `-`, and each side is replaced on its own. |
| Scaffold.SanitizeCharset | src/index.js:362 | A sanitised name contains only `[0-9A-Za-z_-]`. |
| Scaffold.SanitizeKeepsIdChars | src/index.js:362 | A name already made of `[0-9A-Za-z_-]` is left unchanged. |
| Scaffold.SanitizeIdempotent | src/index.js:369-371 | Sanitising again, as the retry does, changes nothing. |
| Scaffold.SanitizeEmpty | src/index.js:362 | The sanitised name is empty exactly when the name holds none of `[0-9A-Za-z_\- ]`. |
| Scaffold.FirstName | src/index.js:361-362 | The name `create` settles on first consists of `[0-9A-Za-z_-]` only. |
| Scaffold.RetryName | src/index.js:361-371 | On a retry, a sanitised name is kept, except that the empty name becomes `unnamed`; a second retry changes nothing more. |
| Scaffold.IdRoundTrip | src/index.js:380-382 | The `.js` file created for `<ts>_<name>` (non-empty sanitised name) is parsed by `_files` back to that identifier, `ts` and name. |
| Scaffold.IdLead | src/index.js:365 | The leading number of `<ts>_<name>.js` is `ts`. |
| Scaffold.EmptyNameInvisible | src/index.js:382 | The file `<ts>_.js` created for a name that sanitises to nothing is not listed by `_files`. |
| Engine.MaxLead | src/index.js:365 | Every entry's leading number is at most the folder's largest, which bounds the retries. |
| Engine.SettleSpec | src/index.js:365-371 | However late the timers fire, the retry settles on an identifier whose `.js` does not exist, at a timestamp no earlier than the first. Without a retry the name is unchanged; after one, the timestamp is at least 50 later and an empty name has become `unnamed`. |
| Engine.TakenLead | src/index.js:365 | A taken timestamp is at most the folder's largest leading number, so the retries end. |
| Engine.SettleStep | src/index.js:365-371 | On a taken identifier the retry waits 50 ms plus the timer's lateness and starts again with the sanitised, defaulted name. |
| Engine.ScaffoldedSpec | src/index.js:374-380 | The writes fail exactly when the placeholder is due and `sql` does not exist. Otherwise `<id>.js` becomes a listed copy of the template, and the placeholder is added only when asked for and absent. |
| Engine.MadeSpec | src/index.js:358-382 | After `init`, `create` answers the identifier of its first clock reading and the sanitised name, or one read at least 50 ms later with the name defaulted; that `.js` did not exist, and the files written are exactly the template copy and the placeholder. |
| Engine.CreateSpec | src/index.js:355-383 | `create` answers `<ts>_<name>`: the clock's timestamp with the sanitised name, or one at least 50 ms later (name defaulted after a retry). It fails exactly when it must write the `-- SQL` placeholder and `sql` does not exist, and then writes nothing. |
| Engine.CreateFiles | src/index.js:374-380 | The created `.js` did not exist before and is a copy of the template, and no other file in the folder changes. The `-- SQL` placeholder is written only when `nosql` is off and no such file exists. |
| Engine.CreateIsListed | src/index.js:365-382 | The created migration appears in the next `_files` with the answered identifier, its timestamp and its name, unless the name sanitises to nothing and no retry happened (then `<ts>_.js` is unlisted); after a retry such a name is listed as `unnamed`. |
| Engine.ListedId | src/index.js:229-248 | A listed `<ts>_<name>.js` whose name is non-empty and made of identifier characters is in `_files` as that identifier, timestamp and name. |
| Engine.CreateAnswer | src/index.js:365-382 | After `create` the instance is initialised and the answered identifier's `.js` exists; for a name that does not sanitise to nothing, the identifier is the final clock reading and that name. |
| Engine.CreateAvoids | src/index.js:365-372 | `create` on a folder where `<taken>.js` exists never answers `taken`, answers no earlier than the clock, and strictly later when `taken` is what the clock and the name give at once. |
| Engine.CreateTwice | src/index.js:365-372 | Two `create` calls in a row, with any time between them and any timer lateness, answer different identifiers, the second no earlier; strictly later unless the name sanitises to nothing. |
| Runner.Migration.Create | src/index.js:355-383 | For any timer lateness, the method leaves exactly the state, and answers exactly what, `Engine.CreateOf` describes. |
| Runner.Migration.Make | src/index.js:358-382 | Once initialised, choosing the identifier and writing the files leave exactly what `Engine.Made` describes. |
| Runner.Migration.NextFree | src/index.js:358-372 | The retry loop ends at the timestamp and name `Engine.Settle` describes, with the clock left at that timestamp. |
| Runner.Migration.Write | src/index.js:374-382 | The placeholder and the template copy are written exactly as `Engine.Scaffolded` describes; on the missing `sql` folder nothing is written. |
| Cli.DeleteFirstRunAt | src/cli.js:10 | `replace` without the g flag keeps every character before the first one it matches. |
| Cli.DeleteFirstRunNone | src/cli.js:10 | A string with nothing to replace is kept as it is. |
| Cli.DeleteFirstRunPrefix | src/cli.js:10 | A prefix with nothing to replace is kept in front of whatever the replacement does to the rest. |
| Cli.DeleteFirstRunLeading | src/cli.js:10 | A leading run of replaced characters is removed, and the text after it is kept untouched. |
| Cli.DeleteFirstRunSplit | src/cli.js:10 | `replace` without the g flag on `p + r + q` (`p` with nothing to replace, `r` a maximal run to replace) gives exactly `p + q`. |
| Cli.TimestampWithoutDigits | src/cli.js:9-11 | A `--to` value without a digit gives NaN, which `up` treats as no target. |
| Cli.TimestampLeadingDigits | src/cli.js:9-11 | For a value that starts with a digit, the first run of non-digits is removed and the leading digits of what remains are read. |
| Cli.TimestampOfNumber | src/cli.js:9-11 | A timestamp as `create` writes it reads back as itself. |
| Cli.TimestampExample | src/cli.js:9-11 | `"12-34-56"` reads as 1234: only the first separator goes. |
| Cli.Lower | src/cli.js:14 | `toLowerCase` maps each character to its lower-case form, position by position. |
| Cli.DeleteFirstRunKeepsLower | src/cli.js:14 | Removing a run after lower-casing brings back no upper-case letter. |
| Cli.MigTableIsLower | src/cli.js:13-15 | The table name has no upper-case ASCII letter. |
| Cli.MigTableKeepsTableNames | src/cli.js:13-15 | A name already made of `[0-9a-z_]` is kept. |
| Cli.MigTableKeepsLaterRuns | src/cli.js:13-15 | Only the first run of other characters is removed: `"a-b-c"` becomes `"ab-c"`. |
| Cli.MigTableAll | src/cli.js:13-15 | The corrected coercion yields only `[0-9a-z_]` and never lengthens the name. |
| Cli.MigTableAllSpec | src/cli.js:13-15 | The corrected coercion is idempotent and keeps table names; `"a-b-c"` becomes `"abc"`. |
| Cli.WidthSpec | src/cli.js:55 | The `reduce` width is at least its start and every name's length, and equals one of them. |
| Cli.PaddingNonNegative | src/cli.js:55-90 | Every padding count of the `up` and `list` reports, including the last line's, is non-negative. |
| Cli.ListFooterCounts | src/cli.js:90 | With rows read through "rows", `history` is a number; the `list --history` footer shows the number of rows as done, and as total the rows plus the catalog files newer than all of them, which on an empty history is the whole catalog with 0 done. |

## Left out

- The SQL text of `_query`'s statements, table-name interpolation and quoting are not modelled. Statements are the abstract `CreateTable`, `SelectTs`, `Insert`, `Begin`, `Commit` and `Rollback`. The `table` option is kept but never interpreted, so the model has a single history table.
- The `migrations` option is merged like any other but never interpreted, so the model has a single migrations folder, the one `init` prepares. A `pending` or `up` call that passes a different `migrations` path after `init` (reading a folder `init` never prepared, or rejecting when it is missing) is not modelled.
- Migration bodies are loaded with `require` and run against the client. They are given by `Runtime.runs`, and the server's answer to their INSERT by `Runtime.accepts`. Their effect is recorded as the migration's filename in `schema`.
- The JavaScript text of the template is not modelled. It is the constant `StubText`.
- The constructor's pg type parsers and dotenv loading, and the choice of client, are library configuration. The client is the `Database` value.
- `release` and the `endMethod` and `debug` options (`_debug` only logs) are not modelled.
- Real time is the `clock` field. Within `create`, each retry moves it on by 50 ms plus the given lateness; between calls, only the lemma `CreateTwice` lets time pass (by `gap`). A clock that goes backwards is not modelled.
- Runner.Migration.NextFree: the retry loop stands for the recursive `create` call through `setImmediate`. Its repeated `init`, which does nothing on an initialised instance, is not repeated.
- The order `readdir` returns is a given sequence. A newly written file is appended to it.
- Runner.Migration.Files: the in-place `Array.prototype.sort` is modelled by a pure insertion sort on the sequence.
- Sorting.SortBy: nothing is claimed about the order of equal timestamps.
- Cli.Lower: only ASCII letters are lower-cased. Unicode case mapping is not modelled.
- Names passed to `create` are strings. Other falsy values are not modelled, and the empty string stands for them.
- `parseInt` is modelled for decimal and `0x` input with unbounded precision. Its floating-point rounding of very long digit runs is not modelled.
- The commander wiring, chalk colouring and output of `src/cli.js` are not modelled, nor is the extra `history` key that `list` passes to `init`. Only the width and count arithmetic is.
- Settings.Limit: `steps` and `to` are modelled as integers, NaN or undefined. Strings, which is the type the source documents for them, and fractions are not modelled. In the source a truthy `"0"` for `steps` makes `up` apply nothing, and `to: "0"` or `to: 0.5` stops `up` before any file with `ts >= 1`; the model has no such values. The command line passes both through `parseInt`, and the defaults are integers.
- Pluck: only a value's own properties are read. Properties a JavaScript object inherits (`constructor`, the methods of a `Date`) are not modelled, so `resultKey` "constructor" plucks `[]` here.
- PluckSelect: the pg result is modelled by its five public properties. Its internal properties (`_parsers`, `_types`, `RowCtor`, `rowAsArray`) and the `tableID` of the column description are not modelled.
- ToNumber: strings convert only as plain decimal digits (the empty string giving 0). White space, signs, `0x`, exponents and fractions in a string make NaN here.
- The database never rejects CREATE TABLE, BEGIN, COMMIT or ROLLBACK; only the SELECT and the INSERT can fail (no table). A COMMIT the server rejects, after which the source sends ROLLBACK while `up` still answers `slice(0, step)`, is therefore not modelled.
- `mkdir` failing for a reason other than an existing folder (a missing parent, permissions) is not modelled; the folder is the `Disk` value.
- `readdir`, `writeFile` and `copyFile` never fail here; a listing error or a failed copy is not modelled.
- The tests read a `last` field from `pending`'s answer. The source answers only `{pending, history}`, and the model follows the source.

## Findings

| source | as written | input that shows it | evidently intended | confidence | as-written member | corrected member |
|---|---|---|---|---|---|---|
| src/cli.js:13-15 | `replace(/[^0-9a-z_]+/, "")` has no g flag, so it removes only the first run of characters outside `[0-9a-z_]` | `--pgtable a-b-c` gives table `ab-c`, which still holds `-` | every character outside `[0-9a-z_]` removed, giving `abc` | medium, not executed | Cli.MigTableKeepsLaterRuns | Cli.MigTableAllSpec |
