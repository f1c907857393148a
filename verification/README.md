# CSV-to-PostgreSQL loader, modelled in Dafny

The repository loads a used-car shop's tables into PostgreSQL from CSV
files. This project models its three loading paths and its offline
foreign-key reconciler:

- **The row loader** is `insert_data_from_csv`. The command-line script has
  one copy and the web application another. It normalises every CSV row to
  one value per mapped header, with an empty or absent field becoming NULL.
  Each row gets its own savepoint and is inserted. A failed row is rolled
  back to its savepoint and classified by SQLSTATE: `23505` means "nothing
  new to add", any other integrity error is reported as such, and
  everything else is "unexpected". The loop then carries on with the next
  row.
- **The drivers**:
  - the script's `main` loads every table of its mapping in order inside
    one transaction, skips a table whose file is missing, and commits once
    or rolls back;
  - the web application's `run_insertion_for_table` loads one table and
    commits or rolls back;
  - the web application's record editor inserts the non-empty edited
    records, one savepoint each.
- **The reconciler** (`debug.py`) works in two passes over a fixed
  configuration of 24 tables:
  - the first pass learns the database id of every CSV row that can be
    found by its natural key, both by key value and by row position;
  - the second pass rewrites each foreign-key placeholder, either a 1-based
    parent row number or a parent natural key, into the learnt id, and
    writes corrected copies of the CSV files.

The database is an abstract state `S`, passed to an oracle that answers
each INSERT with a generated id or an error and the state it leaves. A
savepoint rollback keeps the state from before the row. The reconciler's
SELECT is a lookup function that finds an id, finds nothing, or raises;
nothing catches the error, so a raising SELECT ends the program. The file system is a function from path to
`Missing | Unreadable | Rows(rows)`. Rows are `map<string, string>`.

Modules, one per file:

| module | file | contents |
|---|---|---|
| `Basics` | basics.dfy | `Option`, `Result`, SQL parameter values, rows, dictionary literals as entry lists |
| `Decimal` | decimal.dfy | decimal rendering of row numbers and the `int()` parse of placeholders |
| `SqlText` | sql_text.dfy | savepoint names, the identifier sanitiser, the rendered INSERT text and its quoted column list |
| `Rows` | rows.dfy | header/column mappings, row normalisation, the editor's record filtering |
| `Sink` | sink.dfy | the INSERT oracle, error classification, cursor commands, the outer transaction |
| `RowLoader` | row_loader.dfy | `insert_data_from_csv` as a fold over rows, and as a loop |
| `Session` | session.dfy | the script's table loop and transaction, `run_insertion_for_table`, the record editor |
| `LoadConfig` | load_config.dfy | the script's `csv_mappings` and the web application's copy |
| `ReconcileConfig` | reconcile_config.dfy | `TABLE_CONFIGS` and `PROCESSING_ORDER`, and their well-formedness |
| `Reconciler` | reconciler.dfy | the two passes and the files written |

## Model

| member | source | states |
|---|---|---|
| Decimal.NatToStringValue | main.py:113 | the decimal text of a row index reads back as that index |
| Decimal.NatToStringInjective | main.py:113 | distinct row indices render as distinct texts |
| Decimal.ParseInt | debug.py:320 | the placeholder parse succeeds exactly on an optionally signed run of at least one ASCII digit, and yields the literal's value |
| Decimal.ParseRendered | debug.py:318-324 | a rendered row number, with or without a sign, parses back to the signed number |
| SqlText.SafeIdentifier | main.py:112 | the sanitised table name has the original's length, keeps every alphanumeric character and puts `_` in place of every other one |
| SqlText.SafeIdentifierIsPlain | main.py:112 | the sanitised name consists of letters, digits and underscores only, and sanitising it again changes nothing |
| SqlText.SafeOrderIdentifier | main.py:371 | the quoted identifier `"order"` sanitises to `_order_` |
| SqlText.CsvSavepointNameProperties | main.py:112-113 | the script's savepoint name is a plain SQL name, and distinct row indices of a table get distinct names |
| SqlText.AppSavepointNameProperties | app.py:268 | the web application's `sp_row_<i>` and `sp_editor_row_<i>` names are plain and distinct for distinct rows |
| SqlText.OrderTableSavepoint | main.py:112-113 | the first row of the order table uses savepoint `sp_csv__order__row_0` |
| SqlText.MainSqlMarkers | main.py:85-94 | the script's INSERT text holds exactly one `%s` marker per mapped column |
| SqlText.AppSqlMarkers | app.py:255-262 | the web application's INSERT text holds exactly one `%s` marker per mapped column |
| SqlText.ColumnListRoundTrip | main.py:92 | the quoted, comma-joined column list parses back to the column names when no name holds a double quote |
| SqlText.ColumnListBijection | main.py:92 | a text parses to a list of names if and only if it is the rendering of that list, which contains no double quote |
| SqlText.ParsedItemsRender | main.py:92 | every text the column-list parser accepts is the rendering of what it returns |
| Rows.Normalise | main.py:98-106 | one value per mapped header in map order; NULL exactly when the header is absent from the row or its field is empty, the field text otherwise |
| Rows.NormaliseFrame | main.py:100-106 | the values depend only on the row's mapped headers: rows that agree on them give the same values |
| Rows.RecordValues | app.py:403 | one value per table column; NULL exactly when the record lacks the column or holds NULL there |
| Rows.FilledRecords | app.py:384 | the records kept are exactly those that are neither missing in every column nor the empty string in every column |
| Rows.FilledRecordsSingle | app.py:384 | a single record is kept exactly when it is filled |
| Rows.FilledRecordsAppend | app.py:384 | the filter keeps table order and multiplicity: filtering two stretches of the table gives the two filtered stretches one after the other |
| RowLoader.RowSavepointProperties | main.py:112-113 | in either program the per-row savepoint name is plain and different for different rows |
| RowLoader.CsvStatementRendering | main.py:84-94 | the rendered INSERT of either loader has exactly one parameter marker per value in a row's tuple, and its column list reads back as the mapped columns in map order |
| RowLoader.PrefixCounts | main.py:96-131 | after `n` rows there are `n` outcomes, every row either yields an id or a warning, and each row issues two commands plus a rollback when it fails |
| RowLoader.PrefixIds | main.py:114-119 | the ids returned are those of the successful inserts, in row order |
| RowLoader.PrefixWarnings | main.py:121-131 | the warnings' kinds are the classifications of the failed rows' outcomes, in row order |
| RowLoader.PrefixWarningTables | main.py:124-131 | every warning names the table being loaded |
| RowLoader.PrefixExtends | main.py:96-131 | loading more rows only extends the outcomes, ids, warnings and commands |
| RowLoader.RowSeesPriorState | main.py:96-118 | each row is inserted into the state all earlier rows left |
| RowLoader.RowFaultIsolation | main.py:114-131 | a failed row leaves the database and the ids as they were and adds one warning; a successful row moves to the state its insert left and appends its id |
| RowLoader.PrefixSavepoints | main.py:112-115 | the savepoints set are the per-row names in row order, one per row |
| RowLoader.PrefixRollbacksPaired | main.py:121-131 | every `ROLLBACK TO` returns to the savepoint set immediately before it |
| RowLoader.PrefixOnlyReadsPrefix | main.py:96 | the result after `n` rows depends only on the first `n` rows |
| RowLoader.LoadRowCore | main.py:112-119 | the savepoint name and log of a row do not influence the database or the ids |
| RowLoader.RejectedRowIsInvisible | main.py:121-131 | a row that every state rejects leaves the same database and ids as a file without that row |
| RowLoader.AllRejectedLeaveSinkUnchanged | main.py:121-128 | when every row is rejected, nothing is written, no id is returned, one warning per row is given, and all warnings are "nothing new to add" when every error is a unique violation |
| RowLoader.InsertDataFromCsv | main.py:58-132 | a missing file and an unreadable file are reported as different errors; otherwise `total` is the row count and ids plus warnings account for every row; an empty file gives no ids, a total of 0 and an untouched database |
| RowLoader.InsertRows | main.py:96-132 | the loop computes the same result as the fold, so at most `total` ids are returned |
| Session.RunTablesAborts | main.py:483-499 | the table loop stops early exactly when some table's file exists but cannot be read |
| Session.RunTablesReportCount | main.py:483-499 | without an abort there is one report per table; with one, the abort is the last report |
| Session.RunTablesReportKinds | main.py:483-499 | the i-th report belongs to the i-th table: skipped exactly when its file is missing, aborted exactly when its file is unreadable, otherwise finished with as many attempts as rows and no more inserts than attempts |
| Session.RunSession | main.py:483-518 | the run commits exactly when no table aborts and the commit goes through, and then publishes the loop's database; otherwise it rolls back to the starting state, after the raising commit call when it was the commit that failed; the connection is closed last either way |
| Session.SessionAtomicity | main.py:501-518 | at most one call to commit and at most one commit that goes through, which happens exactly when the session ends committed; a commit that raises is followed by a rollback; the committed state is either the starting state or everything the loop wrote |
| Session.MissingFilesDoNotAbort | main.py:494-496 | missing files alone never abort the run: it commits with a report for every table |
| Session.AllMissingIsNoOp | main.py:494-496 | when every file is missing the run writes nothing and warns about no row |
| Session.RunInsertionForTable | app.py:288-315 | no connection or an unknown key does nothing; a missing file is reported with neither commit nor rollback; a readable file commits once and reports its counts, unless the commit raises, which is followed by a rollback; the row warnings of a readable file are shown whether or not its commit goes through; an unreadable file rolls back without a commit call and shows no row warning |
| Session.RunInsertionKeepsTxnSettled | app.py:303-315 | a run that starts with nothing pending ends with nothing pending, and only a successful run changes the transaction |
| Session.RunInsertionCommitsTable | app.py:299-313 | a successful run commits exactly the state the table's load left, with its row warnings; a run whose commit raises keeps the earlier committed state, calls commit then rollback, and still shows the load's row warnings |
| Session.EditorAccounting | app.py:397-411 | after `n` records, successes plus errors equal `n`, each record issues two commands plus a rollback on failure, and no success means no change |
| Session.EditorPrefixWarnings | app.py:400-411 | the warnings shown are exactly the rejected records, each with its error, in record order, one per error counted |
| Session.SaveEditorRecords | app.py:381-427 | no columns or no filled record does no database work and shows no per-record warning, the `NoColumns` or `NoData` outcome standing for the program's own message about it; otherwise the filled records are inserted in order, a warning is shown for each rejected one, and a completed save commits once the state those inserts leave, with successes plus errors equal to the number of filled records and one warning per error; a commit that raises is followed by a rollback |
| Session.EditorPrefixSavepoints | app.py:400-406 | each record opens exactly one savepoint, record `i` the one named after `i`, in record order |
| Session.EditorPrefixRollbacksPaired | app.py:404-409 | every rollback names the savepoint opened two commands earlier, with the failed INSERT in between |
| Session.EditorSavepoints | app.py:397-411 | a save that reaches the database opens one savepoint per filled record under that record's name and rolls back only to the savepoint of a failed record |
| Session.EditorAllRejected | app.py:400-413 | when every record is rejected the transaction ends as it started, no success is counted, and a warning is shown for every filled record, in table order |
| Session.EditorNoneInserted | app.py:400-411 | when every record is rejected the database is untouched and the success count is zero |
| LoadConfig.MainKeysFollowProcessingOrder | main.py:162-478 | the script's 23 tables come in the reconciler's processing order, which adds one table |
| LoadConfig.PrefixRespectsParents | main.py:480-483 | a table list following a well-formed processing order lists every parent before each table that refers to it |
| LoadConfig.AppConfigsLookup | app.py:30-54 | every key of the web application's copy finds the script's entry for that key |
| ReconcileConfig.EntriesInProcessingOrder | debug.py:23-217 | the configuration lists its 24 tables in processing order |
| ReconcileConfig.ProcessingOrderDistinct | debug.py:211-217 | no table appears twice in the processing order |
| ReconcileConfig.ConfigWellFormed | debug.py:23-217 | every processed key is configured, and every parent a foreign key names is configured and processed before the table that refers to it |
| ReconcileConfig.ConfigAt | debug.py:23-217 | looking up the i-th processed key finds the i-th configuration entry |
| ReconcileConfig.OrderChildren | debug.py:127-196 | the order table has no natural key, and order items, payments and shipments each name an order by 1-based row number |
| Reconciler.CacheByIndex | debug.py:265-280 | position `i` is cached exactly when row `i` was found by its natural key, and holds that row's id |
| Reconciler.CacheByNaturalKey | debug.py:267-275 | a value is cached exactly when some row carries it as a natural key and is found by it |
| Reconciler.CacheNaturalKeyIds | debug.py:270-275 | every id cached under a value is what the database returns for that value |
| Reconciler.UnkeyedTableCachesNothing | debug.py:279-282 | a table without a natural key caches nothing and gives one warning per row, naming the row's position |
| Reconciler.CacheTablesCrash | debug.py:258-271 | the first pass finishes exactly when every processed key is configured, its file is readable and every SELECT on its rows is answered without an error |
| Reconciler.FailingSelectCrash | debug.py:265-271 | when the keys before it clear, a configured table with a readable file and a SELECT that raises ends the first pass with a crash naming that table |
| Reconciler.FailingSelectEndsRun | debug.py:247-271 | a SELECT that raises leaves the output directory alone, writes no file and ends the run on that table |
| Reconciler.CacheTablesResult | debug.py:258-282 | when every SELECT is answered, a finished first pass holds, for every processed key, the cache built from that table's own rows |
| Reconciler.FirstPassCachesAll | debug.py:256-282 | with a well-formed configuration, readable files and every SELECT answered, every configured table is cached from its own rows |
| Reconciler.FkStepEffect | debug.py:309-333 | one foreign key leaves the rest of the row alone, writes the resolved id or keeps the text, appends that placeholder's warnings, and fails exactly when a non-blank placeholder names an unconfigured parent |
| Reconciler.RewriteFksFrame | debug.py:307-334 | a row's rewrite fails exactly when a non-blank placeholder names an unconfigured parent; otherwise it keeps the columns and leaves every non-FK column unchanged |
| Reconciler.RewriteFksNotes | debug.py:309-333 | the warnings of a row are those of its foreign keys, in configuration order |
| Reconciler.RewriteFksHalt | debug.py:309-333 | a placeholder naming an unconfigured parent halts the row's rewrite after exactly the warnings of the placeholders before it |
| Reconciler.RewriteFksColumns | debug.py:309-333 | with distinct FK columns, every FK column ends with its resolved id, or with its original text when blank or unresolved |
| Reconciler.RowNotesEmpty | debug.py:310-333 | a row gives no warning exactly when each of its placeholders is blank or resolves |
| Reconciler.InvalidIndexReportedTwice | debug.py:318-333 | a row-number placeholder that is not an integer gives an invalid-index warning followed by an unresolved warning |
| Reconciler.IndexPlaceholderNamesParentRow | debug.py:318-324 | row number `k+1` resolves to whatever the first pass found for parent row `k`; anything that resolves is a number from 1 to the parent's row count |
| Reconciler.UnkeyedParentNeverResolves | debug.py:279-282 | a placeholder whose parent table has no natural key never resolves |
| Reconciler.UnkeyedParentUnresolvable | debug.py:256-282 | after a first pass that finishes, placeholders for a parent without a natural key never resolve |
| Reconciler.OrderPlaceholdersUnresolvable | debug.py:127-196 | with this configuration, the order references of order items, payments and shipments can never be resolved |
| Reconciler.Basename | debug.py:337 | the file name is the part of the path after its last slash |
| Reconciler.RewriteRowsSucceed | debug.py:307-334 | when every parent is configured, a table's rows are rewritten one for one |
| Reconciler.RewriteRowsShape | debug.py:304-334 | one corrected row per original row, in order, each with the original's columns and its non-FK texts; the rewrite fails exactly when some row names an unconfigured parent |
| Reconciler.RewriteRowsHalt | debug.py:304-334 | the first row naming an unconfigured parent halts the table's rewrite, after the warnings of the earlier rows and those the failing row printed before its crash |
| Reconciler.EmptyTableSkipped | debug.py:294-300 | a table whose file is missing or empty writes no file and does not crash; its skip is reported after the missing-file warning, which only a missing file gives |
| Reconciler.TableStepHalt | debug.py:294-334 | a placeholder naming an unconfigured parent ends the program in the middle of a table: no file is written for it, and the warnings already printed by its earlier rows and by the failing row's earlier placeholders are kept |
| Reconciler.TableStepShape | debug.py:294-339 | a configured table with a readable file writes one file at its corrected path with as many rows as the original, or none when it has no rows |
| Reconciler.RewriteTablesFiles | debug.py:294-339 | the second pass over complete tables never crashes and writes exactly the expected files in order |
| Reconciler.Reconcile | debug.py:247-343 | the output directory is cleared exactly when every processed key is configured, its file readable and every SELECT answered; otherwise nothing is written and the run ends in a crash |
| Reconciler.ReconcileCompletes | debug.py:247-343 | a well-formed configuration with readable files and every SELECT answered runs to the end and writes one corrected file per table that has rows, in processing order |

## Left out

- Connecting to the database, dotenv credentials and closing the connection are not modelled. A refused connection is a boolean for `run_insertion_for_table` and ends the other programs before any work.
- Reading and writing CSV files is not modelled. `os.path`, `shutil.rmtree` and directory creation are left out too. A file is `Missing`, `Unreadable` (any other error while opening or decoding it) or its rows.
- A `None` field of a short CSV row is modelled as an absent key. Both read as NULL when loading and as blank when reconciling.
- The header of a corrected CSV is modelled as the set of the first row's keys. Their order, and `DictWriter`'s error for a later row with extra keys, are not modelled. `DictReader` gives a short first row every header key, with `None` for the missing cells; the model drops those fields, so its header can be smaller than the file's.
- The value-preparation `except` branch of the script's loop (main.py:107-109) is not modelled. `dict.get` on a CSV row cannot raise, so the branch is unreachable.
- A failing `SAVEPOINT` or `ROLLBACK TO SAVEPOINT` command is not modelled; the model assumes both always succeed.
- Sequence values consumed by rejected rows or by a rolled-back session are not modelled. The database generates every id (the INSERTs return it), and PostgreSQL does not give back a `nextval` that a failed or rolled-back INSERT used. So the "same database" of RowLoader.RejectedRowIsInvisible and the "starting state" of Session.SessionAtomicity hold for table contents, not for the ids generated later.
- `fetchone()` returning no row after a successful `INSERT … RETURNING` is not modelled; the model assumes an inserted row always yields its id.
- In the reconciler, a NULL id from the SELECT (`result[0]` being `None`) is modelled as "not found". The program caches `None` under the key value, which Pass 2 then treats as unresolved, so the observable effect is the same.
- Python's `int()` accepts surrounding whitespace and underscores; the model does not. Decimal.ParseInt accepts an optional sign followed by ASCII digits only.
- `str.isalnum` is Unicode-aware in Python; the model does not follow that. SqlText.SafeIdentifier treats only ASCII letters and digits as alphanumeric.
- The editor's SQL is built with `psycopg2.sql`. The model keeps the identifier and columns as data and does not model its escaping. Likewise, the NA test of pandas is modelled as a NULL value.
- The web application's column list (`get_table_columns`) and table list are inputs. The Streamlit interface, dashboards, figures and aggregate queries are presentation only. `standardize_country_name` relies on a foreign fuzzy-search library.
- Printed progress lines are not modelled. Only the warnings about individual rows (of a CSV file or of the record editor), about placeholders, and the reconciler's missing-file and skipped-table warnings are kept, as log entries; the editor's closing success and error lines are its counts, and its no-columns and no-data messages are its `NoColumns` and `NoData` outcomes.
- The reconciler's Shipping_Logistics foreign keys name `order_id` and `car_id`, while the script maps `order_item_id`. Each program's configuration is modelled as its own data, and the model does not assume the two agree.
- The scripts `alter.py` and `alter_inventory_dates.py` are not part of this model. They do random date generation, clock arithmetic and bulk updates.
- LoadConfig.PrefixRespectsParents: the parent ordering is proved for the reconciler's configuration, which the script's mapping follows; the script's mapping itself carries no foreign-key information.
