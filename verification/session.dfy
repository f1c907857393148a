/** The three drivers around the row loader: the command-line script that
    loads every table in one transaction, the web application's single-table
    run, and the web application's record editor. */
module Session {
  import opened Basics
  import opened SqlText
  import opened Rows
  import opened Sink
  import opened RowLoader

  /** One entry of the table mapping: the logical key, the CSV path, the SQL
      identifier (already quoted where it must be), the header-to-column
      mapping and the id column named in RETURNING. */
  datatype TableConfig = TableConfig(key: string, csvPath: string, sqlIdentifier: string, columns: ColumnMap, idColumn: string)

  /** The file system, as far as reading one table's CSV goes. */
  type Sources = string -> RowSource

  function LoadTable<S>(oracle: InsertOracle<S>, dialect: Dialect, sources: Sources, c: TableConfig, db: S): Result<Loaded<S>, ReadError>
  {
    InsertDataFromCsv(oracle, dialect, db, sources(c.csvPath), c.sqlIdentifier, c.columns, c.idColumn)
  }

  // ---------------------------------------------------------------------
  // The command-line script

  /** What the script reports for one table. */
  datatype TableReport =
    | SkippedMissing(key: string)
    | Finished(key: string, inserted: nat, attempted: nat)
    | Aborted(key: string)

  /** The loop over the table mapping: the database it leaves, the reports,
      the row warnings, and whether a table's error escaped the loop. */
  datatype TablesRun<S> = TablesRun(db: S, reports: seq<TableReport>, warnings: seq<RowWarning>, aborted: bool)

  /** Tables in mapping order; a missing file skips its table, any other
      error while reading a table ends the loop. */
  function RunTables<S>(oracle: InsertOracle<S>, sources: Sources, configs: seq<TableConfig>, db: S): TablesRun<S>
    decreases |configs|
  {
    if |configs| == 0 then TablesRun(db, [], [], false)
    else
      var c := configs[0];
      match LoadTable(oracle, CommandLine, sources, c, db)
      case Failure(FileNotFound) =>
        var rest := RunTables(oracle, sources, configs[1..], db);
        TablesRun(rest.db, [SkippedMissing(c.key)] + rest.reports, rest.warnings, rest.aborted)
      case Failure(ReadFailed) =>
        TablesRun(db, [Aborted(c.key)], [], true)
      case Success(l) =>
        var rest := RunTables(oracle, sources, configs[1..], l.db);
        TablesRun(rest.db, [Finished(c.key, |l.insertedIds|, l.total)] + rest.reports, l.warnings + rest.warnings, rest.aborted)
  }

  predicate SomeUnreadable(sources: Sources, configs: seq<TableConfig>)
  {
    exists i | 0 <= i < |configs| :: sources(configs[i].csvPath).Unreadable?
  }

  /** The loop ends early exactly when some file is unreadable. */
  lemma {:induction false} RunTablesAborts<S>(oracle: InsertOracle<S>, sources: Sources, configs: seq<TableConfig>, db: S)
    ensures RunTables(oracle, sources, configs, db).aborted <==> SomeUnreadable(sources, configs)
    decreases |configs|
  {
    if |configs| > 0 {
      var l := LoadTable(oracle, CommandLine, sources, configs[0], db);
      SomeUnreadableCons(sources, configs);
      if l.Success? || l.error == FileNotFound {
        RunTablesAborts(oracle, sources, configs[1..], if l.Success? then l.value.db else db);
      }
    }
  }

  /** An early end makes the unreadable table's report the last one;
      otherwise every table is reported. */
  lemma {:induction false} RunTablesReportCount<S>(oracle: InsertOracle<S>, sources: Sources, configs: seq<TableConfig>, db: S)
    ensures var r := RunTables(oracle, sources, configs, db);
      && |r.reports| <= |configs|
      && (!r.aborted ==> |r.reports| == |configs|)
      && (r.aborted ==> 0 < |r.reports| && r.reports[|r.reports| - 1].Aborted?)
    decreases |configs|
  {
    if |configs| > 0 {
      var r := RunTables(oracle, sources, configs, db);
      RunTablesHead(oracle, sources, configs, db);
      if !sources(configs[0].csvPath).Unreadable? {
        var next := DbAfter(oracle, sources, configs[0], db);
        var rest := RunTables(oracle, sources, configs[1..], next);
        RunTablesReportCount(oracle, sources, configs[1..], next);
        assert r.aborted == rest.aborted;
        if r.aborted {
          assert r.reports[|r.reports| - 1] == rest.reports[|rest.reports| - 1];
        }
      }
    }
  }

  lemma SomeUnreadableCons(sources: Sources, configs: seq<TableConfig>)
    requires |configs| > 0
    ensures SomeUnreadable(sources, configs) <==>
              sources(configs[0].csvPath).Unreadable? || SomeUnreadable(sources, configs[1..])
  {
    var tail := configs[1..];
    if SomeUnreadable(sources, configs) {
      var i :| 0 <= i < |configs| && sources(configs[i].csvPath).Unreadable?;
      if i > 0 {
        assert tail[i - 1] == configs[i];
      }
    }
    if SomeUnreadable(sources, tail) {
      var i :| 0 <= i < |tail| && sources(tail[i].csvPath).Unreadable?;
      assert configs[i + 1] == tail[i];
    }
  }

  /** A report fits its table: it carries the table's key, says skipped
      exactly when the file is missing and aborted exactly when it is
      unreadable, and finished with every row attempted otherwise. */
  predicate ReportFits(rep: TableReport, c: TableConfig, source: RowSource)
  {
    && rep.key == c.key
    && (rep.SkippedMissing? <==> source.Missing?)
    && (rep.Aborted? <==> source.Unreadable?)
    && (rep.Finished? ==> source.Rows? && rep.attempted == |source.rows| && rep.inserted <= rep.attempted)
  }

  /** The database the loop carries to the next table. */
  function DbAfter<S>(oracle: InsertOracle<S>, sources: Sources, c: TableConfig, db: S): S
  {
    var l := LoadTable(oracle, CommandLine, sources, c, db);
    if l.Success? then l.value.db else db
  }

  /** The first table's report fits it, and unless that table ends the loop
      the other reports are those of the rest of the mapping. */
  lemma RunTablesHead<S>(oracle: InsertOracle<S>, sources: Sources, configs: seq<TableConfig>, db: S)
    requires |configs| > 0
    ensures var r := RunTables(oracle, sources, configs, db);
      && |r.reports| > 0
      && ReportFits(r.reports[0], configs[0], sources(configs[0].csvPath))
      && (!sources(configs[0].csvPath).Unreadable? ==>
            r.reports[1..] == RunTables(oracle, sources, configs[1..], DbAfter(oracle, sources, configs[0], db)).reports)
      && (sources(configs[0].csvPath).Unreadable? ==> |r.reports| == 1)
  {
  }

  /** The reports follow mapping order, each fitting its table. */
  lemma {:induction false} RunTablesReportKinds<S>(oracle: InsertOracle<S>, sources: Sources, configs: seq<TableConfig>, db: S)
    ensures var r := RunTables(oracle, sources, configs, db);
      && |r.reports| <= |configs|
      && forall i | 0 <= i < |r.reports| :: ReportFits(r.reports[i], configs[i], sources(configs[i].csvPath))
    decreases |configs|
  {
    if |configs| > 0 {
      var r := RunTables(oracle, sources, configs, db);
      RunTablesHead(oracle, sources, configs, db);
      if !sources(configs[0].csvPath).Unreadable? {
        var tail := configs[1..];
        var rest := RunTables(oracle, sources, tail, DbAfter(oracle, sources, configs[0], db));
        RunTablesReportKinds(oracle, sources, tail, DbAfter(oracle, sources, configs[0], db));
        forall i | 0 <= i < |r.reports| ensures ReportFits(r.reports[i], configs[i], sources(configs[i].csvPath)) {
          if i > 0 {
            assert r.reports[i] == rest.reports[i - 1];
            assert configs[i] == tail[i - 1];
          }
        }
      }
    }
  }

  /** How the session ended: committed, or rolled back because a table's
      error escaped the loop or because the commit itself failed. */
  datatype RollbackCause = TableFailed(key: string) | CommitFailed
  datatype SessionEnd = Committed | RolledBack(cause: RollbackCause)

  /** The committed database, the loop's reports and warnings, how the
      session ended and the transaction calls it made on the connection. */
  datatype SessionResult<S> = SessionResult(committed: S, reports: seq<TableReport>, warnings: seq<RowWarning>,
                                            end: SessionEnd, txnLog: seq<TxnCommand>)

  /** `main` once the connection is open: one transaction for all tables,
      committed once at the end, rolled back on any escaping error, and the
      connection closed either way. `canCommit` says whether the server
      accepts the commit. */
  function RunSession<S>(oracle: InsertOracle<S>, sources: Sources, configs: seq<TableConfig>, db0: S,
                         canCommit: S -> bool): (r: SessionResult<S>)
    ensures r.end.Committed? <==> !SomeUnreadable(sources, configs) && canCommit(RunTables(oracle, sources, configs, db0).db)
    ensures r.end.Committed? ==> r.committed == RunTables(oracle, sources, configs, db0).db && r.txnLog == [Commit, Close]
    ensures r.end.RolledBack? ==> r.committed == db0
    ensures r.end == RolledBack(CommitFailed) ==> r.txnLog == [FailedCommit, Rollback, Close]
    ensures r.end.RolledBack? && r.end.cause.TableFailed? ==> r.txnLog == [Rollback, Close]
    ensures r.end == RolledBack(CommitFailed) ==> |r.reports| == |configs|
    ensures r.end.RolledBack? && r.end.cause.TableFailed? ==> SomeUnreadable(sources, configs)
  {
    RunTablesAborts(oracle, sources, configs, db0);
    RunTablesReportCount(oracle, sources, configs, db0);
    var run := RunTables(oracle, sources, configs, db0);
    var txn := Txn(db0, run.db);
    if run.aborted then
      SessionResult(RollbackTxn(txn).committed, run.reports, run.warnings,
                    RolledBack(TableFailed(run.reports[|run.reports| - 1].key)), [Rollback, Close])
    else if canCommit(run.db) then
      SessionResult(CommitTxn(txn).committed, run.reports, run.warnings, Committed, [Commit, Close])
    else
      SessionResult(RollbackTxn(txn).committed, run.reports, run.warnings, RolledBack(CommitFailed), [FailedCommit, Rollback, Close])
  }

  /** Number of commits that went through. */
  function CountCommits(log: seq<TxnCommand>): nat
  {
    |set k | 0 <= k < |log| && log[k] == Commit|
  }

  /** Number of calls to commit, whether they went through or raised. */
  function CountCommitCalls(log: seq<TxnCommand>): nat
  {
    |set k | 0 <= k < |log| && (log[k] == Commit || log[k] == FailedCommit)|
  }

  /** All or nothing: the session calls commit at most once and commits at
      most once, a commit that raises is followed by a rollback, and what is
      committed is either the starting database or the effect of every
      table the loop visited. */
  lemma SessionAtomicity<S>(oracle: InsertOracle<S>, sources: Sources, configs: seq<TableConfig>, db0: S, canCommit: S -> bool)
    ensures var r := RunSession(oracle, sources, configs, db0, canCommit);
      && (CountCommits(r.txnLog) == 1 <==> r.end.Committed?)
      && CountCommits(r.txnLog) <= CountCommitCalls(r.txnLog) <= 1
      && (forall k | 0 <= k < |r.txnLog| && r.txnLog[k] == FailedCommit :: k + 1 < |r.txnLog| && r.txnLog[k + 1] == Rollback)
      && (r.committed == db0 || r.committed == RunTables(oracle, sources, configs, db0).db)
      && r.txnLog[|r.txnLog| - 1] == Close
  {
    SessionLogCounts();
  }

  /** The counts of the three logs a session can leave. */
  lemma SessionLogCounts()
    ensures CountCommits([Commit, Close]) == 1 && CountCommitCalls([Commit, Close]) == 1
    ensures CountCommits([FailedCommit, Rollback, Close]) == 0 && CountCommitCalls([FailedCommit, Rollback, Close]) == 1
    ensures CountCommits([Rollback, Close]) == 0 && CountCommitCalls([Rollback, Close]) == 0
  {
    var ok: seq<TxnCommand> := [Commit, Close];
    var failed: seq<TxnCommand> := [FailedCommit, Rollback, Close];
    var aborted: seq<TxnCommand> := [Rollback, Close];
    assert (set k | 0 <= k < |ok| && ok[k] == Commit) == {0};
    assert (set k | 0 <= k < |ok| && (ok[k] == Commit || ok[k] == FailedCommit)) == {0};
    assert (set k | 0 <= k < |failed| && failed[k] == Commit) == {};
    assert (set k | 0 <= k < |failed| && (failed[k] == Commit || failed[k] == FailedCommit)) == {0};
    assert (set k | 0 <= k < |aborted| && aborted[k] == Commit) == {};
    assert (set k | 0 <= k < |aborted| && (aborted[k] == Commit || aborted[k] == FailedCommit)) == {};
  }

  /** Missing files are harmless: when every file is missing or readable and
      the commit succeeds, the session commits, reporting every table. */
  lemma MissingFilesDoNotAbort<S>(oracle: InsertOracle<S>, sources: Sources, configs: seq<TableConfig>, db0: S, canCommit: S -> bool)
    requires forall i | 0 <= i < |configs| :: !sources(configs[i].csvPath).Unreadable?
    requires canCommit(RunTables(oracle, sources, configs, db0).db)
    ensures RunSession(oracle, sources, configs, db0, canCommit).end.Committed?
    ensures |RunSession(oracle, sources, configs, db0, canCommit).reports| == |configs|
  {
    RunTablesAborts(oracle, sources, configs, db0);
    RunTablesReportCount(oracle, sources, configs, db0);
  }

  /** With every file missing the session commits the database unchanged. */
  lemma {:induction false} AllMissingIsNoOp<S>(oracle: InsertOracle<S>, sources: Sources, configs: seq<TableConfig>, db0: S)
    requires forall i | 0 <= i < |configs| :: sources(configs[i].csvPath).Missing?
    ensures RunTables(oracle, sources, configs, db0).db == db0
    ensures RunTables(oracle, sources, configs, db0).warnings == []
    decreases |configs|
  {
    if |configs| > 0 {
      var tail := configs[1..];
      assert forall i | 0 <= i < |tail| :: tail[i] == configs[i + 1];
      AllMissingIsNoOp(oracle, sources, tail, db0);
    }
  }

  // ---------------------------------------------------------------------
  // The web application's single-table run

  /** What `run_insertion_for_table` shows the user. */
  datatype AppOutcome =
    | NoConnection
    | NoConfig(key: string)
    | Done(inserted: nat, attempted: nat)
    | DataFileMissing
    | Critical

  /** The outcome, the shared connection's transaction afterwards, the
      transaction calls made and the row warnings shown. */
  datatype AppRun<S> = AppRun(outcome: AppOutcome, txn: Txn<S>, txnLog: seq<TxnCommand>, warnings: seq<RowWarning>)

  /** `run_insertion_for_table`: look the key up, load that one table, commit
      on success; a missing file is only reported; any other error, a
      commit that raises included, rolls back. */
  function RunInsertionForTable<S>(oracle: InsertOracle<S>, sources: Sources, configs: map<string, TableConfig>,
                                   key: string, connected: bool, txn: Txn<S>, canCommit: S -> bool): (r: AppRun<S>)
    ensures !connected ==> r == AppRun(NoConnection, txn, [], [])
    ensures connected && key !in configs ==> r == AppRun(NoConfig(key), txn, [], [])
    ensures r.outcome == DataFileMissing <==> connected && key in configs && sources(configs[key].csvPath).Missing?
    ensures r.outcome == DataFileMissing ==> r.txn == txn && r.txnLog == []
    ensures r.outcome.Done? ==> connected && key in configs && sources(configs[key].csvPath).Rows?
    ensures connected && key in configs && sources(configs[key].csvPath).Rows? ==>
              (r.outcome.Done? <==> canCommit(LoadTable(oracle, WebApp, sources, configs[key], txn.pending).value.db))
    ensures connected && key in configs && sources(configs[key].csvPath).Unreadable? ==> r.outcome.Critical?
    ensures r.outcome.Done? ==> r.txnLog == [Commit] && r.txn.committed == r.txn.pending
                                && r.outcome.attempted == |sources(configs[key].csvPath).rows|
                                && r.outcome.inserted <= r.outcome.attempted
    ensures r.outcome.Critical? ==> r.txn == RollbackTxn(txn)
    ensures r.outcome.Critical? && sources(configs[key].csvPath).Unreadable? ==> r.warnings == []
    ensures connected && key in configs && sources(configs[key].csvPath).Rows? ==>
              r.warnings == LoadTable(oracle, WebApp, sources, configs[key], txn.pending).value.warnings
    ensures r.outcome.Critical? && sources(configs[key].csvPath).Unreadable? ==> r.txnLog == [Rollback]
    ensures r.outcome.Critical? && sources(configs[key].csvPath).Rows? ==> r.txnLog == [FailedCommit, Rollback]
  {
    if !connected then AppRun(NoConnection, txn, [], [])
    else if key !in configs then AppRun(NoConfig(key), txn, [], [])
    else
      match LoadTable(oracle, WebApp, sources, configs[key], txn.pending)
      case Failure(FileNotFound) => AppRun(DataFileMissing, txn, [], [])
      case Failure(ReadFailed) => AppRun(Critical, RollbackTxn(txn), [Rollback], [])
      case Success(l) =>
        if canCommit(l.db) then AppRun(Done(|l.insertedIds|, l.total), CommitTxn(Txn(txn.committed, l.db)), [Commit], l.warnings)
        else AppRun(Critical, RollbackTxn(txn), [FailedCommit, Rollback], l.warnings)
  }

  /** No writes are left hanging on the shared connection: if nothing was
      pending before a run, nothing is pending after it. */
  lemma RunInsertionKeepsTxnSettled<S>(oracle: InsertOracle<S>, sources: Sources, configs: map<string, TableConfig>,
                                       key: string, connected: bool, txn: Txn<S>, canCommit: S -> bool)
    requires txn.committed == txn.pending
    ensures var r := RunInsertionForTable(oracle, sources, configs, key, connected, txn, canCommit);
      && r.txn.committed == r.txn.pending
      && (r.outcome.Done? || r.txn == txn)
  {
  }

  /** A finished run commits exactly the table's rows on top of what was
      committed before; a run whose commit raises keeps what was committed
      before, yet the rejected rows' warnings have already been shown. */
  lemma RunInsertionCommitsTable<S>(oracle: InsertOracle<S>, sources: Sources, configs: map<string, TableConfig>,
                                    key: string, txn: Txn<S>, canCommit: S -> bool)
    requires key in configs
    ensures var r := RunInsertionForTable(oracle, sources, configs, key, true, txn, canCommit);
      r.outcome.Done? ==>
        && LoadTable(oracle, WebApp, sources, configs[key], txn.pending).Success?
        && r.txn.committed == LoadTable(oracle, WebApp, sources, configs[key], txn.pending).value.db
        && r.warnings == LoadTable(oracle, WebApp, sources, configs[key], txn.pending).value.warnings
    ensures var r := RunInsertionForTable(oracle, sources, configs, key, true, txn, canCommit);
      r.outcome.Critical? && sources(configs[key].csvPath).Rows? ==>
        && r.txnLog == [FailedCommit, Rollback]
        && r.txn.committed == txn.committed
        && r.warnings == LoadTable(oracle, WebApp, sources, configs[key], txn.pending).value.warnings
  {
  }

  // ---------------------------------------------------------------------
  // The web application's record editor

  /** The editor's statement: table and columns quoted as identifiers, no
      RETURNING clause. */
  function EditorStatement(table: string, columns: seq<string>): (st: InsertStatement)
    ensures st.target == Quote(table) && st.columns == columns && st.returning == None
  {
    InsertStatement(Quote(table), columns, None)
  }

  /** The warning shown for a record the database rejected: the record and
      the error it raised. */
  datatype EditorWarning = EditorWarning(record: Record, error: Outcome)

  /** The editor loop after some records: database, successes, failures, the
      warnings shown, the database's answer to each record and the commands
      issued. */
  datatype EditorProgress<S> = EditorProgress(db: S, success: nat, errors: nat, warnings: seq<EditorWarning>,
                                              outcomes: seq<Outcome>, commands: seq<Command>)

  function EditorPrefix<S>(oracle: InsertOracle<S>, st: InsertStatement, db0: S, records: seq<Record>, n: nat): EditorProgress<S>
    requires n <= |records|
    decreases n
  {
    if n == 0 then EditorProgress(db0, 0, 0, [], [], [])
    else
      var p := EditorPrefix(oracle, st, db0, records, n - 1);
      var vals := RecordValues(records[n - 1], st.columns);
      var sp := EditorSavepointName(n - 1);
      var resp := oracle(p.db, st, vals);
      var issued := p.commands + RowCommands(sp, st, vals, !resp.outcome.Inserted?);
      var outcomes := p.outcomes + [resp.outcome];
      if resp.outcome.Inserted? then EditorProgress(resp.after, p.success + 1, p.errors, p.warnings, outcomes, issued)
      else EditorProgress(p.db, p.success, p.errors + 1, p.warnings + [EditorWarning(records[n - 1], resp.outcome)], outcomes, issued)
  }

  /** The records whose answer is an error, each with that error, in order. */
  function Rejections(records: seq<Record>, outcomes: seq<Outcome>): (ws: seq<EditorWarning>)
    requires |records| == |outcomes|
    decreases |records|
  {
    if |records| == 0 then []
    else
      var k := |records| - 1;
      Rejections(records[..k], outcomes[..k]) + (if outcomes[k].Inserted? then [] else [EditorWarning(records[k], outcomes[k])])
  }

  /** The warnings are the rejected records with their errors, in record
      order, one per error counted. */
  lemma {:induction false} EditorPrefixWarnings<S>(oracle: InsertOracle<S>, st: InsertStatement, db0: S, records: seq<Record>, n: nat)
    requires n <= |records|
    ensures var p := EditorPrefix(oracle, st, db0, records, n);
      && |p.outcomes| == n
      && p.warnings == Rejections(records[..n], p.outcomes)
      && |p.warnings| == p.errors
    decreases n
  {
    if n > 0 {
      EditorPrefixWarnings(oracle, st, db0, records, n - 1);
      var q := EditorPrefix(oracle, st, db0, records, n - 1);
      var p := EditorPrefix(oracle, st, db0, records, n);
      assert records[..n][..n - 1] == records[..n - 1];
      assert p.outcomes[..n - 1] == q.outcomes;
      assert records[..n][n - 1] == records[n - 1];
    }
  }

  /** Every record is counted once, as a success or as an error, and only
      successful records change the database. */
  lemma {:induction false} EditorAccounting<S>(oracle: InsertOracle<S>, st: InsertStatement, db0: S, records: seq<Record>, n: nat)
    requires n <= |records|
    ensures var p := EditorPrefix(oracle, st, db0, records, n);
      && p.success + p.errors == n
      && |p.commands| == 2 * n + p.errors
      && (p.success == 0 ==> p.db == db0)
    decreases n
  {
    if n > 0 {
      EditorAccounting(oracle, st, db0, records, n - 1);
    }
  }

  /** The savepoint names the editor's first `n` records use. */
  function EditorRowSavepoints(n: nat): (names: seq<string>)
    ensures |names| == n
    ensures forall i | 0 <= i < n :: names[i] == EditorSavepointName(i)
  {
    seq(n, i requires 0 <= i < n => EditorSavepointName(i))
  }

  /** Each record opens exactly one savepoint, record `i` the one named
      after `i`, in record order. */
  lemma {:induction false} EditorPrefixSavepoints<S>(oracle: InsertOracle<S>, st: InsertStatement, db0: S, records: seq<Record>, n: nat)
    requires n <= |records|
    ensures SavepointNames(EditorPrefix(oracle, st, db0, records, n).commands) == EditorRowSavepoints(n)
    decreases n
  {
    if n > 0 {
      EditorPrefixSavepoints(oracle, st, db0, records, n - 1);
      var q := EditorPrefix(oracle, st, db0, records, n - 1);
      var sp := EditorSavepointName(n - 1);
      var vals := RecordValues(records[n - 1], st.columns);
      var failed := !oracle(q.db, st, vals).outcome.Inserted?;
      RowCommandsSavepoints(sp, st, vals, failed);
      SavepointNamesAppend(q.commands, RowCommands(sp, st, vals, failed));
      assert EditorRowSavepoints(n) == EditorRowSavepoints(n - 1) + [sp];
    }
  }

  /** Every rollback the editor issues names the savepoint opened two
      commands earlier, with the failed INSERT in between. */
  lemma {:induction false} EditorPrefixRollbacksPaired<S>(oracle: InsertOracle<S>, st: InsertStatement, db0: S, records: seq<Record>, n: nat)
    requires n <= |records|
    ensures RollbacksPaired(EditorPrefix(oracle, st, db0, records, n).commands)
    decreases n
  {
    if n > 0 {
      EditorPrefixRollbacksPaired(oracle, st, db0, records, n - 1);
      var q := EditorPrefix(oracle, st, db0, records, n - 1);
      var vals := RecordValues(records[n - 1], st.columns);
      RollbacksPairedAppend(q.commands, EditorSavepointName(n - 1), st, vals, !oracle(q.db, st, vals).outcome.Inserted?);
    }
  }

  datatype EditorOutcome =
    | NoColumns
    | NoData
    | Saved(success: nat, errors: nat)
    | SaveFailed

  datatype EditorRun<S> = EditorRun(outcome: EditorOutcome, txn: Txn<S>, txnLog: seq<TxnCommand>, warnings: seq<EditorWarning>,
                                    commands: seq<Command>)

  /** Saving the editor's rows: nothing without columns or without a filled
      row; otherwise one savepoint per filled row, then one call to commit,
      followed by a rollback if that call raises. */
  function SaveEditorRecords<S>(oracle: InsertOracle<S>, table: string, columns: seq<string>, edited: seq<Record>,
                                txn: Txn<S>, canCommit: S -> bool): (r: EditorRun<S>)
    ensures |columns| == 0 <==> r.outcome == NoColumns
    ensures r.outcome == NoData <==> |columns| > 0 && FilledRecords(edited, columns) == []
    ensures r.outcome.NoColumns? || r.outcome.NoData? ==> r.txn == txn && r.txnLog == [] && r.commands == [] && r.warnings == []
    ensures r.outcome.Saved? || r.outcome.SaveFailed? ==>
              && r.commands == EditorPrefix(oracle, EditorStatement(table, columns), txn.pending,
                                            FilledRecords(edited, columns), |FilledRecords(edited, columns)|).commands
              && r.warnings == EditorPrefix(oracle, EditorStatement(table, columns), txn.pending,
                                            FilledRecords(edited, columns), |FilledRecords(edited, columns)|).warnings
    ensures r.outcome.Saved? ==> r.outcome.success + r.outcome.errors == |FilledRecords(edited, columns)|
                                 && |r.warnings| == r.outcome.errors
                                 && r.txnLog == [Commit] && r.txn.committed == r.txn.pending
                                 && r.txn.committed == EditorPrefix(oracle, EditorStatement(table, columns), txn.pending,
                                                                    FilledRecords(edited, columns), |FilledRecords(edited, columns)|).db
    ensures r.outcome.SaveFailed? ==> r.txn == RollbackTxn(txn) && r.txnLog == [FailedCommit, Rollback]
  {
    if |columns| == 0 then EditorRun(NoColumns, txn, [], [], [])
    else
      var records := FilledRecords(edited, columns);
      if |records| == 0 then EditorRun(NoData, txn, [], [], [])
      else
        var st := EditorStatement(table, columns);
        var p := EditorPrefix(oracle, st, txn.pending, records, |records|);
        EditorAccounting(oracle, st, txn.pending, records, |records|);
        EditorPrefixWarnings(oracle, st, txn.pending, records, |records|);
        if canCommit(p.db) then EditorRun(Saved(p.success, p.errors), CommitTxn(Txn(txn.committed, p.db)), [Commit], p.warnings, p.commands)
        else EditorRun(SaveFailed, RollbackTxn(txn), [FailedCommit, Rollback], p.warnings, p.commands)
  }

  /** A save that reaches the database opens one savepoint per filled row,
      row `i` the one named after `i`, and rolls back only to the savepoint
      of the row that failed. */
  lemma EditorSavepoints<S>(oracle: InsertOracle<S>, table: string, columns: seq<string>, edited: seq<Record>,
                            txn: Txn<S>, canCommit: S -> bool)
    ensures var r := SaveEditorRecords(oracle, table, columns, edited, txn, canCommit);
      r.outcome.Saved? || r.outcome.SaveFailed? ==>
        && SavepointNames(r.commands) == EditorRowSavepoints(|FilledRecords(edited, columns)|)
        && RollbacksPaired(r.commands)
  {
    var records := FilledRecords(edited, columns);
    EditorPrefixSavepoints(oracle, EditorStatement(table, columns), txn.pending, records, |records|);
    EditorPrefixRollbacksPaired(oracle, EditorStatement(table, columns), txn.pending, records, |records|);
  }

  /** The records the warnings name, in order. */
  function WarnedRecords(ws: seq<EditorWarning>): (rs: seq<Record>)
    ensures |rs| == |ws|
    ensures forall k | 0 <= k < |ws| :: rs[k] == ws[k].record
  {
    seq(|ws|, k requires 0 <= k < |ws| => ws[k].record)
  }

  /** When every filled row is rejected, saving commits nothing new and
      shows one warning for every filled row, in table order. */
  lemma EditorAllRejected<S>(oracle: InsertOracle<S>, table: string, columns: seq<string>, edited: seq<Record>,
                             txn: Txn<S>, canCommit: S -> bool)
    requires txn.committed == txn.pending
    requires forall s: S, rec: Record :: !oracle(s, EditorStatement(table, columns), RecordValues(rec, columns)).outcome.Inserted?
    ensures var r := SaveEditorRecords(oracle, table, columns, edited, txn, canCommit);
      && r.txn == txn
      && (r.outcome.Saved? ==> r.outcome.success == 0)
      && (r.outcome.Saved? || r.outcome.SaveFailed? ==> WarnedRecords(r.warnings) == FilledRecords(edited, columns))
  {
    var records := FilledRecords(edited, columns);
    if |columns| > 0 && |records| > 0 {
      EditorNoneInserted(oracle, EditorStatement(table, columns), txn.pending, records, |records|);
    }
  }

  lemma {:induction false} EditorNoneInserted<S>(oracle: InsertOracle<S>, st: InsertStatement, db0: S, records: seq<Record>, n: nat)
    requires n <= |records|
    requires forall s: S, rec: Record :: !oracle(s, st, RecordValues(rec, st.columns)).outcome.Inserted?
    ensures EditorPrefix(oracle, st, db0, records, n).success == 0
    ensures EditorPrefix(oracle, st, db0, records, n).db == db0
    ensures WarnedRecords(EditorPrefix(oracle, st, db0, records, n).warnings) == records[..n]
    decreases n
  {
    if n > 0 {
      EditorNoneInserted(oracle, st, db0, records, n - 1);
      var q := EditorPrefix(oracle, st, db0, records, n - 1);
      var p := EditorPrefix(oracle, st, db0, records, n);
      assert p.warnings == q.warnings + [EditorWarning(records[n - 1], oracle(db0, st, RecordValues(records[n - 1], st.columns)).outcome)];
      assert records[..n] == records[..n - 1] + [records[n - 1]];
    }
  }
}
