/** Loading one CSV file into one table with per-row fault isolation: every
    row gets its own savepoint, a failing row is rolled back to it and
    classified, and the loop carries on with the next row. */
module RowLoader {
  import opened Basics
  import opened SqlText
  import opened Rows
  import opened Sink

  /** Which program runs the loop. The command-line script names a row's
      savepoint after the table and the row; the web application after the
      row only. */
  datatype Dialect = CommandLine | WebApp

  function RowSavepoint(d: Dialect, table: string, i: nat): string
  {
    match d
    case CommandLine => CsvSavepointName(table, i)
    case WebApp => AppSavepointName(i)
  }

  /** Either way, a row's savepoint is a plain SQL name of its own. */
  lemma RowSavepointProperties(d: Dialect, table: string, i: nat, j: nat)
    ensures IsPlainName(RowSavepoint(d, table, i))
    ensures i != j ==> RowSavepoint(d, table, i) != RowSavepoint(d, table, j)
  {
    CsvSavepointNameProperties(table, i, j);
    AppSavepointNameProperties(i, j);
  }

  /** The INSERT built once per table: the mapped columns in mapping order,
      returning the table's id column. */
  function CsvInsertStatement(table: string, m: ColumnMap, idColumn: string): (st: InsertStatement)
    ensures st.target == table && st.returning == Some(idColumn)
    ensures |st.columns| == |m|
    ensures forall j | 0 <= j < |m| :: st.columns[j] == m[j].column
  {
    InsertStatement(table, Columns(m), Some(idColumn))
  }

  /** The rendered INSERT of either loader carries one parameter marker per
      mapped column, so each row's value tuple, one value per mapped header,
      fills it exactly; and its column list reads back as the mapped columns
      in map order. */
  lemma CsvStatementRendering(table: string, m: ColumnMap, idColumn: string, row: Row)
    requires NoMarker(table) && NoMarker(idColumn)
    requires forall j | 0 <= j < |m| :: NoMarker(m[j].column) && '"' !in m[j].column
    ensures var st := CsvInsertStatement(table, m, idColumn);
            && Markers(MainInsertSql(st.target, st.columns, idColumn)) == |Normalise(row, Headers(m))|
            && Markers(AppInsertSql(st.target, st.columns, idColumn)) == |Normalise(row, Headers(m))|
            && ParseColumnList(ColumnList(st.columns)) == Some(Columns(m))
  {
    var st := CsvInsertStatement(table, m, idColumn);
    InsertSqlMarkers(st.target, st.columns, idColumn);
    ColumnListRoundTrip(st.columns);
  }

  /** What stays fixed while one table's rows are loaded. */
  datatype TableLoad = TableLoad(dialect: Dialect, table: string, statement: InsertStatement, headers: seq<string>)

  /** A warning printed for a skipped row. */
  datatype RowWarning = RowWarning(table: string, row: Row, kind: FailureKind)

  /** The loop's state after some rows: the database, the generated ids, the
      warnings, the sink's answer to each row and the commands issued. */
  datatype Progress<S> = Progress(db: S, ids: seq<int>, warnings: seq<RowWarning>, outcomes: seq<Outcome>, commands: seq<Command>)

  /** One iteration: savepoint, INSERT, and on failure a rollback to the
      savepoint, which restores the database state from before the row. */
  function LoadRow<S>(oracle: InsertOracle<S>, job: TableLoad, p: Progress<S>, i: nat, row: Row): Progress<S>
  {
    var values := Normalise(row, job.headers);
    var sp := RowSavepoint(job.dialect, job.table, i);
    var resp := oracle(p.db, job.statement, values);
    var issued := p.commands + [Savepoint(sp), Execute(job.statement, values)];
    if resp.outcome.Inserted? then
      Progress(resp.after, p.ids + [resp.outcome.id], p.warnings, p.outcomes + [resp.outcome], issued)
    else
      Progress(p.db, p.ids, p.warnings + [RowWarning(job.table, row, Classify(resp.outcome))],
               p.outcomes + [resp.outcome], issued + [RollbackTo(sp)])
  }

  /** The loop after its first `n` rows. */
  function LoadPrefix<S>(oracle: InsertOracle<S>, job: TableLoad, db0: S, rows: seq<Row>, n: nat): Progress<S>
    requires n <= |rows|
    decreases n
  {
    if n == 0 then Progress(db0, [], [], [], [])
    else LoadRow(oracle, job, LoadPrefix(oracle, job, db0, rows, n - 1), n - 1, rows[n - 1])
  }

  /** The generated ids among the sink's answers, in order. */
  function InsertedIds(os: seq<Outcome>): seq<int>
    decreases |os|
  {
    if |os| == 0 then []
    else InsertedIds(os[..|os| - 1]) + (if os[|os| - 1].Inserted? then [os[|os| - 1].id] else [])
  }

  /** The classification of the failed answers, in order. */
  function FailureKinds(os: seq<Outcome>): seq<FailureKind>
    decreases |os|
  {
    if |os| == 0 then []
    else FailureKinds(os[..|os| - 1]) + (if os[|os| - 1].Inserted? then [] else [Classify(os[|os| - 1])])
  }

  function Kinds(ws: seq<RowWarning>): seq<FailureKind>
  {
    seq(|ws|, k requires 0 <= k < |ws| => ws[k].kind)
  }

  /** Every row is answered once and yields either an id or a warning,
      never both and never neither; a rejected row costs one extra command,
      its rollback. */
  lemma {:induction false} PrefixCounts<S>(oracle: InsertOracle<S>, job: TableLoad, db0: S, rows: seq<Row>, n: nat)
    requires n <= |rows|
    ensures var p := LoadPrefix(oracle, job, db0, rows, n);
      && |p.outcomes| == n
      && |p.ids| + |p.warnings| == n
      && |p.commands| == 2 * n + |p.warnings|
    decreases n
  {
    if n > 0 {
      PrefixCounts(oracle, job, db0, rows, n - 1);
    }
  }

  /** The ids are those of the successful answers, in row order. */
  lemma {:induction false} PrefixIds<S>(oracle: InsertOracle<S>, job: TableLoad, db0: S, rows: seq<Row>, n: nat)
    requires n <= |rows|
    ensures LoadPrefix(oracle, job, db0, rows, n).ids == InsertedIds(LoadPrefix(oracle, job, db0, rows, n).outcomes)
    decreases n
  {
    if n > 0 {
      PrefixIds(oracle, job, db0, rows, n - 1);
      var q := LoadPrefix(oracle, job, db0, rows, n - 1);
      var p := LoadPrefix(oracle, job, db0, rows, n);
      assert p.outcomes[..|p.outcomes| - 1] == q.outcomes;
    }
  }

  /** What one row appends to the answers and the warnings. */
  lemma LoadRowStep<S>(oracle: InsertOracle<S>, job: TableLoad, q: Progress<S>, i: nat, row: Row)
    ensures var p := LoadRow(oracle, job, q, i, row);
      var o := oracle(q.db, job.statement, Normalise(row, job.headers)).outcome;
      && p.outcomes == q.outcomes + [o]
      && p.warnings == q.warnings + (if o.Inserted? then [] else [RowWarning(job.table, row, Classify(o))])
      && p.commands == q.commands + RowCommands(RowSavepoint(job.dialect, job.table, i), job.statement,
                                                Normalise(row, job.headers), !o.Inserted?)
  {
  }

  /** The commands one row issues: its savepoint, its INSERT and, when the
      INSERT failed, the rollback to the savepoint. */
  function RowCommands(sp: string, st: InsertStatement, values: seq<Value>, failed: bool): seq<Command>
  {
    [Savepoint(sp), Execute(st, values)] + (if failed then [RollbackTo(sp)] else [])
  }

  /** The warnings classify the failed answers, in row order. */
  lemma {:induction false} PrefixWarnings<S>(oracle: InsertOracle<S>, job: TableLoad, db0: S, rows: seq<Row>, n: nat)
    requires n <= |rows|
    ensures var p := LoadPrefix(oracle, job, db0, rows, n);
      Kinds(p.warnings) == FailureKinds(p.outcomes)
    decreases n
  {
    if n > 0 {
      PrefixWarnings(oracle, job, db0, rows, n - 1);
      var q := LoadPrefix(oracle, job, db0, rows, n - 1);
      LoadRowStep(oracle, job, q, n - 1, rows[n - 1]);
      var o := oracle(q.db, job.statement, Normalise(rows[n - 1], job.headers)).outcome;
      FailureKindsSnoc(q.outcomes, o);
      if !o.Inserted? {
        KindsSnoc(q.warnings, RowWarning(job.table, rows[n - 1], Classify(o)));
      }
    }
  }

  /** Every warning names the table being loaded. */
  lemma {:induction false} PrefixWarningTables<S>(oracle: InsertOracle<S>, job: TableLoad, db0: S, rows: seq<Row>, n: nat)
    requires n <= |rows|
    ensures forall w | w in LoadPrefix(oracle, job, db0, rows, n).warnings :: w.table == job.table
    decreases n
  {
    if n > 0 {
      PrefixWarningTables(oracle, job, db0, rows, n - 1);
      LoadRowStep(oracle, job, LoadPrefix(oracle, job, db0, rows, n - 1), n - 1, rows[n - 1]);
    }
  }

  lemma KindsSnoc(ws: seq<RowWarning>, w: RowWarning)
    ensures Kinds(ws + [w]) == Kinds(ws) + [w.kind]
  {
  }

  lemma FailureKindsSnoc(os: seq<Outcome>, o: Outcome)
    ensures FailureKinds(os + [o]) == FailureKinds(os) + (if o.Inserted? then [] else [Classify(o)])
  {
    assert (os + [o])[..|os|] == os;
  }

  /** Later rows only append: the answers, ids, warnings and commands after
      `m` rows are prefixes of those after `n >= m` rows. */
  lemma {:induction false} PrefixExtends<S>(oracle: InsertOracle<S>, job: TableLoad, db0: S, rows: seq<Row>, m: nat, n: nat)
    requires m <= n <= |rows|
    ensures var pm := LoadPrefix(oracle, job, db0, rows, m);
      var pn := LoadPrefix(oracle, job, db0, rows, n);
      && pm.outcomes <= pn.outcomes
      && pm.ids <= pn.ids
      && pm.warnings <= pn.warnings
      && pm.commands <= pn.commands
    decreases n - m
  {
    if m < n {
      PrefixExtends(oracle, job, db0, rows, m, n - 1);
    }
  }

  /** Row `i` is tried with its own parameter tuple against the database
      state that the rows before it left. */
  lemma RowSeesPriorState<S>(oracle: InsertOracle<S>, job: TableLoad, db0: S, rows: seq<Row>, i: nat, n: nat)
    requires i < n <= |rows|
    ensures |LoadPrefix(oracle, job, db0, rows, n).outcomes| == n
    ensures LoadPrefix(oracle, job, db0, rows, n).outcomes[i]
         == oracle(LoadPrefix(oracle, job, db0, rows, i).db, job.statement, Normalise(rows[i], job.headers)).outcome
  {
    var pi := LoadPrefix(oracle, job, db0, rows, i);
    var p1 := LoadPrefix(oracle, job, db0, rows, i + 1);
    var pn := LoadPrefix(oracle, job, db0, rows, n);
    PrefixCounts(oracle, job, db0, rows, i);
    PrefixCounts(oracle, job, db0, rows, n);
    var o := oracle(pi.db, job.statement, Normalise(rows[i], job.headers)).outcome;
    assert p1.outcomes == pi.outcomes + [o];
    PrefixExtends(oracle, job, db0, rows, i + 1, n);
    assert pn.outcomes[i] == p1.outcomes[i];
  }

  /** Fault isolation of one row: after a failure the database is the
      snapshot from before the row and the ids are unchanged; after a
      success the database is the one the INSERT produced. */
  lemma RowFaultIsolation<S>(oracle: InsertOracle<S>, job: TableLoad, db0: S, rows: seq<Row>, i: nat)
    requires i < |rows|
    ensures var before := LoadPrefix(oracle, job, db0, rows, i);
      var after := LoadPrefix(oracle, job, db0, rows, i + 1);
      var resp := oracle(before.db, job.statement, Normalise(rows[i], job.headers));
      && (!resp.outcome.Inserted? ==> after.db == before.db && after.ids == before.ids && |after.warnings| == |before.warnings| + 1)
      && (resp.outcome.Inserted? ==> after.db == resp.after && after.ids == before.ids + [resp.outcome.id] && after.warnings == before.warnings)
  {
  }

  /** Names of the savepoints opened, in order. */
  function SavepointNames(cs: seq<Command>): seq<string>
    decreases |cs|
  {
    if |cs| == 0 then []
    else SavepointNames(cs[..|cs| - 1]) + (if cs[|cs| - 1].Savepoint? then [cs[|cs| - 1].name] else [])
  }

  lemma {:induction false} SavepointNamesAppend(a: seq<Command>, b: seq<Command>)
    ensures SavepointNames(a + b) == SavepointNames(a) + SavepointNames(b)
    decreases |b|
  {
    if |b| == 0 {
      assert a + b == a;
    } else {
      assert (a + b)[..|a + b| - 1] == a + b[..|b| - 1];
      SavepointNamesAppend(a, b[..|b| - 1]);
    }
  }

  /** A row opens exactly its own savepoint. */
  lemma RowCommandsSavepoints(sp: string, st: InsertStatement, values: seq<Value>, failed: bool)
    ensures SavepointNames(RowCommands(sp, st, values, failed)) == [sp]
  {
    var two: seq<Command> := [Savepoint(sp), Execute(st, values)];
    assert two[..1] == [Savepoint(sp)];
    assert SavepointNames([Savepoint(sp)]) == [sp];
    assert SavepointNames(two) == [sp];
    if failed {
      SavepointNamesAppend(two, [RollbackTo(sp)]);
      assert SavepointNames([RollbackTo(sp)]) == [];
    } else {
      assert RowCommands(sp, st, values, failed) == two;
    }
  }

  /** The savepoint names the loop's first `n` rows use. */
  function RowSavepoints(job: TableLoad, n: nat): (names: seq<string>)
    ensures |names| == n
    ensures forall i | 0 <= i < n :: names[i] == RowSavepoint(job.dialect, job.table, i)
  {
    seq(n, i requires 0 <= i < n => RowSavepoint(job.dialect, job.table, i))
  }

  /** Each row opens exactly one savepoint, row `i` the one named after `i`,
      in row order. */
  lemma {:induction false} PrefixSavepoints<S>(oracle: InsertOracle<S>, job: TableLoad, db0: S, rows: seq<Row>, n: nat)
    requires n <= |rows|
    ensures SavepointNames(LoadPrefix(oracle, job, db0, rows, n).commands) == RowSavepoints(job, n)
    decreases n
  {
    if n > 0 {
      PrefixSavepoints(oracle, job, db0, rows, n - 1);
      var q := LoadPrefix(oracle, job, db0, rows, n - 1);
      LoadRowStep(oracle, job, q, n - 1, rows[n - 1]);
      var sp := RowSavepoint(job.dialect, job.table, n - 1);
      var o := oracle(q.db, job.statement, Normalise(rows[n - 1], job.headers)).outcome;
      var added := RowCommands(sp, job.statement, Normalise(rows[n - 1], job.headers), !o.Inserted?);
      RowCommandsSavepoints(sp, job.statement, Normalise(rows[n - 1], job.headers), !o.Inserted?);
      SavepointNamesAppend(q.commands, added);
      assert RowSavepoints(job, n) == RowSavepoints(job, n - 1) + [sp];
    }
  }

  /** Every rollback names the savepoint opened two commands earlier, with
      the failed INSERT in between. */
  predicate RollbacksPaired(cs: seq<Command>)
  {
    forall k | 0 <= k < |cs| && cs[k].RollbackTo? :: k >= 2 && cs[k - 2] == Savepoint(cs[k].name) && cs[k - 1].Execute?
  }

  /** One row's commands keep the rollbacks paired. */
  lemma RollbacksPairedAppend(q: seq<Command>, sp: string, st: InsertStatement, values: seq<Value>, failed: bool)
    requires RollbacksPaired(q)
    ensures RollbacksPaired(q + RowCommands(sp, st, values, failed))
  {
    var cs := q + RowCommands(sp, st, values, failed);
    forall k | 0 <= k < |cs| && cs[k].RollbackTo?
      ensures k >= 2 && cs[k - 2] == Savepoint(cs[k].name) && cs[k - 1].Execute?
    {
      if k < |q| {
        assert cs[k] == q[k];
        assert cs[k - 2] == q[k - 2] && cs[k - 1] == q[k - 1];
      }
    }
  }

  lemma {:induction false} PrefixRollbacksPaired<S>(oracle: InsertOracle<S>, job: TableLoad, db0: S, rows: seq<Row>, n: nat)
    requires n <= |rows|
    ensures RollbacksPaired(LoadPrefix(oracle, job, db0, rows, n).commands)
    decreases n
  {
    if n > 0 {
      PrefixRollbacksPaired(oracle, job, db0, rows, n - 1);
      var q := LoadPrefix(oracle, job, db0, rows, n - 1).commands;
      var cs := LoadPrefix(oracle, job, db0, rows, n).commands;
      assert cs[..|q|] == q;
      forall k | 0 <= k < |cs| && cs[k].RollbackTo?
        ensures k >= 2 && cs[k - 2] == Savepoint(cs[k].name) && cs[k - 1].Execute?
      {
        if k < |q| {
          assert cs[k] == q[k];
          assert cs[k - 2] == q[k - 2] && cs[k - 1] == q[k - 1];
        }
      }
    }
  }

  /** The loop's first `n` rows depend on nothing but those rows. */
  lemma {:induction false} PrefixOnlyReadsPrefix<S>(oracle: InsertOracle<S>, job: TableLoad, db0: S, a: seq<Row>, b: seq<Row>, n: nat)
    requires n <= |a| && n <= |b| && a[..n] == b[..n]
    ensures LoadPrefix(oracle, job, db0, a, n) == LoadPrefix(oracle, job, db0, b, n)
    decreases n
  {
    if n > 0 {
      assert a[..n - 1] == b[..n - 1];
      assert a[n - 1] == a[..n][n - 1];
      PrefixOnlyReadsPrefix(oracle, job, db0, a, b, n - 1);
    }
  }

  /** A row's effect on the database and the ids does not depend on its
      position or on the earlier warnings and commands. */
  lemma LoadRowCore<S>(oracle: InsertOracle<S>, job: TableLoad, p: Progress<S>, q: Progress<S>, i: nat, j: nat, row: Row)
    requires p.db == q.db && p.ids == q.ids
    ensures LoadRow(oracle, job, p, i, row).db == LoadRow(oracle, job, q, j, row).db
    ensures LoadRow(oracle, job, p, i, row).ids == LoadRow(oracle, job, q, j, row).ids
  {
  }

  /** Fault isolation across rows: a row the sink rejects in every state can
      be deleted from the file without changing the final database or the
      ids of any other row. */
  lemma RejectedRowIsInvisible<S>(oracle: InsertOracle<S>, job: TableLoad, db0: S, rows: seq<Row>, k: nat)
    requires k < |rows|
    requires forall s: S :: !oracle(s, job.statement, Normalise(rows[k], job.headers)).outcome.Inserted?
    ensures LoadPrefix(oracle, job, db0, rows, |rows|).db == LoadPrefix(oracle, job, db0, Without(rows, k), |rows| - 1).db
    ensures LoadPrefix(oracle, job, db0, rows, |rows|).ids == LoadPrefix(oracle, job, db0, Without(rows, k), |rows| - 1).ids
  {
    ShiftedPrefix(oracle, job, db0, rows, k, |rows|);
  }

  /** The file with row `k` deleted. */
  function Without(rows: seq<Row>, k: nat): (r: seq<Row>)
    requires k < |rows|
    ensures |r| == |rows| - 1
    ensures forall i | 0 <= i < k :: r[i] == rows[i]
    ensures forall i | k <= i < |r| :: r[i] == rows[i + 1]
  {
    rows[..k] + rows[k + 1..]
  }

  lemma {:induction false} ShiftedPrefix<S>(oracle: InsertOracle<S>, job: TableLoad, db0: S, rows: seq<Row>, k: nat, n: nat)
    requires k < n <= |rows|
    requires forall s: S :: !oracle(s, job.statement, Normalise(rows[k], job.headers)).outcome.Inserted?
    ensures LoadPrefix(oracle, job, db0, rows, n).db == LoadPrefix(oracle, job, db0, Without(rows, k), n - 1).db
    ensures LoadPrefix(oracle, job, db0, rows, n).ids == LoadPrefix(oracle, job, db0, Without(rows, k), n - 1).ids
    decreases n
  {
    var rest := Without(rows, k);
    if n == k + 1 {
      assert rest[..k] == rows[..k];
      PrefixOnlyReadsPrefix(oracle, job, db0, rows, rest, k);
    } else {
      ShiftedPrefix(oracle, job, db0, rows, k, n - 1);
      assert rest[n - 2] == rows[n - 1];
      LoadRowCore(oracle, job, LoadPrefix(oracle, job, db0, rows, n - 1), LoadPrefix(oracle, job, db0, rest, n - 2),
                  n - 1, n - 2, rows[n - 1]);
    }
  }

  /** Re-running a file whose every row the sink rejects (for instance, all
      already loaded under a unique constraint) changes nothing and yields
      one warning per row; when every rejection is a unique violation, every
      warning says there is nothing new to add. */
  lemma {:induction false} AllRejectedLeaveSinkUnchanged<S>(oracle: InsertOracle<S>, job: TableLoad, db0: S, rows: seq<Row>, n: nat)
    requires n <= |rows|
    requires forall s: S, i | 0 <= i < |rows| :: !oracle(s, job.statement, Normalise(rows[i], job.headers)).outcome.Inserted?
    ensures LoadPrefix(oracle, job, db0, rows, n).db == db0
    ensures LoadPrefix(oracle, job, db0, rows, n).ids == []
    ensures |LoadPrefix(oracle, job, db0, rows, n).warnings| == n
    ensures (forall s: S, i | 0 <= i < |rows| :: oracle(s, job.statement, Normalise(rows[i], job.headers)).outcome == IntegrityError(Some(UniqueViolation)))
            ==> forall w | w in LoadPrefix(oracle, job, db0, rows, n).warnings :: w.kind == NothingNewToAdd
    decreases n
  {
    if n > 0 {
      AllRejectedLeaveSinkUnchanged(oracle, job, db0, rows, n - 1);
    }
  }

  // ---------------------------------------------------------------------
  // One table

  /** Why a table's rows could not be read: no file (FileNotFoundError),
      or any other error reading or parsing it. */
  datatype ReadError = FileNotFound | ReadFailed

  /** What `insert_data_from_csv` returns, with the state it leaves behind:
      the inserted ids, the number of rows attempted, the database, and the
      warnings and cursor commands it produced. */
  datatype Loaded<S> = Loaded(insertedIds: seq<int>, total: nat, db: S, warnings: seq<RowWarning>, commands: seq<Command>)

  /** `insert_data_from_csv`. Only a read error escapes; no row-level error
      does. */
  function InsertDataFromCsv<S>(oracle: InsertOracle<S>, dialect: Dialect, db: S, source: RowSource,
                                table: string, m: ColumnMap, idColumn: string): (r: Result<Loaded<S>, ReadError>)
    ensures source.Missing? <==> r == Failure(FileNotFound)
    ensures source.Unreadable? <==> r == Failure(ReadFailed)
    ensures source.Rows? ==> r.Success? && r.value.total == |source.rows|
    ensures r.Success? ==> |r.value.insertedIds| + |r.value.warnings| == r.value.total
    ensures source == Rows([]) ==> r == Success(Loaded([], 0, db, [], []))
  {
    match source
    case Missing => Failure(FileNotFound)
    case Unreadable => Failure(ReadFailed)
    case Rows(rows) =>
      if |rows| == 0 then Success(Loaded([], 0, db, [], []))
      else
        var job := TableLoad(dialect, table, CsvInsertStatement(table, m, idColumn), Headers(m));
        var p := LoadPrefix(oracle, job, db, rows, |rows|);
        PrefixCounts(oracle, job, db, rows, |rows|);
        Success(Loaded(p.ids, |rows|, p.db, p.warnings, p.commands))
  }

  /** The loop as the programs write it, one row per iteration. */
  method InsertRows<S>(oracle: InsertOracle<S>, dialect: Dialect, db: S, source: RowSource,
                       table: string, m: ColumnMap, idColumn: string) returns (r: Result<Loaded<S>, ReadError>)
    ensures r == InsertDataFromCsv(oracle, dialect, db, source, table, m, idColumn)
    ensures r.Success? ==> |r.value.insertedIds| <= r.value.total
  {
    if source.Missing? {
      return Failure(FileNotFound);
    }
    if source.Unreadable? {
      return Failure(ReadFailed);
    }
    var rows := source.rows;
    if |rows| == 0 {
      return Success(Loaded([], 0, db, [], []));
    }
    var job := TableLoad(dialect, table, CsvInsertStatement(table, m, idColumn), Headers(m));
    var state := db;
    var ids: seq<int> := [];
    var warnings: seq<RowWarning> := [];
    var outcomes: seq<Outcome> := [];
    var commands: seq<Command> := [];
    var i := 0;
    while i < |rows|
      invariant 0 <= i <= |rows|
      invariant Progress(state, ids, warnings, outcomes, commands) == LoadPrefix(oracle, job, db, rows, i)
    {
      var row := rows[i];
      var values := Normalise(row, job.headers);
      var sp := RowSavepoint(dialect, table, i);
      commands := commands + [Savepoint(sp), Execute(job.statement, values)];
      var resp := oracle(state, job.statement, values);
      outcomes := outcomes + [resp.outcome];
      if resp.outcome.Inserted? {
        ids := ids + [resp.outcome.id];
        state := resp.after;
      } else {
        commands := commands + [RollbackTo(sp)];
        warnings := warnings + [RowWarning(table, row, Classify(resp.outcome))];
      }
      i := i + 1;
    }
    PrefixCounts(oracle, job, db, rows, |rows|);
    return Success(Loaded(ids, |rows|, state, warnings, commands));
  }
}
