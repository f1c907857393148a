/** The foreign-key reconciler: a first pass learns, for every table, the
    database id of each CSV row that can be found by its natural key; a
    second pass rewrites the placeholder foreign keys of every CSV into those
    ids and writes corrected copies. */
module Reconciler {
  import opened Basics
  import opened Decimal
  import opened Rows
  import opened ReconcileConfig

  /** The ids learnt for one table. The program keeps both kinds of key in
      one dictionary, where a string key never equals an integer key, so two
      maps hold exactly the same information. */
  datatype IdCache = IdCache(byNaturalKey: map<string, int>, byIndex: map<nat, int>)

  const EmptyCache := IdCache(map[], map[])

  /** How the database answers the first pass's SELECT: the id of the
      first matching row, no such row (or a NULL id), or an error raised by
      the query, such as a relation name that does not exist. */
  datatype Answer = Found(id: int) | NoMatch | QueryFailed

  /** The database as the first pass queries it: given a table, its id
      column, a column and a value, its answer. */
  type IdLookup = (string, string, string, string) -> Answer

  /** Python truthiness of an optional string. */
  predicate Truthy(o: Option<string>)
  {
    o.Some? && o.value != ""
  }

  /** The warnings the reconciler prints. */
  datatype Note =
    | CsvNotFound(path: string)
    | RowIdUnknown(key: string, index: nat)
    | TableSkipped(key: string)
    | InvalidPlaceholderIndex(key: string, column: string, value: string)
    | UnresolvedFk(key: string, column: string, value: string, parentKey: string)

  /** The errors that end the program: a key without configuration, a CSV
      file that exists but cannot be read, or a first-pass SELECT that
      raises while a table is visited. */
  datatype Crash = NoConfig(key: string) | CsvUnreadable(path: string) | LookupFailed(key: string)

  /** A file read by `read_csv_to_dicts`: its rows and the warning printed
      when it is missing. */
  datatype Read = Read(rows: seq<Row>, notes: seq<Note>)

  /** A missing file reads as no rows, with a warning; an unreadable one
      raises. */
  function ReadCsv(source: RowSource, path: string): (r: Result<Read, Crash>)
    ensures r.Failure? <==> source.Unreadable?
    ensures source.Missing? ==> r == Success(Read([], [CsvNotFound(path)]))
    ensures source.Rows? ==> r == Success(Read(source.rows, []))
  {
    match source
    case Missing => Success(Read([], [CsvNotFound(path)]))
    case Unreadable => Failure(CsvUnreadable(path))
    case Rows(rows) => Success(Read(rows, []))
  }

  // ---------------------------------------------------------------------
  // Pass 1: ids by natural key and by row position

  /** The natural-key value a row is looked up by: only when the table names
      both a natural-key column in the CSV and one in the database, and the
      row holds a non-empty value there. */
  function NaturalKeyValue(t: ReconcileTable, row: Row): (v: Option<string>)
    ensures v.Some? ==> Truthy(t.naturalKeyInCsv) && Truthy(t.dbColumnForNaturalKey)
    ensures v.Some? ==> t.naturalKeyInCsv.value in row && v.value == row[t.naturalKeyInCsv.value] && v.value != ""
    ensures v.None? ==> !Truthy(t.naturalKeyInCsv) || !Truthy(t.dbColumnForNaturalKey)
                        || t.naturalKeyInCsv.value !in row || row[t.naturalKeyInCsv.value] == ""
  {
    if Truthy(t.naturalKeyInCsv) && Truthy(t.dbColumnForNaturalKey)
       && t.naturalKeyInCsv.value in row && row[t.naturalKeyInCsv.value] != ""
    then Some(row[t.naturalKeyInCsv.value])
    else None
  }

  /** The database id of a CSV row, found through its natural key. */
  function RowId(lookup: IdLookup, t: ReconcileTable, row: Row): Option<int>
  {
    match NaturalKeyValue(t, row)
    case None => None
    case Some(v) =>
      match lookup(t.dbTable, t.idColumn, t.dbColumnForNaturalKey.value, v)
      case Found(id) => Some(id)
      case _ => None
  }

  /** The row is looked up, and its SELECT raises. */
  predicate QueryFails(lookup: IdLookup, t: ReconcileTable, row: Row)
  {
    NaturalKeyValue(t, row).Some?
    && lookup(t.dbTable, t.idColumn, t.dbColumnForNaturalKey.value, NaturalKeyValue(t, row).value).QueryFailed?
  }

  /** No row of the table makes its SELECT raise. */
  predicate Answered(lookup: IdLookup, t: ReconcileTable, rows: seq<Row>)
  {
    forall i | 0 <= i < |rows| :: !QueryFails(lookup, t, rows[i])
  }

  datatype CacheProgress = CacheProgress(cache: IdCache, notes: seq<Note>)

  /** The first pass over the first `n` rows of one table. */
  function CachePrefix(lookup: IdLookup, key: string, t: ReconcileTable, rows: seq<Row>, n: nat): CacheProgress
    requires n <= |rows|
    decreases n
  {
    if n == 0 then CacheProgress(EmptyCache, [])
    else
      var p := CachePrefix(lookup, key, t, rows, n - 1);
      var row := rows[n - 1];
      match RowId(lookup, t, row)
      case Some(id) =>
        CacheProgress(IdCache(p.cache.byNaturalKey[NaturalKeyValue(t, row).value := id], p.cache.byIndex[n - 1 := id]), p.notes)
      case None =>
        if !Truthy(t.naturalKeyInCsv) then CacheProgress(p.cache, p.notes + [RowIdUnknown(key, n - 1)])
        else p
  }

  /** Row `i` has a cached id exactly when its natural key finds one, and the
      cached id is that one. */
  lemma {:induction false} CacheByIndex(lookup: IdLookup, key: string, t: ReconcileTable, rows: seq<Row>, n: nat)
    requires n <= |rows|
    ensures var c := CachePrefix(lookup, key, t, rows, n).cache;
      forall i: nat :: i in c.byIndex <==> i < n && RowId(lookup, t, rows[i]).Some?
    ensures var c := CachePrefix(lookup, key, t, rows, n).cache;
      forall i: nat | i in c.byIndex :: c.byIndex[i] == RowId(lookup, t, rows[i]).value
    decreases n
  {
    if n > 0 {
      CacheByIndex(lookup, key, t, rows, n - 1);
    }
  }

  /** One row of the first pass: a row whose id is found adds its natural
      key, and nothing else changes the natural-key map. */
  lemma CacheStep(lookup: IdLookup, key: string, t: ReconcileTable, rows: seq<Row>, n: nat)
    requires 0 < n <= |rows|
    ensures var c0 := CachePrefix(lookup, key, t, rows, n - 1).cache;
      var c := CachePrefix(lookup, key, t, rows, n).cache;
      var row := rows[n - 1];
      c.byNaturalKey == if RowId(lookup, t, row).Some?
                        then c0.byNaturalKey[NaturalKeyValue(t, row).value := RowId(lookup, t, row).value]
                        else c0.byNaturalKey
  {
  }

  /** Some row among the first `n` carries natural key `v` and is found. */
  predicate CarriedBy(lookup: IdLookup, t: ReconcileTable, rows: seq<Row>, n: nat, v: string)
    requires n <= |rows|
  {
    exists i | 0 <= i < n :: NaturalKeyValue(t, rows[i]) == Some(v) && RowId(lookup, t, rows[i]).Some?
  }

  lemma CarriedBySnoc(lookup: IdLookup, t: ReconcileTable, rows: seq<Row>, n: nat, v: string)
    requires 0 < n <= |rows|
    ensures CarriedBy(lookup, t, rows, n, v) <==>
      CarriedBy(lookup, t, rows, n - 1, v)
      || (NaturalKeyValue(t, rows[n - 1]) == Some(v) && RowId(lookup, t, rows[n - 1]).Some?)
  {
    if CarriedBy(lookup, t, rows, n, v) {
      var i :| 0 <= i < n && NaturalKeyValue(t, rows[i]) == Some(v) && RowId(lookup, t, rows[i]).Some?;
    }
  }

  /** A natural-key value is cached exactly when some row carries it and the
      database finds it. */
  lemma {:induction false} CacheByNaturalKey(lookup: IdLookup, key: string, t: ReconcileTable, rows: seq<Row>, n: nat)
    requires n <= |rows|
    ensures var c := CachePrefix(lookup, key, t, rows, n).cache;
      forall v :: v in c.byNaturalKey <==> CarriedBy(lookup, t, rows, n, v)
    decreases n
  {
    if n > 0 {
      CacheByNaturalKey(lookup, key, t, rows, n - 1);
      CacheStep(lookup, key, t, rows, n);
      forall v ensures CarriedBy(lookup, t, rows, n, v) <==>
        CarriedBy(lookup, t, rows, n - 1, v)
        || (NaturalKeyValue(t, rows[n - 1]) == Some(v) && RowId(lookup, t, rows[n - 1]).Some?)
      {
        CarriedBySnoc(lookup, t, rows, n, v);
      }
    }
  }

  /** A cached natural-key value maps to the id the database reports for
      it. */
  lemma {:induction false} CacheNaturalKeyIds(lookup: IdLookup, key: string, t: ReconcileTable, rows: seq<Row>, n: nat)
    requires n <= |rows|
    ensures var c := CachePrefix(lookup, key, t, rows, n).cache;
      forall v | v in c.byNaturalKey ::
        Truthy(t.dbColumnForNaturalKey)
        && lookup(t.dbTable, t.idColumn, t.dbColumnForNaturalKey.value, v) == Found(c.byNaturalKey[v])
    decreases n
  {
    if n > 0 {
      CacheNaturalKeyIds(lookup, key, t, rows, n - 1);
      CacheStep(lookup, key, t, rows, n);
      var row := rows[n - 1];
      if RowId(lookup, t, row).Some? {
        var v := NaturalKeyValue(t, row).value;
        assert lookup(t.dbTable, t.idColumn, t.dbColumnForNaturalKey.value, v) == Found(RowId(lookup, t, row).value);
      }
    }
  }

  /** A table without a natural key caches nothing and warns once per row,
      naming the row. */
  lemma {:induction false} UnkeyedTableCachesNothing(lookup: IdLookup, key: string, t: ReconcileTable, rows: seq<Row>, n: nat)
    requires n <= |rows|
    requires !Truthy(t.naturalKeyInCsv)
    ensures CachePrefix(lookup, key, t, rows, n).cache == EmptyCache
    ensures |CachePrefix(lookup, key, t, rows, n).notes| == n
    ensures forall i | 0 <= i < n :: CachePrefix(lookup, key, t, rows, n).notes[i] == RowIdUnknown(key, i)
    decreases n
  {
    if n > 0 {
      UnkeyedTableCachesNothing(lookup, key, t, rows, n - 1);
    }
  }

  /** The first pass over the tables still to visit, with what it has
      gathered so far; a crash stops it. */
  datatype Pass1 = Pass1(caches: map<string, IdCache>, notes: seq<Note>, crash: Option<Crash>)

  /** The cache the first pass builds for one table. */
  function TableCache(lookup: IdLookup, key: string, t: ReconcileTable, rows: seq<Row>): CacheProgress
  {
    CachePrefix(lookup, key, t, rows, |rows|)
  }

  function CacheTables(lookup: IdLookup, configs: map<string, ReconcileTable>, sources: string -> RowSource,
                       order: seq<string>, acc: Pass1): Pass1
    decreases |order|
  {
    if |order| == 0 || acc.crash.Some? then acc
    else
      var key := order[0];
      if key !in configs then Pass1(acc.caches, acc.notes, Some(NoConfig(key)))
      else
        var t := configs[key];
        match ReadCsv(sources(t.csvFile), t.csvFile)
        case Failure(e) => Pass1(acc.caches, acc.notes, Some(e))
        case Success(rd) =>
          if !Answered(lookup, t, rd.rows) then Pass1(acc.caches, acc.notes + rd.notes, Some(LookupFailed(key)))
          else
            var c := TableCache(lookup, key, t, rd.rows);
            CacheTables(lookup, configs, sources, order[1..], Pass1(acc.caches[key := c.cache], acc.notes + rd.notes + c.notes, None))
  }

  /** The rows a readable source yields. */
  function SourceRows(source: RowSource): seq<Row>
  {
    if source.Rows? then source.rows else []
  }

  /** Every key visited is configured, every file it reads is readable,
      and every SELECT its rows make is answered without an error. */
  predicate FirstPassClears(lookup: IdLookup, configs: map<string, ReconcileTable>, sources: string -> RowSource, order: seq<string>)
  {
    forall i | 0 <= i < |order| ::
      && order[i] in configs
      && !sources(configs[order[i]].csvFile).Unreadable?
      && Answered(lookup, configs[order[i]], SourceRows(sources(configs[order[i]].csvFile)))
  }

  /** The first pass crashes exactly when some visited key is unconfigured,
      its file unreadable, or one of its rows' SELECTs raises. */
  lemma {:induction false} CacheTablesCrash(lookup: IdLookup, configs: map<string, ReconcileTable>, sources: string -> RowSource,
                                            order: seq<string>, acc: Pass1)
    requires acc.crash.None?
    ensures CacheTables(lookup, configs, sources, order, acc).crash.None? <==> FirstPassClears(lookup, configs, sources, order)
    decreases |order|
  {
    if |order| > 0 {
      var key := order[0];
      var tail := order[1..];
      if key in configs && !sources(configs[key].csvFile).Unreadable?
         && Answered(lookup, configs[key], SourceRows(sources(configs[key].csvFile))) {
        var t := configs[key];
        var rd := ReadCsv(sources(t.csvFile), t.csvFile).value;
        assert rd.rows == SourceRows(sources(t.csvFile));
        var c := TableCache(lookup, key, t, rd.rows);
        CacheTablesCrash(lookup, configs, sources, tail, Pass1(acc.caches[key := c.cache], acc.notes + rd.notes + c.notes, None));
        if !FirstPassClears(lookup, configs, sources, tail) {
          var i :| 0 <= i < |tail| && !(tail[i] in configs && !sources(configs[tail[i]].csvFile).Unreadable?
                                        && Answered(lookup, configs[tail[i]], SourceRows(sources(configs[tail[i]].csvFile))));
          assert order[i + 1] == tail[i];
        }
        if FirstPassClears(lookup, configs, sources, tail) {
          assert forall i | 1 <= i < |order| :: order[i] == tail[i - 1];
        }
      }
    }
  }

  /** A SELECT that raises ends the first pass: when the keys before
      `order[j]` all clear and `order[j]` is configured and readable but one
      of its rows' SELECTs raises, the crash names `order[j]`. */
  lemma {:induction false} FailingSelectCrash(lookup: IdLookup, configs: map<string, ReconcileTable>, sources: string -> RowSource,
                                              order: seq<string>, acc: Pass1, j: nat)
    requires acc.crash.None?
    requires j < |order|
    requires FirstPassClears(lookup, configs, sources, order[..j])
    requires order[j] in configs && !sources(configs[order[j]].csvFile).Unreadable?
    requires !Answered(lookup, configs[order[j]], SourceRows(sources(configs[order[j]].csvFile)))
    ensures CacheTables(lookup, configs, sources, order, acc).crash == Some(LookupFailed(order[j]))
    decreases j
  {
    var key := order[0];
    if j == 0 {
      var t := configs[key];
      assert ReadCsv(sources(t.csvFile), t.csvFile).value.rows == SourceRows(sources(t.csvFile));
    } else {
      assert order[..j][0] == key;
      var t := configs[key];
      var rd := ReadCsv(sources(t.csvFile), t.csvFile).value;
      assert rd.rows == SourceRows(sources(t.csvFile));
      var c := TableCache(lookup, key, t, rd.rows);
      var head, rest := order[..j], order[1..][..j - 1];
      assert forall i | 0 <= i < j - 1 :: rest[i] == head[i + 1];
      FailingSelectCrash(lookup, configs, sources, order[1..], Pass1(acc.caches[key := c.cache], acc.notes + rd.notes + c.notes, None), j - 1);
    }
  }

  /** The same failure seen from `main`: nothing is cleared or written and
      the program ends on the failing table's SELECT. */
  lemma FailingSelectEndsRun(lookup: IdLookup, configs: map<string, ReconcileTable>, sources: string -> RowSource,
                             order: seq<string>, j: nat)
    requires j < |order|
    requires FirstPassClears(lookup, configs, sources, order[..j])
    requires order[j] in configs && !sources(configs[order[j]].csvFile).Unreadable?
    requires !Answered(lookup, configs[order[j]], SourceRows(sources(configs[order[j]].csvFile)))
    ensures var r := Reconcile(lookup, configs, sources, order);
            !r.cleared && r.files == [] && r.crash == Some(LookupFailed(order[j]))
  {
    FailingSelectCrash(lookup, configs, sources, order, Pass1(map[], [], None), j);
  }

  /** When every visited key is configured, its file readable and every
      SELECT on its rows answered, each
      visited table's cache is the one its rows give, and the caches of
      tables not visited are untouched. */
  lemma {:induction false} CacheTablesResult(lookup: IdLookup, configs: map<string, ReconcileTable>, sources: string -> RowSource,
                                             order: seq<string>, acc: Pass1)
    requires acc.crash.None?
    requires FirstPassClears(lookup, configs, sources, order)
    requires forall i, j | 0 <= i < j < |order| :: order[i] != order[j]
    ensures var r := CacheTables(lookup, configs, sources, order, acc);
      && r.crash.None?
      && (forall i | 0 <= i < |order| ::
            order[i] in r.caches
            && r.caches[order[i]] == TableCache(lookup, order[i], configs[order[i]], SourceRows(sources(configs[order[i]].csvFile))).cache)
      && (forall k | k in acc.caches && k !in order :: k in r.caches && r.caches[k] == acc.caches[k])
    decreases |order|
  {
    if |order| > 0 {
      var key := order[0];
      var tail := order[1..];
      assert forall i | 0 <= i < |tail| :: tail[i] == order[i + 1];
      var t := configs[key];
      var rd := ReadCsv(sources(t.csvFile), t.csvFile).value;
      var c := TableCache(lookup, key, t, rd.rows);
      var next := Pass1(acc.caches[key := c.cache], acc.notes + rd.notes + c.notes, None);
      CacheTablesResult(lookup, configs, sources, tail, next);
      assert key !in tail;
      assert rd.rows == SourceRows(sources(configs[key].csvFile));
    }
  }

  // ---------------------------------------------------------------------
  // Pass 2: rewriting placeholders

  /** A cell of a corrected row: the original text, or the id written over
      a placeholder. */
  datatype Cell = Kept(text: string) | Resolved(id: int)

  type OutRow = map<string, Cell>

  /** `original_row.copy()`. */
  function Copy(row: Row): (out: OutRow)
    ensures out.Keys == row.Keys
    ensures forall k | k in row :: out[k] == Kept(row[k])
  {
    map k | k in row :: Kept(row[k])
  }

  /** The cache of a parent key, or an empty one if the first pass did not
      visit it. */
  function ParentCache(caches: map<string, IdCache>, parentKey: string): IdCache
  {
    if parentKey in caches then caches[parentKey] else EmptyCache
  }

  /** The id a non-blank placeholder resolves to: in index mode the parent
      row with that 1-based number, otherwise the parent row with that
      natural-key value. */
  function ResolvePlaceholder(caches: map<string, IdCache>, fk: FkConfig, v: string): Option<int>
  {
    var cache := ParentCache(caches, fk.parentKey);
    if fk.oneBasedIndex then
      match ParseInt(v)
      case None => None
      case Some(number) => ByRowNumber(cache, number)
    else if v in cache.byNaturalKey then Some(cache.byNaturalKey[v])
    else None
  }

  /** The id cached for the parent row with a given 1-based number. */
  function ByRowNumber(cache: IdCache, number: int): Option<int>
  {
    if number - 1 >= 0 && (number - 1) as nat in cache.byIndex then Some(cache.byIndex[(number - 1) as nat]) else None
  }

  /** A placeholder is blank when the column is absent or empty. */
  predicate Blank(row: Row, column: string)
  {
    column !in row || row[column] == ""
  }

  datatype RowRewrite = RowRewrite(row: OutRow, notes: seq<Note>)

  /** A crash in the second pass together with the warnings the table had
      already printed when it happened. */
  datatype Halt = Halt(crash: Crash, notes: seq<Note>)

  /** The notes one non-blank placeholder produces: an invalid index is
      reported, and so is every placeholder left unresolved. */
  function PlaceholderNotes(caches: map<string, IdCache>, key: string, fk: FkConfig, v: string): seq<Note>
  {
    (if fk.oneBasedIndex && ParseInt(v).None? then [InvalidPlaceholderIndex(key, fk.csvColumn, v)] else [])
    + (if ResolvePlaceholder(caches, fk, v).None? then [UnresolvedFk(key, fk.csvColumn, v, fk.parentKey)] else [])
  }

  /** One foreign key of a row: a blank placeholder is skipped, one whose
      parent is unconfigured ends the program, any other is resolved if it
      can be and reported if it cannot. */
  function FkStep(caches: map<string, IdCache>, configs: map<string, ReconcileTable>, key: string,
                  fk: FkConfig, original: Row, acc: RowRewrite): Result<RowRewrite, Halt>
  {
    if Blank(original, fk.csvColumn) then Success(acc)
    else if fk.parentKey !in configs then Failure(Halt(NoConfig(fk.parentKey), acc.notes))
    else
      var v := original[fk.csvColumn];
      var id := ResolvePlaceholder(caches, fk, v);
      var row := if id.Some? then acc.row[fk.csvColumn := Resolved(id.value)] else acc.row;
      Success(RowRewrite(row, acc.notes + PlaceholderNotes(caches, key, fk, v)))
  }

  /** The foreign keys of one row, read from the original row and written
      into the copy, in configuration order. */
  function RewriteFks(caches: map<string, IdCache>, configs: map<string, ReconcileTable>, key: string,
                      fks: seq<FkConfig>, original: Row, acc: RowRewrite): Result<RowRewrite, Halt>
    decreases |fks|
  {
    if |fks| == 0 then Success(acc)
    else
      match FkStep(caches, configs, key, fks[0], original, acc)
      case Failure(e) => Failure(e)
      case Success(next) => RewriteFks(caches, configs, key, fks[1..], original, next)
  }

  function RewriteRow(caches: map<string, IdCache>, configs: map<string, ReconcileTable>, key: string,
                      fks: seq<FkConfig>, original: Row): Result<RowRewrite, Halt>
  {
    RewriteFks(caches, configs, key, fks, original, RowRewrite(Copy(original), []))
  }

  /** The parents a row's non-blank placeholders name are all configured. */
  predicate ParentsConfigured(configs: map<string, ReconcileTable>, fks: seq<FkConfig>, original: Row)
  {
    forall f | 0 <= f < |fks| :: Blank(original, fks[f].csvColumn) || fks[f].parentKey in configs
  }

  predicate IsFkColumn(fks: seq<FkConfig>, column: string)
  {
    exists f | 0 <= f < |fks| :: fks[f].csvColumn == column
  }

  /** What the rewrite leaves in a foreign-key column: the resolved id, or
      the original text when the placeholder is blank or unresolved. */
  function FkCell(caches: map<string, IdCache>, fk: FkConfig, original: Row): Cell
    requires fk.csvColumn in original
  {
    var v := original[fk.csvColumn];
    if v != "" && ResolvePlaceholder(caches, fk, v).Some? then Resolved(ResolvePlaceholder(caches, fk, v).value)
    else Kept(v)
  }

  /** The warnings of one placeholder: none when it is blank. */
  function FkNotes(caches: map<string, IdCache>, key: string, fk: FkConfig, original: Row): seq<Note>
  {
    if Blank(original, fk.csvColumn) then [] else PlaceholderNotes(caches, key, fk, original[fk.csvColumn])
  }

  /** One step keeps the row's columns, changes at most its own column, to
      what `FkCell` says, and appends that placeholder's warnings. */
  lemma FkStepEffect(caches: map<string, IdCache>, configs: map<string, ReconcileTable>, key: string,
                     fk: FkConfig, original: Row, acc: RowRewrite)
    requires acc.row.Keys == original.Keys
    ensures var r := FkStep(caches, configs, key, fk, original, acc);
      && (r.Success? <==> Blank(original, fk.csvColumn) || fk.parentKey in configs)
      && (r.Success? ==> r.value.row.Keys == original.Keys)
      && (r.Success? ==> forall k | k in original && k != fk.csvColumn :: r.value.row[k] == acc.row[k])
      && (r.Success? && fk.csvColumn in original && acc.row[fk.csvColumn] == Kept(original[fk.csvColumn]) ==>
            r.value.row[fk.csvColumn] == FkCell(caches, fk, original))
      && (r.Success? ==> r.value.notes == acc.notes + FkNotes(caches, key, fk, original))
  {
  }

  lemma ParentsConfiguredCons(configs: map<string, ReconcileTable>, fks: seq<FkConfig>, original: Row)
    requires |fks| > 0
    ensures ParentsConfigured(configs, fks, original) <==>
      (Blank(original, fks[0].csvColumn) || fks[0].parentKey in configs) && ParentsConfigured(configs, fks[1..], original)
  {
    assert forall f | 0 <= f < |fks[1..]| :: fks[1..][f] == fks[f + 1];
    if ParentsConfigured(configs, fks[1..], original) && (Blank(original, fks[0].csvColumn) || fks[0].parentKey in configs) {
      forall f | 0 <= f < |fks| ensures Blank(original, fks[f].csvColumn) || fks[f].parentKey in configs {
        if f > 0 {
          assert fks[f] == fks[1..][f - 1];
        }
      }
    }
  }

  lemma IsFkColumnCons(fks: seq<FkConfig>, column: string)
    requires |fks| > 0
    ensures IsFkColumn(fks, column) <==> fks[0].csvColumn == column || IsFkColumn(fks[1..], column)
  {
    if IsFkColumn(fks, column) {
      var f :| 0 <= f < |fks| && fks[f].csvColumn == column;
      if f > 0 {
        assert fks[1..][f - 1] == fks[f];
      }
    }
    if IsFkColumn(fks[1..], column) {
      var f :| 0 <= f < |fks[1..]| && fks[1..][f].csvColumn == column;
      assert fks[f + 1] == fks[1..][f];
    }
  }

  /** Rewriting keeps the row's columns, leaves every other column as it
      was, and crashes exactly when a non-blank placeholder names an
      unconfigured parent. */
  lemma {:induction false} RewriteFksFrame(caches: map<string, IdCache>, configs: map<string, ReconcileTable>, key: string,
                                           fks: seq<FkConfig>, original: Row, acc: RowRewrite)
    requires acc.row.Keys == original.Keys
    ensures var r := RewriteFks(caches, configs, key, fks, original, acc);
      && (r.Success? <==> ParentsConfigured(configs, fks, original))
      && (r.Success? ==> r.value.row.Keys == original.Keys)
      && (r.Success? ==> forall k | k in original && !IsFkColumn(fks, k) :: r.value.row[k] == acc.row[k])
    decreases |fks|
  {
    if |fks| > 0 {
      var fk := fks[0];
      var tail := fks[1..];
      ParentsConfiguredCons(configs, fks, original);
      FkStepEffect(caches, configs, key, fk, original, acc);
      var step := FkStep(caches, configs, key, fk, original, acc);
      if step.Success? {
        var next := step.value;
        RewriteFksFrame(caches, configs, key, tail, original, next);
        forall k | k in original && !IsFkColumn(fks, k) ensures !IsFkColumn(tail, k) && k != fk.csvColumn {
          IsFkColumnCons(fks, k);
        }
      }
    }
  }

  /** Rewriting appends the warnings of each placeholder, in order. */
  lemma {:induction false} RewriteFksNotes(caches: map<string, IdCache>, configs: map<string, ReconcileTable>, key: string,
                                           fks: seq<FkConfig>, original: Row, acc: RowRewrite)
    requires acc.row.Keys == original.Keys
    ensures var r := RewriteFks(caches, configs, key, fks, original, acc);
      r.Success? ==> r.value.notes == acc.notes + RowNotes(caches, key, fks, original)
    decreases |fks|
  {
    if |fks| > 0 {
      var fk := fks[0];
      var tail := fks[1..];
      FkStepEffect(caches, configs, key, fk, original, acc);
      var step := FkStep(caches, configs, key, fk, original, acc);
      if step.Success? {
        RewriteFksNotes(caches, configs, key, tail, original, step.value);
        AppendAssoc(acc.notes, FkNotes(caches, key, fk, original), RowNotes(caches, key, tail, original));
      }
    }
  }

  /** When the first `f` foreign keys of a row name configured parents (or
      are blank) and the next one names an unconfigured parent, the rewrite
      halts there, having printed exactly the warnings of those `f`
      placeholders. */
  lemma {:induction false} RewriteFksHalt(caches: map<string, IdCache>, configs: map<string, ReconcileTable>, key: string,
                                          fks: seq<FkConfig>, original: Row, acc: RowRewrite, f: nat)
    requires acc.row.Keys == original.Keys
    requires f < |fks|
    requires ParentsConfigured(configs, fks[..f], original)
    requires !Blank(original, fks[f].csvColumn) && fks[f].parentKey !in configs
    ensures RewriteFks(caches, configs, key, fks, original, acc)
            == Failure(Halt(NoConfig(fks[f].parentKey), acc.notes + RowNotes(caches, key, fks[..f], original)))
    decreases f
  {
    if f == 0 {
      assert acc.notes + RowNotes(caches, key, fks[..0], original) == acc.notes;
    } else {
      var fk := fks[0];
      var tail := fks[1..];
      var head := fks[..f];
      ParentsConfiguredCons(configs, head, original);
      assert head[0] == fk && head[1..] == tail[..f - 1];
      FkStepEffect(caches, configs, key, fk, original, acc);
      var next := FkStep(caches, configs, key, fk, original, acc).value;
      assert tail[f - 1] == fks[f];
      RewriteFksHalt(caches, configs, key, tail, original, next, f - 1);
      AppendAssoc(acc.notes, FkNotes(caches, key, fk, original), RowNotes(caches, key, tail[..f - 1], original));
    }
  }

  predicate DistinctColumns(fks: seq<FkConfig>)
  {
    forall f, g | 0 <= f < g < |fks| :: fks[f].csvColumn != fks[g].csvColumn
  }

  /** With distinct foreign-key columns, each present foreign-key column ends
      up as `FkCell` says. */
  lemma {:induction false} RewriteFksColumns(caches: map<string, IdCache>, configs: map<string, ReconcileTable>, key: string,
                                             fks: seq<FkConfig>, original: Row, acc: RowRewrite)
    requires acc.row.Keys == original.Keys
    requires DistinctColumns(fks)
    requires forall f | 0 <= f < |fks| && fks[f].csvColumn in original :: acc.row[fks[f].csvColumn] == Kept(original[fks[f].csvColumn])
    ensures var r := RewriteFks(caches, configs, key, fks, original, acc);
      r.Success? ==> r.value.row.Keys == original.Keys && forall f | 0 <= f < |fks| && fks[f].csvColumn in original ::
        r.value.row[fks[f].csvColumn] == FkCell(caches, fks[f], original)
    decreases |fks|
  {
    RewriteFksFrame(caches, configs, key, fks, original, acc);
    if |fks| > 0 {
      var fk := fks[0];
      var tail := fks[1..];
      assert forall f | 0 <= f < |tail| :: tail[f] == fks[f + 1];
      FkStepEffect(caches, configs, key, fk, original, acc);
      var step := FkStep(caches, configs, key, fk, original, acc);
      if step.Success? {
        var next := step.value;
        assert !IsFkColumn(tail, fk.csvColumn);
        RewriteFksColumns(caches, configs, key, tail, original, next);
        RewriteFksFrame(caches, configs, key, tail, original, next);
      }
    }
  }

  /** A row's warnings are those of its placeholders, in order. */
  function RowNotes(caches: map<string, IdCache>, key: string, fks: seq<FkConfig>, original: Row): seq<Note>
    decreases |fks|
  {
    if |fks| == 0 then []
    else FkNotes(caches, key, fks[0], original) + RowNotes(caches, key, fks[1..], original)
  }

  /** A row is rewritten without a warning exactly when each of its
      placeholders is blank or resolves. */
  lemma {:induction false} RowNotesEmpty(caches: map<string, IdCache>, key: string, fks: seq<FkConfig>, original: Row)
    ensures RowNotes(caches, key, fks, original) == [] <==>
      forall f | 0 <= f < |fks| :: Blank(original, fks[f].csvColumn) || ResolvePlaceholder(caches, fks[f], original[fks[f].csvColumn]).Some?
    decreases |fks|
  {
    if |fks| > 0 {
      var tail := fks[1..];
      assert forall f | 0 <= f < |tail| :: tail[f] == fks[f + 1];
      RowNotesEmpty(caches, key, tail, original);
      if !Blank(original, fks[0].csvColumn) {
        var v := original[fks[0].csvColumn];
        if ResolvePlaceholder(caches, fks[0], v).Some? {
          assert ParseInt(v).Some? || !fks[0].oneBasedIndex;
        }
      }
    }
  }

  /** An index placeholder that is not a number is reported twice: as an
      invalid index and as an unresolved key. */
  lemma InvalidIndexReportedTwice(caches: map<string, IdCache>, key: string, fk: FkConfig, v: string)
    requires fk.oneBasedIndex && !IsIntLiteral(v)
    ensures PlaceholderNotes(caches, key, fk, v) == [InvalidPlaceholderIndex(key, fk.csvColumn, v), UnresolvedFk(key, fk.csvColumn, v, fk.parentKey)]
  {
  }

  /** End to end for an index placeholder: writing the 1-based number `k + 1`
      of a parent CSV row resolves to that row's database id, and resolves
      exactly when the first pass found that row; zero, negative numbers and
      numbers past the parent's rows never resolve. */
  lemma IndexPlaceholderNamesParentRow(lookup: IdLookup, caches: map<string, IdCache>, fk: FkConfig,
                                       parent: ReconcileTable, parentRows: seq<Row>, v: string)
    requires fk.oneBasedIndex
    requires fk.parentKey in caches
    requires caches[fk.parentKey] == TableCache(lookup, fk.parentKey, parent, parentRows).cache
    ensures forall k: nat | k < |parentRows| ::
      ResolvePlaceholder(caches, fk, NatToString(k + 1)) == RowId(lookup, parent, parentRows[k])
    ensures ResolvePlaceholder(caches, fk, v).Some? ==>
      && ParseInt(v).Some? && 1 <= ParseInt(v).value <= |parentRows|
      && ResolvePlaceholder(caches, fk, v) == RowId(lookup, parent, parentRows[ParseInt(v).value - 1])
  {
    var cache := caches[fk.parentKey];
    CacheByIndex(lookup, fk.parentKey, parent, parentRows, |parentRows|);
    forall k: nat | k < |parentRows|
      ensures ResolvePlaceholder(caches, fk, NatToString(k + 1)) == RowId(lookup, parent, parentRows[k])
    {
      ParseRendered(k + 1);
      assert ResolvePlaceholder(caches, fk, NatToString(k + 1)) == ByRowNumber(cache, k + 1);
    }
    if ResolvePlaceholder(caches, fk, v).Some? {
      assert ResolvePlaceholder(caches, fk, v) == ByRowNumber(cache, ParseInt(v).value);
    }
  }

  /** A parent without a natural key is never resolved by row number: the
      first pass caches nothing for it. */
  lemma UnkeyedParentNeverResolves(lookup: IdLookup, caches: map<string, IdCache>, fk: FkConfig,
                                   parent: ReconcileTable, parentRows: seq<Row>, v: string)
    requires fk.parentKey in caches
    requires caches[fk.parentKey] == TableCache(lookup, fk.parentKey, parent, parentRows).cache
    requires !Truthy(parent.naturalKeyInCsv)
    ensures ResolvePlaceholder(caches, fk, v) == None
  {
    UnkeyedTableCachesNothing(lookup, fk.parentKey, parent, parentRows, |parentRows|);
  }

  // ---------------------------------------------------------------------
  // Pass 2 over tables, and the whole program

  /** `os.path.basename`: the text after the last slash. */
  function Basename(path: string): (b: string)
    ensures |b| <= |path| && path[|path| - |b|..] == b
    ensures '/' !in b
    ensures |b| < |path| ==> path[|path| - |b| - 1] == '/'
    decreases |path|
  {
    if |path| == 0 || path[|path| - 1] == '/' then ""
    else Basename(path[..|path| - 1]) + [path[|path| - 1]]
  }

  const OutputDir := "data_corrected"

  /** Where the corrected copy of a CSV file is written. */
  function CorrectedPath(csvFile: string): string
  {
    OutputDir + "/" + Basename(csvFile)
  }

  /** A corrected CSV file: its path, header and rows. */
  datatype CsvOut = CsvOut(path: string, fieldnames: set<string>, rows: seq<OutRow>)

  datatype RowsRewrite = RowsRewrite(rows: seq<OutRow>, notes: seq<Note>)

  /** The second pass over the rows of one table. */
  function RewriteRows(caches: map<string, IdCache>, configs: map<string, ReconcileTable>, key: string,
                       fks: seq<FkConfig>, rows: seq<Row>): Result<RowsRewrite, Halt>
    decreases |rows|
  {
    if |rows| == 0 then Success(RowsRewrite([], []))
    else
      match RewriteRow(caches, configs, key, fks, rows[0])
      case Failure(e) => Failure(e)
      case Success(first) =>
        match RewriteRows(caches, configs, key, fks, rows[1..])
        case Failure(e) => Failure(Halt(e.crash, first.notes + e.notes))
        case Success(rest) => Success(RowsRewrite([first.row] + rest.rows, first.notes + rest.notes))
  }

  /** When every parent is configured, the rows are rewritten without a
      crash, one corrected row per original row. */
  lemma {:induction false} RewriteRowsSucceed(caches: map<string, IdCache>, configs: map<string, ReconcileTable>, key: string,
                                              fks: seq<FkConfig>, rows: seq<Row>)
    requires forall f | 0 <= f < |fks| :: fks[f].parentKey in configs
    ensures RewriteRows(caches, configs, key, fks, rows).Success?
    ensures |RewriteRows(caches, configs, key, fks, rows).value.rows| == |rows|
    decreases |rows|
  {
    if |rows| > 0 {
      RewriteFksFrame(caches, configs, key, fks, rows[0], RowRewrite(Copy(rows[0]), []));
      RewriteRowsSucceed(caches, configs, key, fks, rows[1..]);
    }
  }

  /** A corrected row keeps the columns of its original, and every column
      that is not a foreign key unchanged. */
  predicate RowShaped(out: OutRow, row: Row, fks: seq<FkConfig>)
  {
    && out.Keys == row.Keys
    && forall k | k in row && !IsFkColumn(fks, k) :: out[k] == Kept(row[k])
  }

  /** One corrected row per original row, each shaped like it; a crash
      happens exactly when some row names an unconfigured parent. */
  lemma {:induction false} RewriteRowsShape(caches: map<string, IdCache>, configs: map<string, ReconcileTable>, key: string,
                                            fks: seq<FkConfig>, rows: seq<Row>)
    ensures var r := RewriteRows(caches, configs, key, fks, rows);
      && (r.Success? <==> forall i | 0 <= i < |rows| :: ParentsConfigured(configs, fks, rows[i]))
      && (r.Success? ==> |r.value.rows| == |rows|)
      && (r.Success? ==> forall i | 0 <= i < |rows| :: RowShaped(r.value.rows[i], rows[i], fks))
    decreases |rows|
  {
    if |rows| > 0 {
      var tail := rows[1..];
      var first := RewriteRow(caches, configs, key, fks, rows[0]);
      RewriteFksFrame(caches, configs, key, fks, rows[0], RowRewrite(Copy(rows[0]), []));
      RewriteRowsShape(caches, configs, key, fks, tail);
      var r := RewriteRows(caches, configs, key, fks, rows);
      var rest := RewriteRows(caches, configs, key, fks, tail);
      if r.Success? {
        assert r.value.rows == [first.value.row] + rest.value.rows;
        forall i | 0 <= i < |rows| ensures RowShaped(r.value.rows[i], rows[i], fks) {
          if i > 0 {
            assert r.value.rows[i] == rest.value.rows[i - 1] && rows[i] == tail[i - 1];
          }
        }
      }
      if forall i | 0 <= i < |rows| :: ParentsConfigured(configs, fks, rows[i]) {
        assert forall i | 0 <= i < |tail| :: ParentsConfigured(configs, fks, tail[i]) by {
          forall i | 0 <= i < |tail| ensures ParentsConfigured(configs, fks, tail[i]) {
            assert tail[i] == rows[i + 1];
          }
        }
      } else {
        var i :| 0 <= i < |rows| && !ParentsConfigured(configs, fks, rows[i]);
        if i > 0 {
          assert tail[i - 1] == rows[i];
        }
      }
    }
  }

  /** When the rows before row `i` rewrite cleanly and row `i` names an
      unconfigured parent, the table's rewrite halts in row `i`, having
      printed the warnings of the earlier rows followed by those row `i`
      printed before its crash. */
  lemma {:induction false} RewriteRowsHalt(caches: map<string, IdCache>, configs: map<string, ReconcileTable>, key: string,
                                           fks: seq<FkConfig>, rows: seq<Row>, i: nat)
    requires i < |rows|
    requires forall j | 0 <= j < i :: ParentsConfigured(configs, fks, rows[j])
    requires !ParentsConfigured(configs, fks, rows[i])
    ensures RewriteRows(caches, configs, key, fks, rows[..i]).Success?
    ensures RewriteRow(caches, configs, key, fks, rows[i]).Failure?
    ensures RewriteRows(caches, configs, key, fks, rows)
            == Failure(Halt(RewriteRow(caches, configs, key, fks, rows[i]).error.crash,
                            RewriteRows(caches, configs, key, fks, rows[..i]).value.notes
                            + RewriteRow(caches, configs, key, fks, rows[i]).error.notes))
    decreases i
  {
    var head := rows[..i];
    RewriteFksFrame(caches, configs, key, fks, rows[i], RowRewrite(Copy(rows[i]), []));
    if i == 0 {
      var e := RewriteRow(caches, configs, key, fks, rows[0]).error;
      assert [] + e.notes == e.notes;
    } else {
      var tail := rows[1..];
      RewriteFksFrame(caches, configs, key, fks, rows[0], RowRewrite(Copy(rows[0]), []));
      var first := RewriteRow(caches, configs, key, fks, rows[0]).value;
      assert tail[i - 1] == rows[i];
      assert forall j | 0 <= j < i - 1 :: tail[j] == rows[j + 1];
      RewriteRowsHalt(caches, configs, key, fks, tail, i - 1);
      assert head[0] == rows[0] && head[1..] == tail[..i - 1];
      var e := RewriteRow(caches, configs, key, fks, rows[i]).error;
      AppendAssoc(first.notes, RewriteRows(caches, configs, key, fks, tail[..i - 1]).value.notes, e.notes);
    }
  }

  datatype Pass2 = Pass2(files: seq<CsvOut>, notes: seq<Note>, crash: Option<Crash>)

  /** The second pass over one table: an empty or missing file skips it,
      otherwise its corrected rows are written under the header of its first
      row. A placeholder naming an unconfigured parent ends the program
      before the file is written, after the warnings printed so far. */
  function TableStep(caches: map<string, IdCache>, configs: map<string, ReconcileTable>, sources: string -> RowSource,
                     key: string, acc: Pass2): Pass2
  {
    if key !in configs then Pass2(acc.files, acc.notes, Some(NoConfig(key)))
    else
      var t := configs[key];
      match ReadCsv(sources(t.csvFile), t.csvFile)
      case Failure(e) => Pass2(acc.files, acc.notes, Some(e))
      case Success(rd) =>
        if |rd.rows| == 0 then Pass2(acc.files, acc.notes + rd.notes + [TableSkipped(key)], None)
        else
          match RewriteRows(caches, configs, key, t.fks, rd.rows)
          case Failure(h) => Pass2(acc.files, acc.notes + h.notes, Some(h.crash))
          case Success(rw) =>
            Pass2(acc.files + [CsvOut(CorrectedPath(t.csvFile), rd.rows[0].Keys, rw.rows)], acc.notes + rw.notes, None)
  }

  /** A placeholder naming an unconfigured parent ends the program in the
      middle of a table: nothing is written for it, and the warnings already
      printed stay, those of the earlier rows followed by those of the
      failing row's earlier placeholders. */
  lemma TableStepHalt(caches: map<string, IdCache>, configs: map<string, ReconcileTable>, sources: string -> RowSource,
                      key: string, acc: Pass2, rows: seq<Row>, i: nat, f: nat)
    requires key in configs && sources(configs[key].csvFile) == Rows(rows)
    requires i < |rows| && f < |configs[key].fks|
    requires forall j | 0 <= j < i :: ParentsConfigured(configs, configs[key].fks, rows[j])
    requires ParentsConfigured(configs, configs[key].fks[..f], rows[i])
    requires !Blank(rows[i], configs[key].fks[f].csvColumn) && configs[key].fks[f].parentKey !in configs
    ensures RewriteRows(caches, configs, key, configs[key].fks, rows[..i]).Success?
    ensures var r := TableStep(caches, configs, sources, key, acc);
      && r.crash == Some(NoConfig(configs[key].fks[f].parentKey))
      && r.files == acc.files
      && r.notes == acc.notes + RewriteRows(caches, configs, key, configs[key].fks, rows[..i]).value.notes
                    + RowNotes(caches, key, configs[key].fks[..f], rows[i])
  {
    var fks := configs[key].fks;
    assert !ParentsConfigured(configs, fks, rows[i]);
    RewriteRowsHalt(caches, configs, key, fks, rows, i);
    RewriteFksHalt(caches, configs, key, fks, rows[i], RowRewrite(Copy(rows[i]), []), f);
    assert [] + RowNotes(caches, key, fks[..f], rows[i]) == RowNotes(caches, key, fks[..f], rows[i]);
    AppendAssoc(acc.notes, RewriteRows(caches, configs, key, fks, rows[..i]).value.notes, RowNotes(caches, key, fks[..f], rows[i]));
  }

  /** A table whose file is missing or has no rows is skipped: no file is
      written, and the skip is the last warning, after the missing-file
      warning when there is one. */
  lemma EmptyTableSkipped(caches: map<string, IdCache>, configs: map<string, ReconcileTable>, sources: string -> RowSource,
                          key: string, acc: Pass2)
    requires key in configs
    requires sources(configs[key].csvFile).Missing? || sources(configs[key].csvFile) == Rows([])
    ensures var r := TableStep(caches, configs, sources, key, acc);
      && r.crash.None? && r.files == acc.files
      && r.notes == acc.notes + (if sources(configs[key].csvFile).Missing? then [CsvNotFound(configs[key].csvFile)] else [])
                    + [TableSkipped(key)]
  {
  }

  /** The second pass over the tables still to visit; a crash stops it. */
  function RewriteTables(caches: map<string, IdCache>, configs: map<string, ReconcileTable>, sources: string -> RowSource,
                         order: seq<string>, acc: Pass2): Pass2
    decreases |order|
  {
    if |order| == 0 || acc.crash.Some? then acc
    else RewriteTables(caches, configs, sources, order[1..], TableStep(caches, configs, sources, order[0], acc))
  }

  /** The path of a written file and how many rows it holds. */
  datatype FileShape = FileShape(path: string, rowCount: nat)

  function Shapes(files: seq<CsvOut>): (r: seq<FileShape>)
    ensures |r| == |files|
  {
    seq(|files|, i requires 0 <= i < |files| => FileShape(files[i].path, |files[i].rows|))
  }

  lemma ShapesSnoc(files: seq<CsvOut>, out: CsvOut)
    ensures Shapes(files + [out]) == Shapes(files) + [FileShape(out.path, |out.rows|)]
  {
    var a := Shapes(files + [out]);
    var b := Shapes(files) + [FileShape(out.path, |out.rows|)];
    assert |a| == |b|;
    forall i | 0 <= i < |a| ensures a[i] == b[i] {
      if i < |files| {
        assert (files + [out])[i] == files[i];
      }
    }
  }

  /** The files a crash-free second pass is to write: one per table whose
      file has rows, in visiting order, at its corrected path, with as many
      rows as the original. */
  function ExpectedFiles(configs: map<string, ReconcileTable>, sources: string -> RowSource, order: seq<string>): seq<FileShape>
    requires forall i | 0 <= i < |order| :: order[i] in configs
    decreases |order|
  {
    if |order| == 0 then []
    else
      TableFile(configs, sources, order[0]) + ExpectedFiles(configs, sources, order[1..])
  }

  /** The file one table is to produce: none when its file has no rows. */
  function TableFile(configs: map<string, ReconcileTable>, sources: string -> RowSource, key: string): seq<FileShape>
    requires key in configs
  {
    var t := configs[key];
    var rows := SourceRows(sources(t.csvFile));
    if |rows| > 0 then [FileShape(CorrectedPath(t.csvFile), |rows|)] else []
  }

  /** Every visited key is configured, its file readable and the parents its
      foreign keys name configured. */
  predicate Complete(configs: map<string, ReconcileTable>, sources: string -> RowSource, order: seq<string>)
  {
    forall i | 0 <= i < |order| ::
      && order[i] in configs
      && !sources(configs[order[i]].csvFile).Unreadable?
      && forall f | 0 <= f < |configs[order[i]].fks| :: configs[order[i]].fks[f].parentKey in configs
  }

  lemma CompleteTail(configs: map<string, ReconcileTable>, sources: string -> RowSource, order: seq<string>)
    requires |order| > 0 && Complete(configs, sources, order)
    ensures order[0] in configs && !sources(configs[order[0]].csvFile).Unreadable?
    ensures forall f | 0 <= f < |configs[order[0]].fks| :: configs[order[0]].fks[f].parentKey in configs
    ensures Complete(configs, sources, order[1..])
  {
    assert forall i | 0 <= i < |order[1..]| :: order[1..][i] == order[i + 1];
  }

  /** One table of the second pass, when its file is readable and its
      parents configured: no crash, and the expected file, if any, appended. */
  lemma TableStepShape(caches: map<string, IdCache>, configs: map<string, ReconcileTable>, sources: string -> RowSource,
                       key: string, acc: Pass2)
    requires key in configs && !sources(configs[key].csvFile).Unreadable?
    requires forall f | 0 <= f < |configs[key].fks| :: configs[key].fks[f].parentKey in configs
    ensures var r := TableStep(caches, configs, sources, key, acc);
      && r.crash.None?
      && Shapes(r.files) == Shapes(acc.files) + TableFile(configs, sources, key)
  {
    var t := configs[key];
    var rows := SourceRows(sources(t.csvFile));
    var rd := ReadCsv(sources(t.csvFile), t.csvFile);
    assert rd.Success? && rd.value.rows == rows;
    if |rows| > 0 {
      RewriteRowsSucceed(caches, configs, key, t.fks, rows);
      var rw := RewriteRows(caches, configs, key, t.fks, rows).value;
      var out := CsvOut(CorrectedPath(t.csvFile), rows[0].Keys, rw.rows);
      assert TableStep(caches, configs, sources, key, acc) == Pass2(acc.files + [out], acc.notes + rw.notes, None);
      ShapesSnoc(acc.files, out);
    } else {
      assert TableStep(caches, configs, sources, key, acc).files == acc.files;
    }
  }

  /** With every visited key configured, every file readable and every
      parent configured, the second pass does not crash and writes exactly
      the expected files after those already written. */
  lemma {:induction false} RewriteTablesFiles(caches: map<string, IdCache>, configs: map<string, ReconcileTable>,
                                              sources: string -> RowSource, order: seq<string>, acc: Pass2)
    requires acc.crash.None?
    requires Complete(configs, sources, order)
    ensures var r := RewriteTables(caches, configs, sources, order, acc);
      && r.crash.None?
      && Shapes(r.files) == Shapes(acc.files) + ExpectedFiles(configs, sources, order)
    decreases |order|
  {
    if |order| > 0 {
      var tail := order[1..];
      CompleteTail(configs, sources, order);
      TableStepShape(caches, configs, sources, order[0], acc);
      var next := TableStep(caches, configs, sources, order[0], acc);
      RewriteTablesFiles(caches, configs, sources, tail, next);
      var here := TableFile(configs, sources, order[0]);
      assert RewriteTables(caches, configs, sources, order, acc) == RewriteTables(caches, configs, sources, tail, next);
      AppendAssoc(Shapes(acc.files), here, ExpectedFiles(configs, sources, tail));
    }
  }

  /** What the program leaves: whether it got as far as clearing the output
      directory, the files written, the warnings, and the crash that ended
      it, if any. */
  datatype Reconciled = Reconciled(cleared: bool, files: seq<CsvOut>, notes: seq<Note>, crash: Option<Crash>)

  /** `main` once connected: the first pass over every table, then the
      output directory is cleared and the second pass writes the corrected
      files. */
  function Reconcile(lookup: IdLookup, configs: map<string, ReconcileTable>, sources: string -> RowSource,
                     order: seq<string>): (r: Reconciled)
    ensures r.cleared <==> FirstPassClears(lookup, configs, sources, order)
    ensures !r.cleared ==> r.files == [] && r.crash.Some?
  {
    CacheTablesCrash(lookup, configs, sources, order, Pass1(map[], [], None));
    var p1 := CacheTables(lookup, configs, sources, order, Pass1(map[], [], None));
    if p1.crash.Some? then Reconciled(false, [], p1.notes, p1.crash)
    else
      var p2 := RewriteTables(p1.caches, configs, sources, order, Pass2([], [], None));
      Reconciled(true, p2.files, p1.notes + p2.notes, p2.crash)
  }

  /** With a well-formed configuration, readable files and every SELECT
      answered, the program runs
      to the end, and writes exactly one corrected file per table that has
      rows, in processing order. */
  lemma ReconcileCompletes(lookup: IdLookup, configs: map<string, ReconcileTable>, sources: string -> RowSource, order: seq<string>)
    requires WellFormed(configs, order)
    requires forall k | k in configs :: !sources(configs[k].csvFile).Unreadable?
    requires forall k | k in configs :: Answered(lookup, configs[k], SourceRows(sources(configs[k].csvFile)))
    ensures var r := Reconcile(lookup, configs, sources, order);
      && r.cleared && r.crash.None?
      && Shapes(r.files) == ExpectedFiles(configs, sources, order)
  {
    var p1 := CacheTables(lookup, configs, sources, order, Pass1(map[], [], None));
    CacheTablesCrash(lookup, configs, sources, order, Pass1(map[], [], None));
    forall i | 0 <= i < |order|
      ensures forall f | 0 <= f < |configs[order[i]].fks| :: configs[order[i]].fks[f].parentKey in configs
    {
      assert ParentsEarlier(configs[order[i]].fks, order, i);
      forall f | 0 <= f < |configs[order[i]].fks| ensures configs[order[i]].fks[f].parentKey in configs {
        assert configs[order[i]].fks[f].parentKey in order[..i];
      }
    }
    assert Complete(configs, sources, order);
    RewriteTablesFiles(p1.caches, configs, sources, order, Pass2([], [], None));
  }

  // ---------------------------------------------------------------------
  // Consequences for the configuration

  /** The caches the first pass builds from nothing. */
  function FirstPass(lookup: IdLookup, configs: map<string, ReconcileTable>, sources: string -> RowSource,
                     order: seq<string>): Pass1
  {
    CacheTables(lookup, configs, sources, order, Pass1(map[], [], None))
  }

  /** With a well-formed configuration, readable files and every SELECT
      answered, the first pass
      caches every configured table, each from its own rows. */
  lemma FirstPassCachesAll(lookup: IdLookup, configs: map<string, ReconcileTable>, sources: string -> RowSource,
                           order: seq<string>)
    requires WellFormed(configs, order)
    requires FirstPassClears(lookup, configs, sources, order)
    ensures var p := FirstPass(lookup, configs, sources, order);
      && p.crash.None?
      && forall k | k in configs ::
           k in p.caches && p.caches[k] == TableCache(lookup, k, configs[k], SourceRows(sources(configs[k].csvFile))).cache
  {
    CacheTablesResult(lookup, configs, sources, order, Pass1(map[], [], None));
    var p := FirstPass(lookup, configs, sources, order);
    forall k | k in configs
      ensures k in p.caches && p.caches[k] == TableCache(lookup, k, configs[k], SourceRows(sources(configs[k].csvFile))).cache
    {
      assert k in order;
      var i :| 0 <= i < |order| && order[i] == k;
    }
  }

  /** A placeholder whose parent table has no natural key is never
      resolved, whatever the database holds. */
  lemma UnkeyedParentUnresolvable(lookup: IdLookup, configs: map<string, ReconcileTable>, sources: string -> RowSource,
                                  order: seq<string>, fk: FkConfig, v: string)
    requires WellFormed(configs, order)
    requires FirstPassClears(lookup, configs, sources, order)
    requires fk.parentKey in configs && !Truthy(configs[fk.parentKey].naturalKeyInCsv)
    ensures ResolvePlaceholder(FirstPass(lookup, configs, sources, order).caches, fk, v).None?
  {
    FirstPassCachesAll(lookup, configs, sources, order);
    var p := fk.parentKey;
    UnkeyedParentNeverResolves(lookup, FirstPass(lookup, configs, sources, order).caches, fk,
                               configs[p], SourceRows(sources(configs[p].csvFile)), v);
  }

  /** In the shipped configuration the `order_id` placeholders of
      `Order_Item`, `Payment_Transaction` and `Shipping_Logistics` are never
      rewritten, because `Order` has no natural key. */
  lemma OrderPlaceholdersUnresolvable(lookup: IdLookup, sources: string -> RowSource, k: string, v: string)
    requires FirstPassClears(lookup, TableConfigs, sources, ProcessingOrder)
    requires k in {"Order_Item", "Payment_Transaction", "Shipping_Logistics"}
    ensures k in TableConfigs && |TableConfigs[k].fks| > 0
    ensures ResolvePlaceholder(FirstPass(lookup, TableConfigs, sources, ProcessingOrder).caches, TableConfigs[k].fks[0], v).None?
  {
    ConfigWellFormed();
    OrderChildren();
    UnkeyedParentUnresolvable(lookup, TableConfigs, sources, ProcessingOrder, TableConfigs[k].fks[0], v);
  }
}
