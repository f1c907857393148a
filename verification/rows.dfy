/** Column mappings, row sources and the normalisation of one CSV record into
    the parameter tuple of an INSERT. */
module Rows {
  import opened Basics

  /** One entry of a CSV-header -> database-column mapping. */
  datatype ColumnMapping = ColumnMapping(header: string, column: string)

  /** An insertion-ordered mapping, as a Python dict literal keeps it. */
  type ColumnMap = seq<ColumnMapping>

  function Headers(m: ColumnMap): (hs: seq<string>)
    ensures |hs| == |m|
    ensures forall j | 0 <= j < |m| :: hs[j] == m[j].header
  {
    seq(|m|, j requires 0 <= j < |m| => m[j].header)
  }

  function Columns(m: ColumnMap): (cs: seq<string>)
    ensures |cs| == |m|
    ensures forall j | 0 <= j < |m| :: cs[j] == m[j].column
  {
    seq(|m|, j requires 0 <= j < |m| => m[j].column)
  }

  /** What reading a CSV file yields: no file, a file that cannot be read
      or parsed, or its records in file order. */
  datatype RowSource = Missing | Unreadable | Rows(rows: seq<Row>)

  /** The parameter tuple of a CSV record: one value per mapped header, in
      mapping order; an absent field or an empty string becomes NULL and
      every other cell is passed through unchanged. */
  function Normalise(row: Row, headers: seq<string>): (vs: seq<Value>)
    ensures |vs| == |headers|
    ensures forall j | 0 <= j < |headers| :: vs[j].Null? <==> (headers[j] !in row || row[headers[j]] == "")
    ensures forall j | 0 <= j < |headers| :: vs[j].Text? ==> vs[j].s == row[headers[j]]
    decreases |headers|
  {
    if |headers| == 0 then []
    else [FieldValue(row, headers[0])] + Normalise(row, headers[1..])
  }

  /** Only the mapped headers matter: records that agree on them give the
      same tuple, whatever other fields they carry. */
  lemma NormaliseFrame(a: Row, b: Row, headers: seq<string>)
    requires forall j | 0 <= j < |headers| :: (headers[j] in a <==> headers[j] in b)
    requires forall j | 0 <= j < |headers| && headers[j] in a :: a[headers[j]] == b[headers[j]]
    ensures Normalise(a, headers) == Normalise(b, headers)
  {
    var va := Normalise(a, headers);
    var vb := Normalise(b, headers);
    forall j | 0 <= j < |headers| ensures va[j] == vb[j] {
    }
  }

  /** A record of the web application's editor: column -> value, where a
      pandas missing value is NULL. */
  type Record = map<string, Value>

  /** The parameters of one edited record, one per table column: an absent
      or missing cell becomes NULL, and an empty string stays a string. */
  function RecordValues(record: Record, columns: seq<string>): (vs: seq<Value>)
    ensures |vs| == |columns|
    ensures forall j | 0 <= j < |columns| :: vs[j].Null? <==> (columns[j] !in record || record[columns[j]].Null?)
    ensures forall j | 0 <= j < |columns| :: vs[j].Text? ==> columns[j] in record && vs[j] == record[columns[j]]
    decreases |columns|
  {
    if |columns| == 0 then []
    else [if columns[0] in record then record[columns[0]] else Null] + RecordValues(record, columns[1..])
  }

  /** A record is kept by the editor unless every column is missing or every
      column holds the empty string. */
  predicate IsFilledRecord(record: Record, columns: seq<string>)
  {
    && !(forall j | 0 <= j < |columns| :: columns[j] !in record || record[columns[j]].Null?)
    && !(forall j | 0 <= j < |columns| :: columns[j] in record && record[columns[j]] == Text(""))
  }

  /** The records the editor saves, in table order. */
  function FilledRecords(records: seq<Record>, columns: seq<string>): (r: seq<Record>)
    ensures |r| <= |records|
    ensures forall k | 0 <= k < |r| :: r[k] in records && IsFilledRecord(r[k], columns)
    ensures forall k | 0 <= k < |records| :: IsFilledRecord(records[k], columns) ==> records[k] in r
    decreases |records|
  {
    if |records| == 0 then []
    else
      var rest := FilledRecords(records[1..], columns);
      assert forall k | 0 <= k < |records[1..]| :: records[1..][k] == records[k + 1];
      if IsFilledRecord(records[0], columns) then [records[0]] + rest else rest
  }

  /** A single record is kept exactly when it is filled. */
  lemma FilledRecordsSingle(x: Record, columns: seq<string>)
    ensures FilledRecords([x], columns) == if IsFilledRecord(x, columns) then [x] else []
  {
    assert [x][1..] == [];
  }

  /** Filtering keeps order and multiplicity: the records kept from two
      stretches of the table are those kept from each, one after the other. */
  lemma {:induction false} FilledRecordsAppend(a: seq<Record>, b: seq<Record>, columns: seq<string>)
    ensures FilledRecords(a + b, columns) == FilledRecords(a, columns) + FilledRecords(b, columns)
    decreases |a|
  {
    if |a| == 0 {
      assert a + b == b;
    } else {
      assert (a + b)[0] == a[0];
      assert (a + b)[1..] == a[1..] + b;
      FilledRecordsAppend(a[1..], b, columns);
    }
  }
}
