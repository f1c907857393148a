/** The SQL text the loaders build: savepoint names, quoted column lists,
    `%s` placeholder lists and the parameterised INSERT statement. */
module SqlText {
  import opened Basics
  import opened Decimal

  /** ASCII letters and digits (the characters `str.isalnum` accepts in the
      table identifiers the loaders use). */
  predicate IsAlnum(c: char)
  {
    ('a' <= c <= 'z') || ('A' <= c <= 'Z') || ('0' <= c <= '9')
  }

  /** A name SQL accepts unquoted after SAVEPOINT: letters, digits and `_`. */
  predicate IsPlainName(s: string)
  {
    forall i | 0 <= i < |s| :: IsAlnum(s[i]) || s[i] == '_'
  }

  /** Every character that is not alphanumeric becomes `_`. */
  function SafeIdentifier(t: string): (r: string)
    ensures |r| == |t|
    ensures forall i | 0 <= i < |t| :: IsAlnum(t[i]) ==> r[i] == t[i]
    ensures forall i | 0 <= i < |t| :: !IsAlnum(t[i]) ==> r[i] == '_'
    decreases |t|
  {
    if |t| == 0 then ""
    else [if IsAlnum(t[0]) then t[0] else '_'] + SafeIdentifier(t[1..])
  }

  /** The sanitised identifier is a plain name, and sanitising is idempotent. */
  lemma SafeIdentifierIsPlain(t: string)
    ensures IsPlainName(SafeIdentifier(t))
    ensures SafeIdentifier(SafeIdentifier(t)) == SafeIdentifier(t)
  {
    var r := SafeIdentifier(t);
    var rr := SafeIdentifier(r);
    assert forall i | 0 <= i < |r| :: rr[i] == r[i];
  }

  /** The quoted `"order"` table gives `_order_`. */
  lemma SafeOrderIdentifier()
    ensures SafeIdentifier("\"order\"") == "_order_"
  {
  }

  lemma DigitsArePlain(s: string)
    requires AllDigits(s)
    ensures IsPlainName(s)
  {
  }

  lemma PlainConcat(a: string, b: string)
    requires IsPlainName(a) && IsPlainName(b)
    ensures IsPlainName(a + b)
  {
    forall i | 0 <= i < |a + b| ensures IsAlnum((a + b)[i]) || (a + b)[i] == '_' {
      if i >= |a| { assert (a + b)[i] == b[i - |a|]; }
    }
  }

  /** Savepoint of row `i` of a table in the command-line loader. */
  function CsvSavepointName(table: string, i: nat): string
  {
    "sp_csv_" + SafeIdentifier(table) + "_row_" + NatToString(i)
  }

  /** Savepoint of row `i` of a file load in the web application. */
  function AppSavepointName(i: nat): string
  {
    "sp_row_" + NatToString(i)
  }

  /** Savepoint of record `i` in the web application's record editor. */
  function EditorSavepointName(i: nat): string
  {
    "sp_editor_row_" + NatToString(i)
  }

  /** Suffixes behind a common prefix are equal when the strings are. */
  lemma SuffixCancel(p: string, a: string, b: string)
    requires p + a == p + b
    ensures a == b
  {
    assert a == (p + a)[|p|..];
    assert b == (p + b)[|p|..];
  }

  /** Every command-line savepoint name is a plain SQL name, and two rows of
      the same table never share one. */
  lemma CsvSavepointNameProperties(table: string, i: nat, j: nat)
    ensures IsPlainName(CsvSavepointName(table, i))
    ensures i != j ==> CsvSavepointName(table, i) != CsvSavepointName(table, j)
  {
    SafeIdentifierIsPlain(table);
    assert IsPlainName("sp_csv_");
    assert IsPlainName("_row_");
    PlainConcat("sp_csv_", SafeIdentifier(table));
    PlainConcat("sp_csv_" + SafeIdentifier(table), "_row_");
    DigitsArePlain(NatToString(i));
    PlainConcat("sp_csv_" + SafeIdentifier(table) + "_row_", NatToString(i));
    if CsvSavepointName(table, i) == CsvSavepointName(table, j) {
      SuffixCancel("sp_csv_" + SafeIdentifier(table) + "_row_", NatToString(i), NatToString(j));
      NatToStringInjective(i, j);
    }
  }

  /** The same for the web application's row and editor savepoints. */
  lemma AppSavepointNameProperties(i: nat, j: nat)
    ensures IsPlainName(AppSavepointName(i)) && IsPlainName(EditorSavepointName(i))
    ensures i != j ==> AppSavepointName(i) != AppSavepointName(j)
    ensures i != j ==> EditorSavepointName(i) != EditorSavepointName(j)
  {
    assert IsPlainName("sp_row_");
    assert IsPlainName("sp_editor_row_");
    DigitsArePlain(NatToString(i));
    PlainConcat("sp_row_", NatToString(i));
    PlainConcat("sp_editor_row_", NatToString(i));
    if AppSavepointName(i) == AppSavepointName(j) {
      SuffixCancel("sp_row_", NatToString(i), NatToString(j));
      NatToStringInjective(i, j);
    }
    if EditorSavepointName(i) == EditorSavepointName(j) {
      SuffixCancel("sp_editor_row_", NatToString(i), NatToString(j));
      NatToStringInjective(i, j);
    }
  }

  /** The savepoint of row 0 of the quoted `"order"` table. */
  lemma OrderTableSavepoint()
    ensures CsvSavepointName("\"order\"", 0) == "sp_csv__order__row_0"
  {
    SafeOrderIdentifier();
  }

  // ---------------------------------------------------------------------
  // The parameterised INSERT statement

  /** The statement the sink executes: target table (as written into the
      SQL), destination columns in order, and the column RETURNING names. */
  datatype InsertStatement = InsertStatement(target: string, columns: seq<string>, returning: Option<string>)

  /** `"col"`: a column name wrapped in double quotes. */
  function Quote(c: string): string
  {
    "\"" + c + "\""
  }

  /** The column names, each in double quotes, separated by a comma and a
      space. */
  function ColumnList(cols: seq<string>): string
    decreases |cols|
  {
    if |cols| == 0 then ""
    else if |cols| == 1 then Quote(cols[0])
    else Quote(cols[0]) + ", " + ColumnList(cols[1..])
  }

  /** `n` parameter markers `%s`, separated by a comma and a space. */
  function PlaceholderList(n: nat): string
    decreases n
  {
    if n == 0 then "" else if n == 1 then "%s" else "%s, " + PlaceholderList(n - 1)
  }

  /** The INSERT text of the command-line loader (main.py), verbatim
      including its indentation. */
  function MainInsertSql(target: string, cols: seq<string>, idColumn: string): string
  {
    "        INSERT INTO " + target + " (" + ColumnList(cols) + ")\n"
      + "        VALUES (" + PlaceholderList(|cols|) + ")\n"
      + "        RETURNING \"" + idColumn + "\";\n    "
  }

  /** The INSERT text of the web application's file loader (app.py). */
  function AppInsertSql(target: string, cols: seq<string>, idColumn: string): string
  {
    "\n        INSERT INTO " + target + " (" + ColumnList(cols) + ")\n"
      + "        VALUES (" + PlaceholderList(|cols|) + ") RETURNING \"" + idColumn + "\";\n    "
  }

  /** A string no one can mistake for a parameter marker. */
  predicate NoMarker(s: string)
  {
    '%' !in s
  }

  /** Number of `%` characters, the driver's parameter markers. */
  function Markers(s: string): nat
    decreases |s|
  {
    if |s| == 0 then 0 else (if s[0] == '%' then 1 else 0) + Markers(s[1..])
  }

  /** The placeholder list holds exactly one `%` per placeholder. */
  lemma {:induction false} PlaceholderMarkers(n: nat)
    ensures Markers(PlaceholderList(n)) == n
    decreases n
  {
    if n == 1 {
      assert Markers("s") == 0;
    } else if n > 1 {
      PlaceholderMarkers(n - 1);
      MarkersSum("%s, ", PlaceholderList(n - 1));
      assert Markers("s, ") == 0 by { MarkerFree("s, "); }
    }
  }

  /** A column list of marker-free names contains no marker. */
  lemma {:induction false} ColumnListMarkers(cols: seq<string>)
    requires forall i | 0 <= i < |cols| :: NoMarker(cols[i])
    ensures Markers(ColumnList(cols)) == 0
    decreases |cols|
  {
    if |cols| > 0 {
      MarkerFree(Quote(cols[0]));
    }
    if |cols| > 1 {
      ColumnListMarkers(cols[1..]);
      MarkerFree(", ");
      MarkersSum(Quote(cols[0]), ", ");
      MarkersSum(Quote(cols[0]) + ", ", ColumnList(cols[1..]));
    }
  }

  /** With marker-free identifiers, the statement carries exactly one `%s`
      marker per inserted column, so the driver binds one value per column. */
  lemma InsertSqlMarkers(target: string, cols: seq<string>, idColumn: string)
    requires NoMarker(target) && NoMarker(idColumn)
    requires forall i | 0 <= i < |cols| :: NoMarker(cols[i])
    ensures Markers(MainInsertSql(target, cols, idColumn)) == |cols|
    ensures Markers(AppInsertSql(target, cols, idColumn)) == |cols|
  {
    MainSqlMarkers(target, cols, idColumn);
    AppSqlMarkers(target, cols, idColumn);
  }

  lemma MainSqlMarkers(target: string, cols: seq<string>, idColumn: string)
    requires NoMarker(target) && NoMarker(idColumn)
    requires forall i | 0 <= i < |cols| :: NoMarker(cols[i])
    ensures Markers(MainInsertSql(target, cols, idColumn)) == |cols|
  {
    var cl := ColumnList(cols);
    var pl := PlaceholderList(|cols|);
    PlaceholderMarkers(|cols|);
    ColumnListMarkers(cols);
    MarkerFree(target);
    MarkerFree(idColumn);
    InsertIntoMarkerFree();
    OpenParenMarkerFree();
    CloseLineMarkerFree();
    ValuesMarkerFree();
    ReturningMarkerFree();
    StatementEndMarkerFree();
    var x1 := "        INSERT INTO " + target;
    MarkersSum("        INSERT INTO ", target);
    var x2 := x1 + " (";
    MarkersSum(x1, " (");
    var x3 := x2 + cl;
    MarkersSum(x2, cl);
    var x4 := x3 + ")\n";
    MarkersSum(x3, ")\n");
    var x5 := x4 + "        VALUES (";
    MarkersSum(x4, "        VALUES (");
    var x6 := x5 + pl;
    MarkersSum(x5, pl);
    var x7 := x6 + ")\n";
    MarkersSum(x6, ")\n");
    var x8 := x7 + "        RETURNING \"";
    MarkersSum(x7, "        RETURNING \"");
    var x9 := x8 + idColumn;
    MarkersSum(x8, idColumn);
    MarkersSum(x9, "\";\n    ");
  }

  lemma AppSqlMarkers(target: string, cols: seq<string>, idColumn: string)
    requires NoMarker(target) && NoMarker(idColumn)
    requires forall i | 0 <= i < |cols| :: NoMarker(cols[i])
    ensures Markers(AppInsertSql(target, cols, idColumn)) == |cols|
  {
    var cl := ColumnList(cols);
    var pl := PlaceholderList(|cols|);
    PlaceholderMarkers(|cols|);
    ColumnListMarkers(cols);
    MarkerFree(target);
    MarkerFree(idColumn);
    AppInsertIntoMarkerFree();
    OpenParenMarkerFree();
    CloseLineMarkerFree();
    ValuesMarkerFree();
    AppReturningMarkerFree();
    StatementEndMarkerFree();
    var x1 := "\n        INSERT INTO " + target;
    MarkersSum("\n        INSERT INTO ", target);
    var x2 := x1 + " (";
    MarkersSum(x1, " (");
    var x3 := x2 + cl;
    MarkersSum(x2, cl);
    var x4 := x3 + ")\n";
    MarkersSum(x3, ")\n");
    var x5 := x4 + "        VALUES (";
    MarkersSum(x4, "        VALUES (");
    var x6 := x5 + pl;
    MarkersSum(x5, pl);
    var x7 := x6 + ") RETURNING \"";
    MarkersSum(x6, ") RETURNING \"");
    var x8 := x7 + idColumn;
    MarkersSum(x7, idColumn);
    MarkersSum(x8, "\";\n    ");
  }

  // The fixed pieces of the statement text carry no marker.
  lemma InsertIntoMarkerFree() ensures Markers("        INSERT INTO ") == 0 { MarkerFree("        INSERT INTO "); }
  lemma AppInsertIntoMarkerFree() ensures Markers("\n        INSERT INTO ") == 0 { MarkerFree("\n        INSERT INTO "); }
  lemma OpenParenMarkerFree() ensures Markers(" (") == 0 { MarkerFree(" ("); }
  lemma CloseLineMarkerFree() ensures Markers(")\n") == 0 { MarkerFree(")\n"); }
  lemma ValuesMarkerFree() ensures Markers("        VALUES (") == 0 { MarkerFree("        VALUES ("); }
  lemma ReturningMarkerFree() ensures Markers("        RETURNING \"") == 0 { MarkerFree("        RETURNING \""); }
  lemma AppReturningMarkerFree() ensures Markers(") RETURNING \"") == 0 { MarkerFree(") RETURNING \""); }
  lemma StatementEndMarkerFree() ensures Markers("\";\n    ") == 0 { MarkerFree("\";\n    "); }

  lemma {:induction false} MarkersSum(a: string, b: string)
    ensures Markers(a + b) == Markers(a) + Markers(b)
    decreases |a|
  {
    if |a| == 0 {
      assert a + b == b;
    } else {
      assert (a + b)[1..] == a[1..] + b;
      MarkersSum(a[1..], b);
    }
  }

  lemma {:induction false} MarkerFree(s: string)
    requires NoMarker(s)
    ensures Markers(s) == 0
    decreases |s|
  {
    if |s| > 0 {
      assert NoMarker(s[1..]);
      MarkerFree(s[1..]);
    }
  }

  // ---------------------------------------------------------------------
  // Reading a column list back

  /** Position of the first `"` at or after `from`, or `|s|` if none. */
  function FindQuote(s: string, from: nat): (k: nat)
    requires from <= |s|
    ensures from <= k <= |s|
    ensures forall j | from <= j < k :: s[j] != '"'
    ensures k < |s| ==> s[k] == '"'
    decreases |s| - from
  {
    if from == |s| then from
    else if s[from] == '"' then from
    else FindQuote(s, from + 1)
  }

  /** Reads `"a", "b", ...` back into its names; `None` when the text is not
      such a list. The empty text is the empty list. */
  function ParseColumnList(s: string): Option<seq<string>>
  {
    if |s| == 0 then Some([]) else ParseQuotedItems(s)
  }

  function ParseQuotedItems(s: string): Option<seq<string>>
    decreases |s|
  {
    if |s| < 2 || s[0] != '"' then None
    else
      var k := FindQuote(s, 1);
      if k == |s| then None
      else
        var rest := s[k + 1..];
        if |rest| == 0 then Some([s[1..k]])
        else if |rest| >= 2 && rest[0] == ',' && rest[1] == ' ' then
          match ParseQuotedItems(rest[2..])
          case None => None
          case Some(more) => Some([s[1..k]] + more)
        else None
  }

  /** Column names the list can carry without ambiguity. */
  predicate Unquoted(cols: seq<string>)
  {
    forall i | 0 <= i < |cols| :: '"' !in cols[i]
  }

  /** The quoted column list names exactly the given columns, in order. */
  lemma {:induction false} ColumnListRoundTrip(cols: seq<string>)
    requires Unquoted(cols)
    ensures ParseColumnList(ColumnList(cols)) == Some(cols)
    decreases |cols|
  {
    if |cols| > 0 {
      ItemsRoundTrip(cols);
    }
  }

  lemma {:induction false} ItemsRoundTrip(cols: seq<string>)
    requires |cols| > 0 && Unquoted(cols)
    ensures ParseQuotedItems(ColumnList(cols)) == Some(cols)
    decreases |cols|
  {
    if |cols| == 1 {
      assert ColumnList(cols) == Quote(cols[0]);
      ParseSingleItem(ColumnList(cols), cols[0]);
      assert [cols[0]] == cols;
    } else {
      UnquotedTail(cols);
      ItemsRoundTrip(cols[1..]);
      assert ColumnList(cols) == Quote(cols[0]) + ", " + ColumnList(cols[1..]);
      ParseItemCons(ColumnList(cols), cols[0], ColumnList(cols[1..]), cols[1..]);
      assert [cols[0]] + cols[1..] == cols;
    }
  }

  lemma UnquotedTail(cols: seq<string>)
    requires |cols| > 0 && Unquoted(cols)
    ensures '"' !in cols[0] && Unquoted(cols[1..])
  {
    assert forall i | 0 <= i < |cols[1..]| :: cols[1..][i] == cols[i + 1];
  }

  /** A single quoted name reads back as itself. */
  lemma ParseSingleItem(s: string, c: string)
    requires '"' !in c && s == Quote(c)
    ensures ParseQuotedItems(s) == Some([c])
  {
    assert s == Quote(c) + "";
    QuotedItemSplit(s, c, "");
  }

  /** A quoted name followed by `, ` and a list reads back as that name in
      front of the list. */
  lemma ParseItemCons(s: string, c: string, t: string, more: seq<string>)
    requires '"' !in c && s == Quote(c) + ", " + t
    requires ParseQuotedItems(t) == Some(more)
    ensures ParseQuotedItems(s) == Some([c] + more)
  {
    AppendAssoc(Quote(c), ", ", t);
    QuotedItemSplit(s, c, ", " + t);
    var rest := s[|c| + 2..];
    assert rest[2..] == t;
  }

  /** The first item of a quoted list ends at the quote that closes it. */
  lemma QuotedItemSplit(s: string, c: string, tail: string)
    requires '"' !in c && s == Quote(c) + tail
    ensures FindQuote(s, 1) == |c| + 1
    ensures s[1..|c| + 1] == c && s[|c| + 2..] == tail
  {
    assert forall j | 1 <= j < |c| + 1 :: s[j] == c[j - 1];
    FindQuoteAt(s, 1, |c| + 1);
  }

  lemma FindQuoteAt(s: string, from: nat, k: nat)
    requires from <= k < |s| && s[k] == '"'
    requires forall j | from <= j < k :: s[j] != '"'
    ensures FindQuote(s, from) == k
  {
  }

  /** Conversely, any text the reader accepts is the rendering of the names
      it returns, and those names contain no `"`. */
  lemma {:induction false} ParsedItemsRender(s: string, cols: seq<string>)
    requires ParseQuotedItems(s) == Some(cols)
    ensures |cols| > 0 && Unquoted(cols)
    ensures ColumnList(cols) == s
    decreases |s|
  {
    var k := FindQuote(s, 1);
    ParseUnfold(s);
    var rest := s[k + 1..];
    QuotedHead(s, k);
    if |rest| > 0 {
      var more := ParseQuotedItems(rest[2..]).value;
      ParsedItemsRender(rest[2..], more);
      RenderCons(s, s[1..k], rest, more, cols);
    }
  }

  /** Gluing one quoted name in front of a rendered list. */
  lemma RenderCons(s: string, name: string, rest: string, more: seq<string>, cols: seq<string>)
    requires cols == [name] + more && |more| > 0
    requires '"' !in name && Unquoted(more)
    requires |rest| >= 2 && rest[0] == ',' && rest[1] == ' '
    requires ColumnList(more) == rest[2..]
    requires s == Quote(name) + rest
    ensures Unquoted(cols) && ColumnList(cols) == s
  {
    ColumnListCons(name, more);
    UnquotedCons(name, more);
    assert rest == ", " + rest[2..];
    AppendAssoc(Quote(name), ", ", rest[2..]);
  }

  /** One step of the reader: a quoted name, then the end or `, ` and more. */
  lemma ParseUnfold(s: string)
    requires ParseQuotedItems(s).Some?
    ensures |s| >= 2 && s[0] == '"' && FindQuote(s, 1) < |s|
    ensures var k := FindQuote(s, 1);
      |s[k + 1..]| == 0 ==> ParseQuotedItems(s).value == [s[1..k]]
    ensures var k := FindQuote(s, 1);
      |s[k + 1..]| > 0 ==>
        && |s[k + 1..]| >= 2 && s[k + 1] == ',' && s[k + 2] == ' '
        && ParseQuotedItems(s[k + 1..][2..]).Some?
        && ParseQuotedItems(s).value == [s[1..k]] + ParseQuotedItems(s[k + 1..][2..]).value
  {
  }

  lemma ColumnListCons(c: string, more: seq<string>)
    requires |more| > 0
    ensures ColumnList([c] + more) == Quote(c) + ", " + ColumnList(more)
  {
    assert ([c] + more)[1..] == more;
  }

  lemma UnquotedCons(c: string, more: seq<string>)
    requires '"' !in c && Unquoted(more)
    ensures Unquoted([c] + more)
  {
    var cols := [c] + more;
    forall i | 0 <= i < |cols| ensures '"' !in cols[i] {
      if i > 0 { assert cols[i] == more[i - 1]; }
    }
  }

  /** The text up to the closing quote is one quoted, quote-free name. */
  lemma QuotedHead(s: string, k: nat)
    requires 1 <= k < |s| && s[0] == '"' && k == FindQuote(s, 1)
    ensures '"' !in s[1..k]
    ensures s == Quote(s[1..k]) + s[k + 1..]
  {
    var name := s[1..k];
    forall j | 0 <= j < |name| ensures name[j] != '"' { assert name[j] == s[1 + j]; }
    var q := Quote(name);
    assert |q| == k + 1;
    forall j | 0 <= j < |s| ensures s[j] == (q + s[k + 1..])[j] {
      if j == 0 {
      } else if j < k {
        assert q[j] == name[j - 1];
      } else if j == k {
      } else {
        assert (q + s[k + 1..])[j] == s[k + 1..][j - (k + 1)];
      }
    }
  }

  /** A text is read as a column list exactly when it is the rendering of
      those (quote-free) names. */
  lemma ColumnListBijection(s: string, cols: seq<string>)
    ensures ParseColumnList(s) == Some(cols) <==> Unquoted(cols) && ColumnList(cols) == s
  {
    if ParseColumnList(s) == Some(cols) && |s| > 0 {
      ParsedItemsRender(s, cols);
    }
    if Unquoted(cols) && ColumnList(cols) == s {
      ColumnListRoundTrip(cols);
    }
  }
}
