/** CSV reports (analytics/src/reports.ts) and an LF-terminated reader after section 2 of RFC 4180. */
module CsvReport {
  import opened Wrappers
  import opened Text

  const QUOTE: CodeUnit := 34
  const COMMA: CodeUnit := 44
  const LF: CodeUnit := 10

  /** A row of a report: its columns in order; None stands for null and undefined. */
  type Row = seq<(Units, Option<Units>)>

  predicate NeedsQuotes(s: Units) {
    QUOTE in s || COMMA in s || LF in s
  }

  function CellText(value: Option<Units>): Units {
    if value.Some? then value.value else []
  }

  function CsvCell(s: Units): Units {
    if NeedsQuotes(s) then [QUOTE] + ReplaceAll(s, QUOTE, [QUOTE, QUOTE]) + [QUOTE] else s
  }

  /** `r[h]` as text. */
  function Lookup(row: Row, header: Units): Units {
    if row == [] then []
    else if row[0].0 == header then CellText(row[0].1)
    else Lookup(row[1..], header)
  }

  function Headers(row: Row): (hs: seq<Units>)
    ensures |hs| == |row|
  {
    seq(|row|, i requires 0 <= i < |row| => row[i].0)
  }

  function Cells(row: Row, headers: seq<Units>): (cells: seq<Units>)
    ensures |cells| == |headers|
  {
    seq(|headers|, i requires 0 <= i < |headers| => Lookup(row, headers[i]))
  }

  /** Fields joined by commas, with the line feed that ends the line. */
  function Line(fields: seq<Units>): Units {
    if fields == [] then [LF]
    else fields[0] + (if |fields| == 1 then [LF] else [COMMA] + Line(fields[1..]))
  }

  function Printed(cells: seq<Units>): (r: seq<Units>)
    ensures |r| == |cells|
  {
    seq(|cells|, i requires 0 <= i < |cells| => CsvCell(cells[i]))
  }

  function Lines(rows: seq<Row>, headers: seq<Units>): Units {
    if rows == [] then [] else Line(Printed(Cells(rows[0], headers))) + Lines(rows[1..], headers)
  }

  function ToCsv(rows: seq<Row>): Units {
    if rows == [] then [] else Line(Headers(rows[0])) + Lines(rows, Headers(rows[0]))
  }

  // ---- Reading ----

  /** A quoted field, after its opening quote. */
  function ReadQuoted(s: Units): (r: Option<(Units, Units)>)
    ensures r.Some? ==> |r.value.1| < |s|
  {
    if s == [] then None
    else if s[0] != QUOTE then Prepend(s[0], ReadQuoted(s[1..]))
    else if |s| > 1 && s[1] == QUOTE then Prepend(QUOTE, ReadQuoted(s[2..]))
    else Some(([], s[1..]))
  }

  /** An unquoted field ends before a comma or a line feed and holds no quote. */
  function ReadPlain(s: Units): (r: Option<(Units, Units)>)
    ensures r.Some? ==> |r.value.1| <= |s|
  {
    if s == [] || s[0] == QUOTE then None
    else if s[0] == COMMA || s[0] == LF then Some(([], s))
    else Prepend(s[0], ReadPlain(s[1..]))
  }

  function Prepend(u: CodeUnit, r: Option<(Units, Units)>): (t: Option<(Units, Units)>)
    ensures t.Some? == r.Some?
    ensures t.Some? ==> t.value.1 == r.value.1
  {
    match r
    case None => None
    case Some((text, rest)) => Some(([u] + text, rest))
  }

  function ReadField(s: Units): (r: Option<(Units, Units)>)
    ensures r.Some? ==> |r.value.1| <= |s|
  {
    if s != [] && s[0] == QUOTE then ReadQuoted(s[1..]) else ReadPlain(s)
  }

  function ReadRecord(s: Units): (r: Option<(seq<Units>, Units)>)
    ensures r.Some? ==> |r.value.1| < |s|
    decreases |s|
  {
    match ReadField(s)
    case None => None
    case Some((field, rest)) =>
      if rest == [] then None
      else if rest[0] == LF then Some(([field], rest[1..]))
      else if rest[0] != COMMA then None
      else
        match ReadRecord(rest[1..])
        case None => None
        case Some((fields, after)) => Some(([field] + fields, after))
  }

  function ReadCsv(s: Units): Option<seq<seq<Units>>>
    decreases |s|
  {
    if s == [] then Some([])
    else
      match ReadRecord(s)
      case None => None
      case Some((fields, rest)) =>
        match ReadCsv(rest)
        case None => None
        case Some(records) => Some([fields] + records)
  }

  // ---- Round trip ----

  lemma {:induction false} QuotedIsRead(s: Units, rest: Units)
    requires rest == [] || rest[0] != QUOTE
    ensures ReadQuoted(ReplaceAll(s, QUOTE, [QUOTE, QUOTE]) + [QUOTE] + rest) == Some((s, rest))
  {
    var printed := ReplaceAll(s, QUOTE, [QUOTE, QUOTE]) + [QUOTE] + rest;
    if s == [] {
      assert printed == [QUOTE] + rest;
    } else {
      QuotedIsRead(s[1..], rest);
      var head := if s[0] == QUOTE then [QUOTE, QUOTE] else [s[0]];
      var tail := ReplaceAll(s[1..], QUOTE, [QUOTE, QUOTE]) + [QUOTE] + rest;
      assert printed == head + tail;
      assert printed[|head|..] == tail;
      assert s == [s[0]] + s[1..];
    }
  }

  lemma {:induction false} PlainIsRead(s: Units, rest: Units)
    requires !NeedsQuotes(s) && rest != [] && (rest[0] == COMMA || rest[0] == LF)
    ensures ReadPlain(s + rest) == Some((s, rest))
  {
    if s == [] {
      assert s + rest == rest;
    } else {
      PlainIsRead(s[1..], rest);
      assert (s + rest)[1..] == s[1..] + rest;
      assert s == [s[0]] + s[1..];
    }
  }

  lemma QuotedOpens(body: Units, rest: Units)
    ensures
      var printed := [QUOTE] + body + [QUOTE] + rest;
      printed[0] == QUOTE && printed[1..] == body + [QUOTE] + rest
  {
  }

  /** A printed cell that is followed by a separator reads back as the cell. */
  lemma CellIsRead(s: Units, rest: Units)
    requires rest != [] && (rest[0] == COMMA || rest[0] == LF)
    ensures ReadField(CsvCell(s) + rest) == Some((s, rest))
  {
    if NeedsQuotes(s) {
      QuotedIsRead(s, rest);
      QuotedOpens(ReplaceAll(s, QUOTE, [QUOTE, QUOTE]), rest);
    } else {
      PlainIsRead(s, rest);
      assert s != [] ==> (s + rest)[0] == s[0];
    }
  }

  lemma LastFieldEnds(s: Units, cell: Units, rest: Units)
    requires ReadField(s) == Some((cell, [LF] + rest))
    ensures ReadRecord(s) == Some(([cell], rest))
  {
    assert ([LF] + rest)[1..] == rest;
  }

  lemma FieldGoesOn(s: Units, cell: Units, others: Units, cells: seq<Units>, rest: Units)
    requires ReadField(s) == Some((cell, [COMMA] + others)) && ReadRecord(others) == Some((cells, rest))
    ensures ReadRecord(s) == Some(([cell] + cells, rest))
  {
    assert ([COMMA] + others)[1..] == others;
  }

  lemma LineParts(fields: seq<Units>, rest: Units)
    requires fields != []
    ensures |fields| == 1 ==> Line(fields) + rest == fields[0] + ([LF] + rest)
    ensures |fields| > 1 ==> Line(fields) + rest == fields[0] + ([COMMA] + (Line(fields[1..]) + rest))
  {
    if |fields| == 1 {
      Assoc(fields[0], [LF], rest);
    } else {
      var more := Line(fields[1..]);
      Assoc(fields[0], [COMMA] + more, rest);
      Assoc([COMMA], more, rest);
    }
  }

  lemma {:induction false} LineIsRead(cells: seq<Units>, rest: Units)
    requires cells != []
    ensures ReadRecord(Line(Printed(cells)) + rest) == Some((cells, rest))
  {
    var fields, others := Printed(cells), Printed(cells[1..]);
    assert fields[1..] == others;
    var s := Line(fields) + rest;
    LineParts(fields, rest);
    if |cells| == 1 {
      CellIsRead(cells[0], [LF] + rest);
      LastFieldEnds(s, cells[0], rest);
      assert cells == [cells[0]];
    } else {
      var more := Line(others) + rest;
      CellIsRead(cells[0], [COMMA] + more);
      LineIsRead(cells[1..], rest);
      FieldGoesOn(s, cells[0], more, cells[1..], rest);
      assert cells == [cells[0]] + cells[1..];
    }
  }

  function AllCells(rows: seq<Row>, headers: seq<Units>): seq<seq<Units>> {
    if rows == [] then [] else [Cells(rows[0], headers)] + AllCells(rows[1..], headers)
  }

  lemma {:induction false} LinesAreRead(rows: seq<Row>, headers: seq<Units>)
    requires headers != []
    ensures ReadCsv(Lines(rows, headers)) == Some(AllCells(rows, headers))
  {
    if rows != [] {
      LineIsRead(Cells(rows[0], headers), Lines(rows[1..], headers));
      LinesAreRead(rows[1..], headers);
    }
  }

  lemma CleanHeadersPrintAsThemselves(headers: seq<Units>)
    requires forall i :: 0 <= i < |headers| ==> !NeedsQuotes(headers[i])
    ensures Printed(headers) == headers
  {
  }

  /** Headers are not quoted, so they have to be free of quotes, commas and line feeds. */
  predicate CleanHeaders(rows: seq<Row>) {
    rows != [] ==> forall i :: 0 <= i < |rows[0]| ==> !NeedsQuotes(rows[0][i].0)
  }

  function Expected(rows: seq<Row>): seq<seq<Units>> {
    if rows == [] then [] else [Headers(rows[0])] + AllCells(rows, Headers(rows[0]))
  }

  lemma RoundTripWithColumns(rows: seq<Row>)
    requires CleanHeaders(rows) && (rows == [] || rows[0] != [])
    ensures ReadCsv(ToCsv(rows)) == Some(Expected(rows))
  {
    if rows != [] {
      var headers := Headers(rows[0]);
      CleanHeadersPrintAsThemselves(headers);
      LineIsRead(headers, Lines(rows, headers));
      LinesAreRead(rows, headers);
    }
  }

  /** The text of the row's entry under this header; nothing for null, undefined and a missing entry. */
  predicate IsCellOf(row: Row, header: Units, text: Units) {
    && ((forall i :: 0 <= i < |row| ==> row[i].0 != header) ==> text == [])
    && forall i :: 0 <= i < |row| && row[i].0 == header && (forall j :: 0 <= j < i ==> row[j].0 != header) ==>
      text == if row[i].1.Some? then row[i].1.value else []
  }

  lemma {:induction false} LookupIsCell(row: Row, header: Units)
    ensures IsCellOf(row, header, Lookup(row, header))
  {
    if row != [] && row[0].0 != header {
      LookupIsCell(row[1..], header);
      forall i | 0 <= i < |row| && row[i].0 == header && (forall j :: 0 <= j < i ==> row[j].0 != header)
        ensures Lookup(row, header) == if row[i].1.Some? then row[i].1.value else []
      {
        assert row[1..][i - 1] == row[i];
        assert forall j :: 0 <= j < i - 1 ==> row[1..][j] == row[j + 1];
      }
      assert forall i :: 0 <= i < |row[1..]| ==> row[1..][i] == row[i + 1];
    }
  }

  /** The header line, then a line for each row whose cell c is its entry under header c of the first row. */
  predicate IsTable(rows: seq<Row>, records: seq<seq<Units>>) {
    && |records| == (if rows == [] then 0 else |rows| + 1)
    && (rows != [] ==> |records[0]| == |rows[0]| && forall c :: 0 <= c < |rows[0]| ==> records[0][c] == rows[0][c].0)
    && forall r :: 0 <= r < |rows| ==> AreCellsOf(rows[r], rows[0], records[r + 1])
  }

  predicate AreCellsOf(row: Row, first: Row, cells: seq<Units>) {
    |cells| == |first| && forall c :: 0 <= c < |first| ==> IsCellOf(row, first[c].0, cells[c])
  }

  lemma CellsAreOf(row: Row, first: Row)
    ensures AreCellsOf(row, first, Cells(row, Headers(first)))
  {
    forall c | 0 <= c < |first| ensures IsCellOf(row, first[c].0, Cells(row, Headers(first))[c]) {
      LookupIsCell(row, first[c].0);
    }
  }

  lemma {:induction false} AllCellsAt(rows: seq<Row>, headers: seq<Units>, r: nat)
    requires r < |rows|
    ensures |AllCells(rows, headers)| == |rows| && AllCells(rows, headers)[r] == Cells(rows[r], headers)
  {
    if r > 0 {
      AllCellsAt(rows[1..], headers, r - 1);
    } else if |rows| > 1 {
      AllCellsAt(rows[1..], headers, 0);
    }
  }

  lemma ExpectedIsTable(rows: seq<Row>)
    ensures IsTable(rows, Expected(rows))
  {
    if rows != [] {
      var headers := Headers(rows[0]);
      var records := Expected(rows);
      AllCellsAt(rows, headers, 0);
      forall r | 0 <= r < |rows| ensures AreCellsOf(rows[r], rows[0], records[r + 1]) {
        AllCellsAt(rows, headers, r);
        assert records[r + 1] == AllCells(rows, headers)[r];
        CellsAreOf(rows[r], rows[0]);
      }
    }
  }

  /** A table with clean headers and a column is read back cell by cell. */
  lemma TableIsRead(rows: seq<Row>)
    requires rows == [] || rows[0] != []
    requires rows != [] ==> forall c :: 0 <= c < |rows[0]| ==>
      34 !in rows[0][c].0 && 44 !in rows[0][c].0 && 10 !in rows[0][c].0
    ensures ReadCsv(ToCsv(rows)).Some? && IsTable(rows, ReadCsv(ToCsv(rows)).value)
  {
    RoundTripWithColumns(rows);
    ExpectedIsTable(rows);
  }

  /** Only a cell with a quote, a comma or a line feed is quoted, and then its quotes are doubled. */
  lemma CellIsPrinted(s: Units)
    ensures 34 !in s && 44 !in s && 10 !in s ==> CsvCell(s) == s
    ensures 34 in s || 44 in s || 10 in s ==> CsvCell(s) == [34] + ReplaceAll(s, 34, [34, 34]) + [34]
  {
  }

  /** A line is its fields with commas between them and a line feed at the end. */
  lemma LineIs(field: Units, fields: seq<Units>)
    ensures Line([field]) == field + [10]
    ensures fields != [] ==> Line([field] + fields) == field + ([44] + Line(fields))
  {
    assert ([field] + fields)[1..] == fields;
  }

  // ---- What comes back as itself was clean ----

  lemma {:induction false} PlainFieldIsClean(s: Units)
    requires ReadPlain(s).Some?
    ensures !NeedsQuotes(ReadPlain(s).value.0)
  {
    if s[0] != COMMA && s[0] != LF {
      PlainFieldIsClean(s[1..]);
    }
  }

  function Doubled(s: Units): Units {
    ReplaceAll(s, QUOTE, [QUOTE, QUOTE])
  }

  /** What the quoted reader consumed is the text with its quotes doubled, and the closing quote. */
  lemma {:induction false} QuotedFieldText(s: Units)
    requires ReadQuoted(s).Some?
    ensures
      var (text, rest) := ReadQuoted(s).value;
      s == Doubled(text) + ([QUOTE] + rest)
  {
    var (text, rest) := ReadQuoted(s).value;
    if s[0] != QUOTE || (|s| > 1 && s[1] == QUOTE) {
      var n := if s[0] != QUOTE then 1 else 2;
      QuotedFieldText(s[n..]);
      var others := ReadQuoted(s[n..]).value.0;
      ReplaceAllFirst(text, QUOTE, [QUOTE, QUOTE], text[0], others);
      assert s == s[..n] + s[n..] && Doubled(text) == s[..n] + Doubled(others);
    } else {
      assert s == [QUOTE] + rest;
    }
  }

  predicate AllQuotes(s: Units) {
    forall i :: 0 <= i < |s| ==> s[i] == QUOTE
  }

  lemma {:induction false} DoubledQuotes(s: Units)
    requires AllQuotes(s)
    ensures |Doubled(s)| == 2 * |s| && AllQuotes(Doubled(s))
  {
    if s != [] {
      DoubledQuotes(s[1..]);
    }
  }

  /** A quoted field read from its own unquoted text would have to be quotes and nothing else. */
  lemma {:induction false} OwnTextIsQuotes(s: Units, rest: Units, printed: Units, k: nat)
    requires printed == [QUOTE] + Doubled(s) + ([QUOTE] + rest)
    requires k <= |s| <= |printed| && printed[..|s|] == s
    ensures AllQuotes(s[..k])
  {
    if k > 0 {
      OwnTextIsQuotes(s, rest, printed, k - 1);
      var front := s[..k - 1];
      DoubledQuotes(front);
      ReplaceAllConcat(front, s[k - 1..], QUOTE, [QUOTE, QUOTE]);
      assert s == front + s[k - 1..];
      assert s[k - 1] == printed[k - 1];
      if k > 1 {
        assert printed[k - 1] == Doubled(s)[k - 2] == Doubled(front)[k - 2];
      }
    }
  }

  /** So it goes on with a quote. */
  lemma OwnTextGoesOnQuoted(s: Units, rest: Units, printed: Units)
    requires printed == [QUOTE] + Doubled(s) + ([QUOTE] + rest)
    requires s != [] && |s| < |printed| && printed[..|s|] == s
    ensures printed[|s|] == QUOTE
  {
    OwnTextIsQuotes(s, rest, printed, |s|);
    assert s[..|s|] == s;
    DoubledQuotes(s);
    assert printed[|s|] == Doubled(s)[|s| - 1];
  }

  lemma QuotedIsNotItself(s: Units, after: Units)
    requires s != [] && s[0] == QUOTE && after != [] && after[0] != QUOTE
    ensures ReadQuoted((s + after)[1..]).Some? ==> ReadQuoted((s + after)[1..]).value.0 != s
  {
    var printed := s + after;
    var field := ReadQuoted(printed[1..]);
    if field.Some? && field.value.0 == s {
      QuotedFieldText(printed[1..]);
      assert printed == [QUOTE] + Doubled(s) + ([QUOTE] + field.value.1);
      OwnTextGoesOnQuoted(s, field.value.1, printed);
    }
  }

  /** An unquoted field that reads back as itself holds no quote, comma or line feed. */
  lemma OwnTextIsClean(s: Units, after: Units)
    requires after != [] && (after[0] == COMMA || after[0] == LF)
    requires ReadField(s + after).Some? && ReadField(s + after).value.0 == s
    ensures !NeedsQuotes(s)
  {
    if (s + after)[0] == QUOTE {
      QuotedIsNotItself(s, after);
    } else {
      PlainFieldIsClean(s + after);
    }
  }

  predicate AllClean(fields: seq<Units>) {
    forall i :: 0 <= i < |fields| ==> !NeedsQuotes(fields[i])
  }

  lemma RecordStarts(s: Units)
    requires ReadRecord(s).Some?
    ensures
      var fields := ReadRecord(s).value.0;
      fields != [] && ReadField(s).Some? && ReadField(s).value.0 == fields[0]
  {
  }

  lemma RecordGoesOn(s: Units, field: Units, others: Units)
    requires ReadRecord(s).Some? && ReadField(s) == Some((field, [COMMA] + others))
    ensures ReadRecord(others).Some? && ReadRecord(s).value.0 == [field] + ReadRecord(others).value.0
  {
    assert ([COMMA] + others)[1..] == others;
  }

  lemma {:induction false} LineIsClean(fields: seq<Units>, rest: Units)
    requires fields != []
    requires ReadRecord(Line(fields) + rest).Some? && ReadRecord(Line(fields) + rest).value.0 == fields
    ensures AllClean(fields)
  {
    var s := Line(fields) + rest;
    LineParts(fields, rest);
    RecordStarts(s);
    if |fields| == 1 {
      OwnTextIsClean(fields[0], [LF] + rest);
    } else {
      var more := Line(fields[1..]) + rest;
      OwnTextIsClean(fields[0], [COMMA] + more);
      PlainIsRead(fields[0], [COMMA] + more);
      assert s[0] == if fields[0] == [] then COMMA else fields[0][0];
      RecordGoesOn(s, fields[0], more);
      assert ReadRecord(more).value.0 == fields[1..];
      LineIsClean(fields[1..], rest);
    }
  }

  /** A line feed alone reads as one empty field, never as no field. */
  lemma NoColumnIsNotRead(rows: seq<Row>)
    requires rows != [] && rows[0] == []
    ensures ReadCsv(ToCsv(rows)) != Some(Expected(rows))
  {
    var s, rest := ToCsv(rows), Lines(rows, Headers(rows[0]));
    assert Headers(rows[0]) == [];
    assert s == [LF] + rest && s[1..] == rest;
    assert ReadField(s) == Some(([], s));
    assert ReadRecord(s) == Some(([[]], rest));
    var emptyField: seq<Units> := [[]];
    assert ReadCsv(s).Some? ==> ReadCsv(s).value[0] == emptyField;
    assert Expected(rows)[0] == [] && emptyField != [];
  }

  /** The first record of a file that reads back. */
  lemma FirstRecord(s: Units)
    requires s != [] && ReadCsv(s).Some?
    ensures ReadRecord(s).Some? && ReadCsv(s).value != [] && ReadCsv(s).value[0] == ReadRecord(s).value.0
  {
  }

  /**
   Exactly when every printed cell comes back: the table is empty, or it has a column and no header holds a
   quote, a comma or a line feed. An unclean header never comes back as itself, whatever is around it.
   */
  lemma CsvRoundTripIff(rows: seq<Row>)
    ensures ReadCsv(ToCsv(rows)) == Some(Expected(rows)) <==> rows == [] || (rows[0] != [] && CleanHeaders(rows))
  {
    if rows == [] || (rows[0] != [] && CleanHeaders(rows)) {
      RoundTripWithColumns(rows);
    } else if rows[0] == [] {
      NoColumnIsNotRead(rows);
    } else if ReadCsv(ToCsv(rows)) == Some(Expected(rows)) {
      var headers := Headers(rows[0]);
      FirstRecord(ToCsv(rows));
      LineIsClean(headers, Lines(rows, headers));
      assert forall i :: 0 <= i < |rows[0]| ==> rows[0][i].0 == headers[i];
    }
  }
}
