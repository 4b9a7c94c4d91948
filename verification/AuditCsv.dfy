/** Exporting organization audit records as CSV, and the reader of section 2 of RFC 4180 that
    undoes it. */
module AuditCsv {
  import opened Wrappers
  import opened Text

  /** A cell: a text, an instant (given by its ISO form) or nothing. */
  datatype CellValue = TextValue(text: string) | Instant(iso: string) | Missing

  datatype AuditRecord = AuditRecord(
    id: CellValue, timestamp: CellValue, category: CellValue, action: CellValue, result: CellValue,
    actorId: CellValue, actorRole: CellValue, actorSite: CellValue, targetType: CellValue, targetId: CellValue,
    metadata: CellValue)

  const CSV_COLUMNS: seq<string> :=
    ["id", "timestamp", "category", "action", "result", "actorId", "actorRole", "actorSite", "targetType",
     "targetId", "metadata"]

  function Cells(r: AuditRecord): seq<CellValue> {
    [r.id, r.timestamp, r.category, r.action, r.result, r.actorId, r.actorRole, r.actorSite, r.targetType,
     r.targetId, r.metadata]
  }

  /** `/^[\t\r ]*[=+\-@]/`: what a spreadsheet would take for a formula. */
  predicate LooksLikeFormula(s: string) {
    s != [] &&
    if s[0] == '\t' || s[0] == '\r' || s[0] == ' ' then LooksLikeFormula(s[1..])
    else s[0] == '=' || s[0] == '+' || s[0] == '-' || s[0] == '@'
  }

  function RawText(value: CellValue): string {
    match value
    case TextValue(text) => text
    case Instant(iso) => iso
    case Missing => ""
  }

  /** What a cell is to be read back as. */
  function NormalizedCell(value: CellValue): string {
    var raw := RawText(value);
    if LooksLikeFormula(raw) then "'" + raw else raw
  }

  /** `s.replaceAll('"', '""')`. */
  function DoubleQuotes(s: string): string {
    if s == [] then "" else (if s[0] == '"' then "\"\"" else [s[0]]) + DoubleQuotes(s[1..])
  }

  function EscapeCell(value: CellValue): string { "\"" + DoubleQuotes(NormalizedCell(value)) + "\"" }

  function EscapeCells(values: seq<CellValue>): (r: seq<string>)
    ensures |r| == |values| && forall i | 0 <= i < |r| :: r[i] == EscapeCell(values[i])
  {
    if values == [] then [] else [EscapeCell(values[0])] + EscapeCells(values[1..])
  }

  function PrintRows(records: seq<AuditRecord>): (r: seq<string>)
    ensures |r| == |records|
  {
    if records == [] then [] else [Join(EscapeCells(Cells(records[0])), ",")] + PrintRows(records[1..])
  }

  function CreateCsv(records: seq<AuditRecord>): string {
    Join([Join(CSV_COLUMNS, ",")] + PrintRows(records), "\r\n")
  }

  // The reader. Text outside quotes is anything but a quote, a comma or a line break.

  predicate IsTextData(c: char) { c != '"' && c != ',' && c != '\r' && c != '\n' }

  /** After an opening quote: the text up to the closing one, and what follows it. */
  function ReadQuoted(s: string): (r: Option<(string, string)>)
    ensures r.Some? ==> |r.value.1| < |s|
  {
    if s == [] then None
    else if s[0] == '"' && !(|s| > 1 && s[1] == '"') then Some(("", s[1..]))
    else
      match ReadQuoted(if s[0] == '"' then s[2..] else s[1..])
      case Some((text, rest)) => Some(([s[0]] + text, rest))
      case None => None
  }

  function ReadPlain(s: string): (r: (string, string))
    ensures |r.1| <= |s|
  {
    if s == [] || !IsTextData(s[0]) then ("", s)
    else
      var (text, rest) := ReadPlain(s[1..]);
      ([s[0]] + text, rest)
  }

  function ReadField(s: string): (r: Option<(string, string)>)
    ensures r.Some? ==> |r.value.1| <= |s|
  {
    if s != [] && s[0] == '"' then ReadQuoted(s[1..]) else Some(ReadPlain(s))
  }

  function ReadRecord(s: string): (r: Option<(seq<string>, string)>)
    ensures r.Some? ==> |r.value.1| <= |s|
    decreases |s|
  {
    match ReadField(s)
    case None => None
    case Some((field, rest)) =>
      if rest == [] || rest[0] != ',' then Some(([field], rest))
      else
        match ReadRecord(rest[1..])
        case None => None
        case Some((fields, after)) => Some(([field] + fields, after))
  }

  /** A whole file: records between line breaks, with or without one at the end. */
  function ReadFile(s: string): Option<seq<seq<string>>>
    decreases |s|
  {
    match ReadRecord(s)
    case None => None
    case Some((record, rest)) =>
      if rest == "" || rest == "\r\n" then Some([record])
      else if !("\r\n" <= rest) then None
      else
        match ReadFile(rest[2..])
        case None => None
        case Some(records) => Some([record] + records)
  }

  /** Where a field may end. */
  predicate Delimited(rest: string) { rest == "" || rest[0] == ',' || rest[0] == '\r' }

  /** A text that is read as a certain field wherever it stands. */
  ghost predicate Encodes(written: string, field: string) {
    forall rest | Delimited(rest) :: ReadField(written + rest) == Some((field, rest))
  }

  lemma {:induction false} ReadQuotedUndoes(text: string, rest: string)
    requires Delimited(rest)
    ensures ReadQuoted(DoubleQuotes(text) + ("\"" + rest)) == Some((text, rest))
  {
    var s := DoubleQuotes(text) + ("\"" + rest);
    if text == [] {
      assert s == "\"" + rest && s[1..] == rest;
    } else {
      ReadQuotedUndoes(text[1..], rest);
      var inner := DoubleQuotes(text[1..]) + ("\"" + rest);
      if text[0] == '"' {
        assert s == "\"\"" + inner && s[2..] == inner;
      } else {
        assert s == [text[0]] + inner && s[1..] == inner;
      }
      assert text == [text[0]] + text[1..];
    }
  }

  lemma CellEncodes(value: CellValue)
    ensures Encodes(EscapeCell(value), NormalizedCell(value))
  {
    hide NormalizedCell, ReadQuoted, DoubleQuotes;
    forall rest | Delimited(rest) ensures ReadField(EscapeCell(value) + rest) == Some((NormalizedCell(value), rest)) {
      var inner := DoubleQuotes(NormalizedCell(value)) + ("\"" + rest);
      ReadQuotedUndoes(NormalizedCell(value), rest);
      assert EscapeCell(value) + rest == "\"" + inner;
      assert ("\"" + inner)[1..] == inner;
    }
  }

  lemma {:induction false} ReadPlainUndoes(text: string, rest: string)
    requires Delimited(rest) && forall i | 0 <= i < |text| :: IsTextData(text[i])
    ensures ReadPlain(text + rest) == (text, rest)
  {
    if text == [] {
      assert text + rest == rest;
    } else {
      ReadPlainUndoes(text[1..], rest);
      assert (text + rest)[1..] == text[1..] + rest;
      assert text == [text[0]] + text[1..];
    }
  }

  lemma PlainEncodes(text: string)
    requires forall i | 0 <= i < |text| :: IsTextData(text[i])
    ensures Encodes(text, text)
  {
    forall rest | Delimited(rest) ensures ReadField(text + rest) == Some((text, rest)) {
      ReadPlainUndoes(text, rest);
    }
  }

  lemma {:induction false} RecordReadsBack(written: seq<string>, fields: seq<string>, rest: string)
    requires |written| == |fields| > 0
    requires forall i | 0 <= i < |fields| :: Encodes(written[i], fields[i])
    requires rest == "" || rest[0] == '\r'
    ensures ReadRecord(Join(written, ",") + rest) == Some((fields, rest))
  {
    hide ReadField;
    assert Encodes(written[0], fields[0]);
    if |written| == 1 {
      assert ReadField(written[0] + rest) == Some((fields[0], rest));
      assert fields == [fields[0]];
    } else {
      var more := Join(written[1..], ",") + rest;
      RecordReadsBack(written[1..], fields[1..], rest);
      assert Delimited("," + more);
      assert Join(written, ",") + rest == written[0] + ("," + more);
      assert ReadField(written[0] + ("," + more)) == Some((fields[0], "," + more));
      assert ("," + more)[1..] == more;
      assert fields == [fields[0]] + fields[1..];
    }
  }

  /** A line that is read as a certain record wherever it stands. */
  ghost predicate EncodesRecord(line: string, fields: seq<string>) {
    forall rest | rest == "" || rest[0] == '\r' :: ReadRecord(line + rest) == Some((fields, rest))
  }

  lemma {:induction false} FileReadsBack(lines: seq<string>, records: seq<seq<string>>)
    requires |lines| == |records| > 0
    requires forall i | 0 <= i < |lines| :: EncodesRecord(lines[i], records[i])
    requires lines[|lines| - 1] != ""
    ensures ReadFile(Join(lines, "\r\n")) == Some(records)
    ensures Join(lines, "\r\n") != ""
  {
    hide ReadRecord;
    assert EncodesRecord(lines[0], records[0]);
    if |lines| == 1 {
      assert lines[0] + "" == lines[0];
      assert ReadRecord(lines[0] + "") == Some((records[0], ""));
      assert records == [records[0]];
    } else {
      var more := Join(lines[1..], "\r\n");
      FileReadsBack(lines[1..], records[1..]);
      assert Join(lines, "\r\n") == lines[0] + ("\r\n" + more);
      assert ReadRecord(lines[0] + ("\r\n" + more)) == Some((records[0], "\r\n" + more));
      assert ("\r\n" + more)[2..] == more;
      assert records == [records[0]] + records[1..];
    }
  }

  function NormalizedCells(values: seq<CellValue>): (r: seq<string>)
    ensures |r| == |values| && forall i | 0 <= i < |r| :: r[i] == NormalizedCell(values[i])
  {
    if values == [] then [] else [NormalizedCell(values[0])] + NormalizedCells(values[1..])
  }

  lemma RowEncodes(record: AuditRecord)
    ensures EncodesRecord(Join(EscapeCells(Cells(record)), ","), NormalizedCells(Cells(record)))
    ensures Join(EscapeCells(Cells(record)), ",") != ""
  {
    hide ReadRecord, Join, EscapeCell, NormalizedCell, Encodes;
    var written, fields := EscapeCells(Cells(record)), NormalizedCells(Cells(record));
    forall i | 0 <= i < |fields| ensures Encodes(written[i], fields[i]) {
      CellEncodes(Cells(record)[i]);
    }
    forall rest: string | rest == "" || rest[0] == '\r'
      ensures ReadRecord(Join(written, ",") + rest) == Some((fields, rest))
    {
      RecordReadsBack(written, fields, rest);
    }
    JoinedNotEmpty(written);
  }

  lemma JoinedNotEmpty(parts: seq<string>)
    requires |parts| > 1
    ensures Join(parts, ",") != ""
  {}

  lemma HeaderEncodes()
    ensures EncodesRecord(Join(CSV_COLUMNS, ","), CSV_COLUMNS)
    ensures Join(CSV_COLUMNS, ",") != ""
  {
    hide ReadRecord, Join;
    forall i | 0 <= i < |CSV_COLUMNS| ensures Encodes(CSV_COLUMNS[i], CSV_COLUMNS[i]) {
      PlainEncodes(CSV_COLUMNS[i]);
    }
    forall rest: string | rest == "" || rest[0] == '\r'
      ensures ReadRecord(Join(CSV_COLUMNS, ",") + rest) == Some((CSV_COLUMNS, rest))
    {
      RecordReadsBack(CSV_COLUMNS, CSV_COLUMNS, rest);
    }
    JoinedNotEmpty(CSV_COLUMNS);
  }

  /** The rows that a reader is to find below the header. */
  function ExpectedRows(records: seq<AuditRecord>): (r: seq<seq<string>>)
    ensures |r| == |records| && forall i | 0 <= i < |r| :: r[i] == NormalizedCells(Cells(records[i]))
  {
    if records == [] then [] else [NormalizedCells(Cells(records[0]))] + ExpectedRows(records[1..])
  }

  lemma {:induction false} RowsEncode(records: seq<AuditRecord>)
    ensures forall i | 0 <= i < |records| ::
              EncodesRecord(PrintRows(records)[i], ExpectedRows(records)[i]) && PrintRows(records)[i] != ""
  {
    hide EncodesRecord, NormalizedCells, EscapeCells, Join;
    if records == [] {
    } else {
      RowEncodes(records[0]);
      RowsEncode(records[1..]);
    }
  }

  /** For all records, whatever quotes, commas and line breaks their cells hold, reading the printed
      file returns the header and one row of eleven normalized cells per record. */
  lemma CsvReadsBack(records: seq<AuditRecord>)
    ensures ReadFile(CreateCsv(records)) == Some([CSV_COLUMNS] + ExpectedRows(records))
    ensures forall i | 0 <= i < |records| :: |ExpectedRows(records)[i]| == 11
  {
    hide ReadFile, EncodesRecord, Join, NormalizedCells;
    HeaderEncodes();
    RowsEncode(records);
    FileReadsBack([Join(CSV_COLUMNS, ",")] + PrintRows(records), [CSV_COLUMNS] + ExpectedRows(records));
  }

  /** No cell reads back as a formula, and two cells read back alike exactly when their texts are
      equal or one is the other with the guarding quote written out. */
  lemma NormalizedCellsCollide(a: CellValue, b: CellValue)
    ensures !LooksLikeFormula(NormalizedCell(a))
    ensures var x, y := RawText(a), RawText(b);
            NormalizedCell(a) == NormalizedCell(b) <==>
              x == y || (LooksLikeFormula(x) && y == "'" + x) || (LooksLikeFormula(y) && x == "'" + y)
  {
    var x, y := RawText(a), RawText(b);
    assert ("'" + x)[1..] == x && ("'" + y)[1..] == y;
    assert !LooksLikeFormula("'" + x) && !LooksLikeFormula("'" + y);
  }

  /** Two texts that print alike. */
  lemma GuardedTextsPrintAlike()
    ensures EscapeCell(TextValue("=x")) == EscapeCell(TextValue("'=x")) && TextValue("=x") != TextValue("'=x")
  {
    assert "'=x" == "'" + "=x";
  }

  /** `record[column]`. */
  function FieldOf(r: AuditRecord, column: string): Option<CellValue> {
    if column == "id" then Some(r.id)
    else if column == "timestamp" then Some(r.timestamp)
    else if column == "category" then Some(r.category)
    else if column == "action" then Some(r.action)
    else if column == "result" then Some(r.result)
    else if column == "actorId" then Some(r.actorId)
    else if column == "actorRole" then Some(r.actorRole)
    else if column == "actorSite" then Some(r.actorSite)
    else if column == "targetType" then Some(r.targetType)
    else if column == "targetId" then Some(r.targetId)
    else if column == "metadata" then Some(r.metadata)
    else None
  }

  /** The cell of a row under the first header of a name. */
  function CellUnder(table: seq<seq<string>>, row: nat, column: string): Option<string> {
    if table == [] || row + 1 >= |table| then None
    else
      var i := FirstOf(table[0], column);
      if i < |table[0]| && i < |table[row + 1]| then Some(table[row + 1][i]) else None
  }

  function FirstOf(names: seq<string>, name: string): (i: nat)
    ensures i <= |names| && name !in names[..i] && (i < |names| ==> names[i] == name)
  {
    if names == [] || names[0] == name then 0
    else
      var i := 1 + FirstOf(names[1..], name);
      assert names[..i] == [names[0]] + names[1..][..i - 1];
      i
  }

  /** Every column holds the field of its name. */
  lemma CellsStandUnderNames(r: AuditRecord, i: nat)
    requires i < |CSV_COLUMNS|
    ensures FieldOf(r, CSV_COLUMNS[i]) == Some(Cells(r)[i])
  {
    ColumnsDiffer();
  }

  lemma ColumnsDiffer()
    ensures |"id"| == 2 && |"timestamp"| == 9 && |"category"| == 8 && |"action"| == 6 && |"result"| == 6
    ensures |"actorId"| == 7 && |"actorRole"| == 9 && |"actorSite"| == 9 && |"targetType"| == 10
    ensures |"targetId"| == 8 && |"metadata"| == 8
    ensures "action"[0] == 'a' && "result"[0] == 'r' && "timestamp"[0] == 't' && "actorRole"[5] == 'R'
    ensures "actorSite"[5] == 'S' && "category"[0] == 'c' && "targetId"[0] == 't' && "metadata"[0] == 'm'
    ensures "actorRole"[0] == 'a' && "actorSite"[0] == 'a'
  {}

  /** A missing value shows as nothing; a text or an instant as it is written, behind a quote if it looks like a
      formula. */
  ghost predicate IsShownAs(value: CellValue, cell: string) {
    if value.Missing? then cell == ""
    else
      var text := if value.Instant? then value.iso else value.text;
      cell == (if BeginsWithSign(text) then "'" + text else text)
  }

  lemma NormalizedIsShown(value: CellValue)
    ensures IsShownAs(value, NormalizedCell(value))
  {
    hide LooksLikeFormula;
    match value
    case Missing => FormulaExactlyWhen("");
    case TextValue(text) => FormulaExactlyWhen(text);
    case Instant(iso) => FormulaExactlyWhen(iso);
  }

  /** Read back from the printed file, the cell of a record under a header shows the record's field of that
      name, and no other header is printed. */
  lemma CellIsTheNamedField(records: seq<AuditRecord>, i: nat, column: string)
    requires i < |records|
    ensures ReadFile(CreateCsv(records)).Some?
    ensures var cell := CellUnder(ReadFile(CreateCsv(records)).value, i, column);
            match FieldOf(records[i], column)
            case Some(value) => cell.Some? && IsShownAs(value, cell.value)
            case None => cell.None?
  {
    hide ReadFile, CreateCsv, NormalizedCell, FieldOf, Cells, IsShownAs;
    CsvReadsBack(records);
    var table := [CSV_COLUMNS] + ExpectedRows(records);
    assert table[i + 1] == NormalizedCells(Cells(records[i]));
    var at := FirstOf(CSV_COLUMNS, column);
    if at < |CSV_COLUMNS| {
      CellsStandUnderNames(records[i], at);
      NormalizedIsShown(Cells(records[i])[at]);
    } else {
      assert CSV_COLUMNS[..at] == CSV_COLUMNS;
      OnlyColumnsAreFields(records[i], column);
    }
  }

  lemma OnlyColumnsAreFields(r: AuditRecord, column: string)
    requires column !in CSV_COLUMNS
    ensures FieldOf(r, column).None?
  {
    assert forall i | 0 <= i < |CSV_COLUMNS| :: CSV_COLUMNS[i] != column;
    assert CSV_COLUMNS[0] == "id" && CSV_COLUMNS[1] == "timestamp" && CSV_COLUMNS[2] == "category";
    assert CSV_COLUMNS[3] == "action" && CSV_COLUMNS[4] == "result" && CSV_COLUMNS[5] == "actorId";
    assert CSV_COLUMNS[6] == "actorRole" && CSV_COLUMNS[7] == "actorSite" && CSV_COLUMNS[8] == "targetType";
    assert CSV_COLUMNS[9] == "targetId" && CSV_COLUMNS[10] == "metadata";
  }

  /** A text looks like a formula when, behind tabs, returns and spaces only, one of four signs comes. */
  lemma {:induction false} FormulaExactlyWhen(s: string)
    ensures LooksLikeFormula(s) <==> BeginsWithSign(s)
  {
    if s == "" {
    } else {
      FormulaExactlyWhen(s[1..]);
      assert forall k | 1 <= k < |s| :: s[1..][..k - 1] == s[..k][1..];
      assert forall k | 1 <= k < |s| :: SignAt(s, k) <==> s[0] in "\t\r " && SignAt(s[1..], k - 1);
      if LooksLikeFormula(s) && s[0] in "\t\r " {
        var k :| 0 <= k < |s[1..]| && SignAt(s[1..], k);
        assert SignAt(s, k + 1);
      } else if s[0] !in "\t\r " {
        assert SignAt(s, 0) <==> s[0] in "=+-@";
      }
    }
  }

  ghost predicate BeginsWithSign(s: string) { exists k | 0 <= k < |s| :: SignAt(s, k) }

  predicate SignAt(s: string, k: nat)
    requires k < |s|
  {
    s[k] in "=+-@" && forall j | 0 <= j < k :: s[j] in "\t\r "
  }
}
