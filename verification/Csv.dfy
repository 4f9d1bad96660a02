/**
 * CSV output (src/lib/csv-utils.ts), read back by a reader that follows rules 1, 2 and 5 to 7
 * of section 2 of RFC 4180 with `;` as the separator; a line may end in CRLF or in LF alone,
 * as the exports of the application join their rows.
 */
module Csv {
  import opened Sequences

  const DELIMITER: char := ';'

  /** A cell value; numbers carry the text JavaScript prints for them. */
  datatype Cell = Text(text: string) | Number(printed: string) | Boolean(flag: bool) | Missing

  function Raw(c: Cell): string {
    match c
    case Text(text) => text
    case Number(printed) => printed
    case Boolean(flag) => if flag then "true" else "false"
    case Missing => ""
  }

  predicate IsFormulaStart(c: char) {
    c == '=' || c == '+' || c == '-' || c == '@' || c == '\t' || c == '\r'
  }

  predicate StartsFormula(s: string) {
    s != "" && IsFormulaStart(s[0])
  }

  predicate Sign(s: string) {
    s == "" || s == "+" || s == "-"
  }

  /** Nothing, or a decimal point or comma followed by digits. */
  predicate Fraction(s: string) {
    s == "" || ((s[0] == '.' || s[0] == ',') && AllDigits(s[1..]))
  }

  /** An optional sign, digits, and an optional fraction. */
  ghost predicate PlainNumber(s: string) {
    exists sign, whole, part :: s == sign + whole + part && Sign(sign) && AllDigits(whole) && Fraction(part)
  }

  function SkipDigits(s: string): string {
    if s != "" && IsDigit(s[0]) then SkipDigits(s[1..]) else s
  }

  /** The same pattern as the code tests it, from left to right. */
  predicate MatchesNumber(s: string) {
    var unsigned := if s != "" && (s[0] == '+' || s[0] == '-') then s[1..] else s;
    var rest := SkipDigits(unsigned);
    && |rest| < |unsigned|
    && (rest == "" || ((rest[0] == '.' || rest[0] == ',') && |rest| > 1 && SkipDigits(rest[1..]) == ""))
  }

  lemma {:induction false} SkipDigitsShape(s: string)
    ensures |SkipDigits(s)| <= |s| && s == s[..|s| - |SkipDigits(s)|] + SkipDigits(s)
    ensures |SkipDigits(s)| < |s| ==> AllDigits(s[..|s| - |SkipDigits(s)|])
    ensures SkipDigits(s) != "" ==> !IsDigit(SkipDigits(s)[0])
  {
    if s == "" || !IsDigit(s[0]) {
      assert SkipDigits(s) == s && s[..0] == "";
    } else {
      SkipDigitsShape(s[1..]);
      SkippedOneMore(s, SkipDigits(s[1..]));
    }
  }

  /** The digits skipped in the tail, with the one before them. */
  lemma SkippedOneMore(s: string, rest: string)
    requires s != "" && IsDigit(s[0]) && |rest| < |s|
    requires s[1..] == s[1..][..|s| - 1 - |rest|] + rest
    requires |rest| < |s| - 1 ==> AllDigits(s[1..][..|s| - 1 - |rest|])
    ensures s == s[..|s| - |rest|] + rest && AllDigits(s[..|s| - |rest|])
  {
    var k := |s| - |rest|;
    assert s[..k] == [s[0]] + s[1..][..k - 1];
    assert s == [s[0]] + s[1..];
  }

  lemma {:induction false} SkipDigitsOver(digits: string, rest: string)
    requires digits == "" || AllDigits(digits)
    requires rest == "" || !IsDigit(rest[0])
    ensures SkipDigits(digits + rest) == rest
  {
    if digits == "" {
      assert digits + rest == rest;
    } else {
      assert (digits + rest)[1..] == digits[1..] + rest;
      SkipDigitsOver(digits[1..], rest);
    }
  }

  lemma NumberAccepted(sign: string, whole: string, part: string)
    requires Sign(sign) && AllDigits(whole) && Fraction(part)
    ensures MatchesNumber(sign + whole + part)
  {
    var s := sign + whole + part;
    assert s[|sign|] == whole[0];
    if sign == "" {
      assert s == whole + part;
    } else {
      assert s[0] == sign[0];
      assert s[1..] == whole + part;
    }
    SkipDigitsOver(whole, part);
    if part != "" {
      SkipDigitsOver(part[1..], "");
      assert part[1..] + "" == part[1..];
    }
  }

  /** What the test accepts after the sign is digits and a fraction. */
  lemma UnsignedParts(u: string) returns (whole: string, part: string)
    requires var rest := SkipDigits(u);
             && |rest| < |u|
             && (rest == "" || ((rest[0] == '.' || rest[0] == ',') && |rest| > 1 && SkipDigits(rest[1..]) == ""))
    ensures u == whole + part && AllDigits(whole) && Fraction(part)
  {
    SkipDigitsShape(u);
    part := SkipDigits(u);
    whole := u[..|u| - |part|];
    if part != "" {
      var decimals := part[1..];
      SkipDigitsShape(decimals);
      assert decimals[..|decimals|] == decimals;
    }
  }

  lemma AcceptedIsNumber(s: string)
    requires MatchesNumber(s)
    ensures PlainNumber(s)
  {
    var signed := s != "" && (s[0] == '+' || s[0] == '-');
    var sign, unsigned := if signed then s[..1] else "", if signed then s[1..] else s;
    var whole, part := UnsignedParts(unsigned);
    assert s == sign + whole + part;
    assert Sign(sign);
  }

  /** The left-to-right test accepts exactly the plain decimal numbers. */
  lemma MatchesNumberIsPlain(s: string)
    ensures MatchesNumber(s) <==> PlainNumber(s)
  {
    if MatchesNumber(s) {
      AcceptedIsNumber(s);
    }
    if PlainNumber(s) {
      var sign, whole, part :| s == sign + whole + part && Sign(sign) && AllDigits(whole) && Fraction(part);
      NumberAccepted(sign, whole, part);
    }
  }

  /** A cell that a spreadsheet would open as a formula gets an apostrophe in front. */
  function Guarded(c: Cell): string {
    var raw := Raw(c);
    if StartsFormula(raw) && !MatchesNumber(raw) then "'" + raw else raw
  }

  predicate NeedsQuotes(s: string) {
    DELIMITER in s || '"' in s || '\n' in s || '\r' in s
  }

  function Doubled(s: string): string {
    if s == "" then ""
    else (if s[0] == '"' then "\"\"" else [s[0]]) + Doubled(s[1..])
  }

  function Quoted(s: string): string {
    if NeedsQuotes(s) then "\"" + Doubled(s) + "\"" else s
  }

  function EscapeField(c: Cell): string {
    Quoted(Guarded(c))
  }

  function Fields(cells: seq<Cell>): seq<string> {
    seq(|cells|, i requires 0 <= i < |cells| => EscapeField(cells[i]))
  }

  function JoinRow(cells: seq<Cell>): string {
    Join(Fields(cells), DELIMITER)
  }

  function GuardedRow(cells: seq<Cell>): seq<string> {
    seq(|cells|, i requires 0 <= i < |cells| => Guarded(cells[i]))
  }

  // ---------- the reader ----------

  /** A field and the text after it. */
  datatype Field = Field(text: string, rest: string)

  datatype Record = Record(fields: seq<string>, rest: string)

  /** One more character in front of a field that could be read. */
  function Prepended(c: char, f: Option<Field>): Option<Field> {
    match f
    case None => None
    case Some(field) => Some(Field([c] + field.text, field.rest))
  }

  /** After an opening quote: up to the closing one, with a doubled quote standing for one. */
  function ReadQuoted(s: string): Option<Field> {
    if s == "" then None
    else if s[0] == '"' then
      if |s| > 1 && s[1] == '"' then
        Prepended(s[0], ReadQuoted(s[2..]))
      else Some(Field("", s[1..]))
    else Prepended(s[0], ReadQuoted(s[1..]))
  }

  predicate EndsField(c: char) {
    c == ';' || c == '\n' || c == '\r'
  }

  /** An unquoted field holds no quote. */
  function ReadPlain(s: string): Option<Field> {
    if s == "" || EndsField(s[0]) then Some(Field("", s))
    else if s[0] == '"' then None
    else Prepended(s[0], ReadPlain(s[1..]))
  }

  /** One field; after a closing quote only a separator, a line end or the end may follow. */
  function ReadField(s: string): (f: Option<Field>)
    ensures f.Some? ==> |f.value.rest| <= |s| && (f.value.rest == "" || EndsField(f.value.rest[0]))
  {
    if s != "" && s[0] == '"' then
      ReadQuotedShorter(s[1..]);
      var f := ReadQuoted(s[1..]);
      if f.Some? && (f.value.rest == "" || EndsField(f.value.rest[0])) then f else None
    else
      ReadPlainShorter(s);
      ReadPlain(s)
  }

  lemma {:induction false} ReadQuotedShorter(s: string)
    ensures ReadQuoted(s).Some? ==> |ReadQuoted(s).value.rest| < |s|
  {
    if s != "" {
      if s[0] == '"' {
        if |s| > 1 { ReadQuotedShorter(s[2..]); }
      } else {
        ReadQuotedShorter(s[1..]);
      }
    }
  }

  lemma {:induction false} ReadPlainShorter(s: string)
    ensures var f := ReadPlain(s);
            f.Some? ==> |f.value.rest| <= |s| && (f.value.rest == "" || EndsField(f.value.rest[0]))
  {
    if s != "" && !EndsField(s[0]) && s[0] != '"' {
      ReadPlainShorter(s[1..]);
    }
  }

  function ReadRecord(s: string): (r: Option<Record>)
    ensures r.Some? ==> |r.value.rest| <= |s| && r.value.fields != []
    decreases |s|
  {
    match ReadField(s)
    case None => None
    case Some(f) =>
      if f.rest != "" && f.rest[0] == ';' then
        match ReadRecord(f.rest[1..])
        case None => None
        case Some(r) => Some(Record([f.text] + r.fields, r.rest))
      else Some(Record([f.text], f.rest))
  }

  /** The whole text; the last record may or may not be followed by a line end. */
  function Read(s: string): Option<seq<seq<string>>>
    decreases |s|
  {
    match ReadRecord(s)
    case None => None
    case Some(r) =>
      if r.rest == "" then Some([r.fields])
      else
        var skip := if r.rest[0] == '\n' then 1 else if |r.rest| > 1 && r.rest[..2] == "\r\n" then 2 else 0;
        if skip == 0 then None
        else if r.rest[skip..] == "" then Some([r.fields])
        else
          match Read(r.rest[skip..])
          case None => None
          case Some(rows) => Some([r.fields] + rows)
  }

  // ---------- the reader undoes the printer ----------

  predicate FieldBoundary(s: string) {
    s == "" || EndsField(s[0])
  }

  lemma QuotedCharacter(c: char, tail: string)
    ensures c != '"' ==> ReadQuoted([c] + tail) == Prepended(c, ReadQuoted(tail))
    ensures c == '"' ==> ReadQuoted("\"\"" + tail) == Prepended(c, ReadQuoted(tail))
  {
    assert ([c] + tail)[1..] == tail;
    assert ("\"\"" + tail)[2..] == tail;
  }

  lemma QuotedEnd(rest: string)
    requires FieldBoundary(rest)
    ensures ReadQuoted("\"" + rest) == Some(Field("", rest))
  {
    assert ("\"" + rest)[1..] == rest;
  }

  lemma {:induction false} ReadsQuoted(s: string, rest: string)
    requires FieldBoundary(rest)
    ensures ReadQuoted(Doubled(s) + "\"" + rest) == Some(Field(s, rest))
  {
    hide ReadQuoted;
    var all := Doubled(s) + "\"" + rest;
    if s == "" {
      assert all == "\"" + rest;
      QuotedEnd(rest);
    } else {
      ReadsQuoted(s[1..], rest);
      var tail := Doubled(s[1..]) + "\"" + rest;
      QuotedCharacter(s[0], tail);
      assert s == [s[0]] + s[1..];
      assert all == (if s[0] == '"' then "\"\"" else [s[0]]) + tail;
    }
  }

  lemma PlainCharacter(c: char, tail: string)
    requires !EndsField(c) && c != '"'
    ensures ReadPlain([c] + tail) == Prepended(c, ReadPlain(tail))
  {
    assert ([c] + tail)[1..] == tail;
  }

  lemma PlainEnd(rest: string)
    requires FieldBoundary(rest)
    ensures ReadPlain(rest) == Some(Field("", rest))
  {
  }

  lemma {:induction false} ReadsPlain(s: string, rest: string)
    requires FieldBoundary(rest) && !NeedsQuotes(s)
    ensures ReadPlain(s + rest) == Some(Field(s, rest))
  {
    hide ReadPlain;
    if s == "" {
      assert s + rest == rest;
      PlainEnd(rest);
    } else {
      assert !NeedsQuotes(s[1..]);
      ReadsPlain(s[1..], rest);
      assert s[0] in s;
      PlainCharacter(s[0], s[1..] + rest);
      assert s + rest == [s[0]] + (s[1..] + rest);
      assert s == [s[0]] + s[1..];
    }
  }

  /** Reading one printed field gives its text back and stops exactly behind it. */
  lemma ReadsField(s: string, rest: string)
    requires FieldBoundary(rest)
    ensures ReadField(Quoted(s) + rest) == Some(Field(s, rest))
  {
    hide ReadPlain, ReadQuoted, Doubled;
    var all := Quoted(s) + rest;
    if NeedsQuotes(s) {
      ReadsQuoted(s, rest);
      assert all[1..] == Doubled(s) + "\"" + rest;
    } else {
      ReadsPlain(s, rest);
      assert s != "" ==> all[0] == s[0] && s[0] in s;
    }
  }

  predicate RecordBoundary(s: string) {
    s == "" || s[0] == '\n' || s[0] == '\r'
  }

  /** A field followed by a separator opens a record whose other fields come from the rest. */
  lemma RecordSteps(s: string, tail: string)
    ensures ReadRecord(Quoted(s) + ([DELIMITER] + tail)) ==
            match ReadRecord(tail)
            case None => None
            case Some(r) => Some(Record([s] + r.fields, r.rest))
  {
    var after := [DELIMITER] + tail;
    ReadsField(s, after);
    assert after[1..] == tail;
  }

  /** A field followed by a line end or the end of the text is a whole record. */
  lemma RecordEnds(s: string, rest: string)
    requires RecordBoundary(rest)
    ensures ReadRecord(Quoted(s) + rest) == Some(Record([s], rest))
  {
    hide ReadField, Quoted;
    ReadsField(s, rest);
  }

  predicate PrintsAs(texts: seq<string>, fields: seq<string>) {
    |texts| == |fields| && forall i :: 0 <= i < |fields| ==> fields[i] == Quoted(texts[i])
  }

  /** A printed record reads back as its texts and stops exactly behind it. */
  lemma {:induction false} ReadsRecord(texts: seq<string>, fields: seq<string>, rest: string)
    requires fields != [] && PrintsAs(texts, fields) && RecordBoundary(rest)
    ensures ReadRecord(Join(fields, DELIMITER) + rest) == Some(Record(texts, rest))
    decreases |fields|
  {
    hide ReadRecord, Quoted;
    var first := fields[0];
    if |fields| == 1 {
      RecordEnds(texts[0], rest);
      assert texts == [texts[0]];
    } else {
      var tail := Join(fields[1..], DELIMITER) + rest;
      ReadsRecord(texts[1..], fields[1..], rest);
      RecordSteps(texts[0], tail);
      assert Join(fields, DELIMITER) + rest == first + ([DELIMITER] + tail);
      assert texts == [texts[0]] + texts[1..];
    }
  }

  lemma ReadsRow(cells: seq<Cell>, rest: string)
    requires cells != [] && RecordBoundary(rest)
    ensures ReadRecord(JoinRow(cells) + rest) == Some(Record(GuardedRow(cells), rest))
  {
    ReadsRecord(GuardedRow(cells), Fields(cells), rest);
  }

  /**
   * Every non-empty row reads back as its guarded cells, same count and order; a row without
   * cells prints the empty text, which reads as one empty cell.
   */
  lemma RowReadsBack(cells: seq<Cell>)
    ensures cells != [] ==> Read(JoinRow(cells)) == Some([GuardedRow(cells)])
    ensures Read(JoinRow([])) == Some([[""]])
    ensures Read(JoinRow(cells)) == Some([GuardedRow(cells)]) <==> cells != []
  {
    assert JoinRow([]) == "";
    assert GuardedRow([]) == [];
    if cells != [] {
      ReadsRow(cells, "");
      assert JoinRow(cells) + "" == JoinRow(cells);
    }
  }

  /** Rows joined by a line end. */
  function JoinRows(rows: seq<seq<Cell>>, lineEnd: string): string
    requires rows != []
  {
    if |rows| == 1 then JoinRow(rows[0])
    else JoinRow(rows[0]) + lineEnd + JoinRows(rows[1..], lineEnd)
  }

  function GuardedRows(rows: seq<seq<Cell>>): seq<seq<string>> {
    seq(|rows|, i requires 0 <= i < |rows| => GuardedRow(rows[i]))
  }

  /** A printed document is empty only when it is one row that prints nothing. */
  lemma EmptyDocument(rows: seq<seq<Cell>>, lineEnd: string)
    requires rows != [] && lineEnd != ""
    ensures JoinRows(rows, lineEnd) == "" <==> |rows| == 1 && JoinRow(rows[0]) == ""
  {
  }

  lemma {:induction false} ReadsOneThenRest(row: seq<Cell>, tail: string, lineEnd: string)
    requires row != [] && (lineEnd == "\n" || lineEnd == "\r\n")
    ensures Read(JoinRow(row) + lineEnd + tail) ==
            if tail == "" then Some([GuardedRow(row)])
            else match Read(tail)
                 case None => None
                 case Some(rows) => Some([GuardedRow(row)] + rows)
  {
    hide JoinRow, GuardedRow;
    var rest := lineEnd + tail;
    ReadsRow(row, rest);
    assert JoinRow(row) + lineEnd + tail == JoinRow(row) + rest;
    ReadsPast(JoinRow(row) + rest, GuardedRow(row), tail, lineEnd);
  }

  /** After a record that stops at a line end the reader goes on behind it. */
  lemma ReadsPast(s: string, fields: seq<string>, tail: string, lineEnd: string)
    requires ReadRecord(s) == Some(Record(fields, lineEnd + tail)) && (lineEnd == "\n" || lineEnd == "\r\n")
    ensures Read(s) ==
            if tail == "" then Some([fields])
            else match Read(tail)
                 case None => None
                 case Some(rows) => Some([fields] + rows)
  {
    hide ReadRecord;
    var rest := lineEnd + tail;
    assert rest[|lineEnd|..] == tail;
    if lineEnd == "\r\n" {
      assert rest[..2] == "\r\n";
    }
  }

  predicate NonEmptyRows(rows: seq<seq<Cell>>) {
    rows != [] && forall i :: 0 <= i < |rows| ==> rows[i] != []
  }

  /** What the reader makes of a document: all rows, or all but a last row that prints nothing. */
  function RowsRead(rows: seq<seq<Cell>>): seq<seq<string>>
    requires NonEmptyRows(rows)
  {
    if |rows| == 1 then [GuardedRow(rows[0])]
    else if |rows| == 2 && JoinRow(rows[1]) == "" then [GuardedRow(rows[0])]
    else [GuardedRow(rows[0])] + RowsRead(rows[1..])
  }

  lemma {:induction false} ReadsRows(rows: seq<seq<Cell>>, lineEnd: string)
    requires NonEmptyRows(rows) && (lineEnd == "\n" || lineEnd == "\r\n")
    ensures Read(JoinRows(rows, lineEnd)) == Some(RowsRead(rows))
    decreases |rows|
  {
    if |rows| == 1 {
      RowReadsBack(rows[0]);
    } else {
      var tail := rows[1..];
      var text := JoinRows(tail, lineEnd);
      EmptyDocument(tail, lineEnd);
      ReadsOneThenRest(rows[0], text, lineEnd);
      assert JoinRows(rows, lineEnd) == JoinRow(rows[0]) + lineEnd + text;
      if text != "" {
        ReadsRows(tail, lineEnd);
      }
    }
  }

  lemma {:induction false} RowsReadShape(rows: seq<seq<Cell>>)
    requires NonEmptyRows(rows)
    ensures RowsRead(rows) == if |rows| == 1 || JoinRow(rows[|rows| - 1]) != "" then GuardedRows(rows)
                              else GuardedRows(rows[..|rows| - 1])
    decreases |rows|
  {
    hide JoinRow, GuardedRow;
    if |rows| == 1 {
      assert GuardedRows(rows) == [GuardedRow(rows[0])];
    } else if |rows| == 2 && JoinRow(rows[1]) == "" {
      assert GuardedRows(rows[..1]) == [GuardedRow(rows[0])];
    } else {
      var tail := rows[1..];
      RowsReadShape(tail);
      assert rows[|rows| - 1] == tail[|tail| - 1];
      assert GuardedRows(rows) == [GuardedRow(rows[0])] + GuardedRows(tail);
      assert GuardedRows(rows[..|rows| - 1]) == [GuardedRow(rows[0])] + GuardedRows(tail[..|tail| - 1]);
    }
  }

  /** A row of one cell without text. */
  predicate OneEmptyCell(row: seq<Cell>) {
    |row| == 1 && Raw(row[0]) == ""
  }

  /** Only such a row prints as nothing. */
  lemma PrintsNothing(row: seq<Cell>)
    requires row != []
    ensures JoinRow(row) == "" <==> OneEmptyCell(row)
  {
    QuotedEmpty(Guarded(row[0]));
    assert Guarded(row[0]) == "" <==> Raw(row[0]) == "";
  }

  lemma QuotedEmpty(s: string)
    ensures Quoted(s) == "" <==> s == ""
  {
  }

  /**
   * A document of non-empty rows reads back as the same guarded rows exactly when it is a single row
   * or its last row is not a single cell without text; otherwise only that last row is lost.
   */
  lemma DocumentReadsBack(rows: seq<seq<Cell>>, lineEnd: string)
    requires NonEmptyRows(rows) && (lineEnd == "\n" || lineEnd == "\r\n")
    ensures var all := |rows| == 1 || !OneEmptyCell(rows[|rows| - 1]);
            && (Read(JoinRows(rows, lineEnd)) == Some(GuardedRows(rows)) <==> all)
            && (!all ==> Read(JoinRows(rows, lineEnd)) == Some(GuardedRows(rows[..|rows| - 1])))
  {
    ReadsRows(rows, lineEnd);
    RowsReadShape(rows);
    PrintsNothing(rows[|rows| - 1]);
    assert |GuardedRows(rows)| == |rows| && |GuardedRows(rows[..|rows| - 1])| == |rows| - 1;
  }

  /** What a cell holds, as JavaScript prints it; a missing value is the empty text. */
  predicate Shows(c: Cell, text: string) {
    && (c.Text? ==> text == c.text)
    && (c.Number? ==> text == c.printed)
    && (c.Boolean? ==> (c.flag ==> text == "true") && (!c.flag ==> text == "false"))
    && (c.Missing? ==> text == "")
  }

  /** The text would be taken for a formula, and is no plain number. */
  ghost predicate Risky(text: string) {
    text != "" && text[0] in ['=', '+', '-', '@', '\t', '\r'] && !PlainNumber(text)
  }

  /**
   * Each cell of a row reads back as its own text exactly when that is no formula or is a plain number;
   * else as the whole text behind one apostrophe.
   */
  lemma CellsReadBack(cells: seq<Cell>, i: nat, text: string)
    requires i < |cells| && Shows(cells[i], text)
    ensures Read(JoinRow(cells)).Some? && |Read(JoinRow(cells)).value| == 1
    ensures var read := Read(JoinRow(cells)).value[0];
            && |read| == |cells|
            && (read[i] == text <==> !Risky(text))
            && (Risky(text) ==> read[i] == "'" + text)
  {
    RowReadsBack(cells);
    MatchesNumberIsPlain(text);
    assert Raw(cells[i]) == text;
    assert |"'" + text| != |text|;
  }

  /** A field is quoted only when it holds a separator, a quote or a line end. */
  lemma QuotedIff(s: string)
    ensures Quoted(s) == s <==> !exists i :: 0 <= i < |s| && s[i] in [';', '"', '\n', '\r']
  {
    if NeedsQuotes(s) {
      DoubledGrows(s);
      assert |Quoted(s)| > |s|;
      var c :| c in s && c in [';', '"', '\n', '\r'];
      var i :| 0 <= i < |s| && s[i] == c;
    }
  }

  lemma {:induction false} DoubledGrows(s: string)
    ensures |Doubled(s)| >= |s|
  {
    if s != "" {
      DoubledGrows(s[1..]);
    }
  }

  /** No cell read back opens as a formula unless it is a plain decimal number. */
  lemma NoFormulaReadBack(cells: seq<Cell>, i: nat)
    requires i < |cells|
    ensures Read(JoinRow(cells)).Some? && |Read(JoinRow(cells)).value| == 1
    ensures var read := Read(JoinRow(cells)).value[0];
            |read| == |cells| && (StartsFormula(read[i]) ==> PlainNumber(read[i]) && read[i] == Raw(cells[i]))
  {
    RowReadsBack(cells);
    MatchesNumberIsPlain(Raw(cells[i]));
  }
}
