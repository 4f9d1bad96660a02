/**
 * The attribution knowledge base: scripts/build-attribution-kb.ts reads two tab-separated files
 * into two tables, and src/lib/attribution/kb.ts looks addresses and object ids up in them.
 * `toUpperCase` on arbitrary text is a parameter.
 */
module KnowledgeBase {
  import opened Sequences

  // ---------- lines of a file ----------

  function WithoutCr(s: string): string {
    if s != "" && s[|s| - 1] == '\r' then s[..|s| - 1] else s
  }

  function Unterminated(parts: seq<string>): seq<string>
    requires |parts| >= 1
  {
    if |parts| == 1 then (if parts[0] == "" then [] else parts) else [WithoutCr(parts[0])] + Unterminated(parts[1..])
  }

  /** `splitLines`: lines end with LF or CRLF; the empty text after the last end is no line. */
  function Lines(content: string): seq<string> {
    Unterminated(Split(content, '\n'))
  }

  /** Each line followed by its end: CRLF where `crlf` holds, else LF. */
  function Terminated(lines: seq<string>, crlf: nat -> bool): string {
    if lines == [] then ""
    else (if crlf(|lines|) then lines[0] + "\r" else lines[0]) + ['\n'] + Terminated(lines[1..], crlf)
  }

  /** Any list of lines, with any mixture of line ends, is read back. */
  lemma {:induction false} LinesReadBack(lines: seq<string>, crlf: nat -> bool)
    requires forall i :: 0 <= i < |lines| ==> '\n' !in lines[i] && WithoutCr(lines[i]) == lines[i]
    ensures Lines(Terminated(lines, crlf)) == lines
  {
    if lines != [] {
      LinesReadBack(lines[1..], crlf);
      var first := if crlf(|lines|) then lines[0] + "\r" else lines[0];
      var rest := Terminated(lines[1..], crlf);
      assert WithoutCr(first) == lines[0] by {
        assert (lines[0] + "\r")[..|lines[0]|] == lines[0];
      }
      FirstLineRead(first, rest);
      assert lines == [lines[0]] + lines[1..];
    }
  }

  /** A text with a line end: its first line, without the CR of a CRLF, and the lines of the rest. */
  lemma FirstLineRead(first: string, rest: string)
    requires '\n' !in first
    ensures Lines(first + ['\n'] + rest) == [WithoutCr(first)] + Lines(rest)
  {
    hide Split, WithoutCr;
    SplitHead(first, rest, '\n');
    var parts := [first] + Split(rest, '\n');
    assert parts[1..] == Split(rest, '\n');
  }

  // ---------- hardware address prefixes ----------

  function DecimalValue(s: string): int {
    if s == "" then 0 else 10 * DecimalValue(s[..|s| - 1]) + s[|s| - 1] as int - '0' as int
  }

  predicate IsUpperHex(c: char) {
    '0' <= c <= '9' || 'A' <= c <= 'F'
  }

  predicate UpperHexText(s: string) {
    s != "" && forall i :: 0 <= i < |s| ==> IsUpperHex(s[i])
  }

  function WithoutSeparators(s: string): string {
    if s == "" then ""
    else if s[0] == ':' || s[0] == '-' then WithoutSeparators(s[1..])
    else [s[0]] + WithoutSeparators(s[1..])
  }

  function LastSlash(s: string): (r: Option<nat>)
    ensures r.Some? ==> r.value < |s| && s[r.value] == '/' && '/' !in s[r.value + 1..]
    ensures r.None? ==> '/' !in s
  {
    if s == "" then None
    else if s[|s| - 1] == '/' then Some(|s| - 1)
    else LastSlash(s[..|s| - 1])
  }

  /** The text before a `/digits` suffix and the width it gives; 24 without one. */
  function SplitWidth(s: string): (string, int) {
    var slash := LastSlash(s);
    if slash.Some? && AllDigits(s[slash.value + 1..])
       && forall i :: 0 <= i < slash.value ==> !IsLineEnd(s[i])
    then (s[..slash.value], DecimalValue(s[slash.value + 1..]))
    else (s, 24)
  }

  datatype Prefix = Prefix(digits: string, bits: int)

  function NormalizeMacPrefix(upper: string -> string, raw: string): Option<Prefix> {
    var trimmed := Trim(raw);
    if trimmed == "" then None
    else
      var (macPart, bits) := SplitWidth(trimmed);
      if bits != 24 && bits != 28 && bits != 36 then None
      else
        var hex := upper(WithoutSeparators(macPart));
        if !UpperHexText(hex) || |hex| < bits / 4 then None
        else Some(Prefix(hex[..bits / 4], bits))
  }

  predicate WellFormedPrefix(p: Prefix) {
    (p.bits == 24 || p.bits == 28 || p.bits == 36) && |p.digits| == p.bits / 4 && UpperHexText(p.digits)
  }

  /** A normalised prefix is upper-case hexadecimal, six, seven or nine digits by its width. */
  lemma PrefixShape(upper: string -> string, raw: string)
    ensures NormalizeMacPrefix(upper, raw).Some? ==> WellFormedPrefix(NormalizeMacPrefix(upper, raw).value)
  {
  }

  /** Prefixes of different widths never share a key. */
  lemma WidthsNeverShareAKey(upper: string -> string, a: string, b: string)
    requires NormalizeMacPrefix(upper, a).Some? && NormalizeMacPrefix(upper, b).Some?
    requires NormalizeMacPrefix(upper, a).value.bits != NormalizeMacPrefix(upper, b).value.bits
    ensures NormalizeMacPrefix(upper, a).value.digits != NormalizeMacPrefix(upper, b).value.digits
  {
    PrefixShape(upper, a);
    PrefixShape(upper, b);
  }

  /** A prefix as the file writes it, without separators. */
  function Printed(p: Prefix): string {
    p.digits + (if p.bits == 24 then "" else if p.bits == 28 then "/28" else "/36")
  }

  lemma {:induction false} NothingToStrip(s: string)
    requires forall i :: 0 <= i < |s| ==> IsUpperHex(s[i])
    ensures WithoutSeparators(s) == s
  {
    if s != "" {
      NothingToStrip(s[1..]);
      assert s == [s[0]] + s[1..];
    }
  }

  lemma {:induction false} LastSlashAt(before: string, width: string)
    requires '/' !in width
    ensures LastSlash(before + "/" + width) == Some(|before|)
    decreases |width|
  {
    var s := before + "/" + width;
    if width != "" {
      var init := width[..|width| - 1];
      LastSlashAt(before, init);
      assert s[|s| - 1] == width[|width| - 1];
      assert s[..|s| - 1] == before + "/" + init;
    }
  }

  lemma SplitsAtWidth(digits: string, width: string)
    requires UpperHexText(digits) && |width| == 2 && AllDigits(width)
    ensures SplitWidth(digits + "/" + width) == (digits, DecimalValue(width))
  {
    hide LastSlash, DecimalValue;
    var s := digits + "/" + width;
    LastSlashAt(digits, width);
    assert s[..|digits|] == digits && s[|digits| + 1..] == width;
    assert forall i :: 0 <= i < |digits| ==> s[i] == digits[i] && IsUpperHex(digits[i]);
  }

  lemma WidthValues()
    ensures DecimalValue("28") == 28 && DecimalValue("36") == 36
  {
    assert "28"[..1] == "2" && "36"[..1] == "3" && "2"[..0] == "" && "3"[..0] == "";
    assert DecimalValue("2") == 2 && DecimalValue("3") == 3;
  }

  lemma NoSuffix(digits: string)
    requires UpperHexText(digits)
    ensures SplitWidth(digits) == (digits, 24)
  {
    assert forall i :: 0 <= i < |digits| ==> IsUpperHex(digits[i]);
  }

  lemma PrintedIsTrimmed(p: Prefix)
    requires WellFormedPrefix(p)
    ensures Printed(p) != "" && Trim(Printed(p)) == Printed(p)
  {
    var s := Printed(p);
    assert s[0] == p.digits[0] && IsUpperHex(s[0]);
    assert IsUpperHex(s[|s| - 1]);
    TrimShape(s);
  }

  /** What the file's text for a prefix splits into. */
  lemma PrintedSplits(p: Prefix)
    requires WellFormedPrefix(p)
    ensures SplitWidth(Printed(p)) == (p.digits, p.bits)
  {
    if p.bits == 24 {
      assert Printed(p) == p.digits;
      NoSuffix(p.digits);
    } else {
      var width := if p.bits == 28 then "28" else "36";
      assert Printed(p) == p.digits + "/" + width;
      WidthValues();
      SplitsAtWidth(p.digits, width);
    }
  }

  /** Normalising what was printed gives the prefix back. */
  lemma PrefixReadsBack(upper: string -> string, p: Prefix)
    requires WellFormedPrefix(p)
    requires upper(p.digits) == p.digits
    ensures NormalizeMacPrefix(upper, Printed(p)) == Some(p)
  {
    PrintedIsTrimmed(p);
    PrintedSplits(p);
    NothingToStrip(p.digits);
    assert p.digits[..p.bits / 4] == p.digits;
  }

  function WidthSuffix(bits: int): string {
    if bits == 24 then "" else if bits == 28 then "/28" else "/36"
  }

  lemma SplitsBefore(mac: string, width: string)
    requires '/' !in mac && AllDigits(width) && forall i :: 0 <= i < |mac| ==> !IsLineEnd(mac[i])
    ensures SplitWidth(mac + "/" + width) == (mac, DecimalValue(width))
    ensures SplitWidth(mac) == (mac, 24)
  {
    hide LastSlash, DecimalValue;
    var s := mac + "/" + width;
    LastSlashAt(mac, width);
    assert s[..|mac|] == mac && s[|mac| + 1..] == width;
    NoSlash(mac);
  }

  lemma NoSlash(s: string)
    requires '/' !in s
    ensures LastSlash(s).None?
  {
  }

  lemma SuffixIsTrimmed(mac: string, width: string)
    requires mac != "" && Trimmed(mac) && AllDigits(width)
    ensures Trim(mac + "/" + width) == mac + "/" + width && Trim(mac) == mac
  {
    var s := mac + "/" + width;
    assert s[0] == mac[0] && s[|s| - 1] == width[|width| - 1];
    assert IsDigit(s[|s| - 1]);
    TrimShape(s);
    TrimShape(mac);
  }

  /**
   * What every prefix text of one of the three widths means, with any separators: its leading digits,
   * as many as the width has, when without separators it is hexadecimal and has as many; else nothing.
   */
  lemma PrefixOfText(upper: string -> string, mac: string, bits: int)
    requires mac != "" && Trimmed(mac) && '/' !in mac && forall i :: 0 <= i < |mac| ==> !IsLineEnd(mac[i])
    requires bits == 24 || bits == 28 || bits == 36
    ensures var hex, digits := upper(WithoutSeparators(mac)), if bits == 24 then 6 else if bits == 28 then 7 else 9;
            NormalizeMacPrefix(upper, mac + WidthSuffix(bits))
            == if UpperHexText(hex) && |hex| >= digits then Some(Prefix(hex[..digits], bits)) else None
  {
    hide SplitWidth, Trim, UpperHexText, WithoutSeparators;
    WidthValues();
    SuffixIsTrimmed(mac, "28");
    SplitsBefore(mac, "28");
    SuffixIsTrimmed(mac, "36");
    SplitsBefore(mac, "36");
    assert mac + "/" + "28" == mac + "/28" && mac + "/" + "36" == mac + "/36" && mac + "" == mac;
  }

  /** No other width is accepted. */
  lemma OtherWidthsRefused(upper: string -> string, mac: string, width: string)
    requires mac != "" && Trimmed(mac) && '/' !in mac && forall i :: 0 <= i < |mac| ==> !IsLineEnd(mac[i])
    requires AllDigits(width) && DecimalValue(width) != 24 && DecimalValue(width) != 28 && DecimalValue(width) != 36
    ensures NormalizeMacPrefix(upper, mac + "/" + width).None?
  {
    hide SplitWidth, Trim, DecimalValue;
    SuffixIsTrimmed(mac, width);
    SplitsBefore(mac, width);
  }

  /** Separators may stand anywhere. */
  lemma {:induction false} SeparatorsIgnored(a: string, c: char, b: string)
    requires c == ':' || c == '-'
    ensures WithoutSeparators(a + [c] + b) == WithoutSeparators(a + b)
  {
    if a == "" {
      assert a + [c] + b == [c] + b && a + b == b;
      assert ([c] + b)[1..] == b;
    } else {
      SeparatorsIgnored(a[1..], c, b);
      assert (a + [c] + b)[1..] == a[1..] + [c] + b;
      assert (a + b)[1..] == a[1..] + b;
    }
  }

  // ---------- object ids ----------

  /** The pattern `\d+(\.\d+)*`, read from the left; `digit` says the last character was one. */
  predicate DottedFrom(s: string, digit: bool) {
    if s == "" then digit
    else if IsDigit(s[0]) then DottedFrom(s[1..], true)
    else s[0] == '.' && digit && DottedFrom(s[1..], false)
  }

  predicate Dotted(s: string) {
    DottedFrom(s, false)
  }

  const ENTERPRISE := "1.3.6.1.4.1."

  predicate OnInternetArc(id: string) {
    id == "1.3.6.1" || "1.3.6.1." <= id
  }

  predicate OnMemberBodyArc(id: string) {
    "1.2." <= id
  }

  predicate Absolute(id: string) {
    OnInternetArc(id) || OnMemberBodyArc(id)
  }

  function NormalizeSysObjId(raw: string): Option<string> {
    var id := Trim(raw);
    if !Dotted(id) then None
    else if OnInternetArc(id) then Some(id)
    else if OnMemberBodyArc(id) then Some(id)
    else Some(ENTERPRISE + id)
  }

  lemma {:induction false} DottedAppend(a: string, b: string, digit: bool)
    requires DottedFrom(a, digit) && Dotted(b)
    ensures DottedFrom(a + "." + b, digit)
  {
    if a == "" {
      assert (a + "." + b)[1..] == b;
    } else {
      DottedAppend(a[1..], b, if IsDigit(a[0]) then true else false);
      assert (a + "." + b)[1..] == a[1..] + "." + b;
    }
  }

  lemma {:induction false} DottedEnds(s: string, digit: bool)
    requires s != "" && DottedFrom(s, digit)
    ensures IsDigit(s[0]) || s[0] == '.'
    ensures IsDigit(s[|s| - 1])
  {
    if |s| > 1 {
      DottedEnds(s[1..], IsDigit(s[0]));
      assert s[1..][|s| - 2] == s[|s| - 1];
    } else {
      assert s[1..] == "";
    }
  }

  lemma DottedIsTrimmed(s: string)
    requires Dotted(s)
    ensures Trim(s) == s
  {
    DottedEnds(s, false);
    TrimShape(s);
  }

  lemma DigitIsDotted()
    ensures Dotted("1") && Dotted("3") && Dotted("4") && Dotted("6")
  {
  }

  lemma EnterpriseIsDotted(id: string)
    requires Dotted(id)
    ensures Dotted(ENTERPRISE + id)
  {
    hide Dotted;
    ArcAhead("1", id, "1." + id);
    ArcAhead("4", "1." + id, "4.1." + id);
    ArcAhead("1", "4.1." + id, "1.4.1." + id);
    ArcAhead("6", "1.4.1." + id, "6.1.4.1." + id);
    ArcAhead("3", "6.1.4.1." + id, "3.6.1.4.1." + id);
    ArcAhead("1", "3.6.1.4.1." + id, "1.3.6.1.4.1." + id);
  }

  lemma ArcAhead(arc: string, id: string, longer: string)
    requires arc == "1" || arc == "3" || arc == "4" || arc == "6"
    requires Dotted(id) && longer == arc + "." + id
    ensures Dotted(longer)
  {
    DigitIsDotted();
    DottedAppend(arc, id, false);
  }

  /** Normalising yields an absolute id, and leaves every absolute id alone: it is idempotent. */
  lemma NormalizedIsFixed(raw: string)
    ensures var r := NormalizeSysObjId(raw);
            r.Some? ==> Dotted(r.value) && Absolute(r.value) && NormalizeSysObjId(r.value) == r
    ensures var r, id := NormalizeSysObjId(raw), Trim(raw);
            && (r.None? <==> !Dotted(id))
            && (r.Some? && (id == "1.3.6.1" || "1.3.6.1." <= id || "1.2." <= id) ==> r.value == id)
            && (r.Some? && !(id == "1.3.6.1" || "1.3.6.1." <= id || "1.2." <= id) ==>
                  r.value == "1.3.6.1.4.1." + id)
  {
    var id := Trim(raw);
    if Dotted(id) {
      if Absolute(id) {
        DottedIsTrimmed(id);
      } else {
        EnterpriseIsDotted(id);
        DottedIsTrimmed(ENTERPRISE + id);
        assert "1.3.6.1." <= ENTERPRISE + id;
      }
    }
  }

  /** Two ids share a key exactly when they are the same id, or one is the other's enterprise form. */
  lemma SameKeyIff(a: string, b: string)
    requires NormalizeSysObjId(a).Some? && NormalizeSysObjId(b).Some?
    ensures NormalizeSysObjId(a) == NormalizeSysObjId(b) <==>
              || Trim(a) == Trim(b)
              || (!Absolute(Trim(a)) && Trim(b) == ENTERPRISE + Trim(a))
              || (!Absolute(Trim(b)) && Trim(a) == ENTERPRISE + Trim(b))
  {
    var x, y := Trim(a), Trim(b);
    assert "1.3.6.1." <= ENTERPRISE + x && "1.3.6.1." <= ENTERPRISE + y;
    if ENTERPRISE + x == ENTERPRISE + y {
      assert x == (ENTERPRISE + x)[|ENTERPRISE|..] == y;
    }
  }

  // ---------- parsed lines ----------

  datatype OuiRow = OuiRow(prefix: Prefix, vendorShort: string, vendorName: string)

  datatype SysObjRow = SysObjRow(oid: string, vendor: string, glpiType: Option<string>, model: Option<string>)

  function Field(line: string, i: nat): Option<string> {
    var fields := Split(line, '\t');
    if i < |fields| then Some(Trim(fields[i])) else None
  }

  function NonEmpty(field: Option<string>): Option<string> {
    if field == Some("") then None else field
  }

  function ParseManufLine(upper: string -> string, line: string): Option<OuiRow> {
    var prefix, short, name := NonEmpty(Field(line, 0)), NonEmpty(Field(line, 1)), NonEmpty(Field(line, 2));
    if prefix.None? || short.None? then None
    else
      var normalized := NormalizeMacPrefix(upper, prefix.value);
      if normalized.None? then None
      else Some(OuiRow(normalized.value, short.value, if name.Some? then name.value else short.value))
  }

  function ParseSysObjLine(line: string): Option<SysObjRow> {
    var id, vendor := NonEmpty(Field(line, 0)), NonEmpty(Field(line, 1));
    if id.None? || vendor.None? then None
    else
      var oid := NormalizeSysObjId(id.value);
      if oid.None? then None
      else Some(SysObjRow(oid.value, vendor.value, NonEmpty(Field(line, 2)), NonEmpty(Field(line, 3))))
  }

  /** Which lines of the first file are rows, and what of them is taken. */
  lemma ManufLineIff(upper: string -> string, line: string)
    ensures var fields, r := Split(line, '\t'), ParseManufLine(upper, line);
            && (r.Some? <==>
                  |fields| >= 2 && Trim(fields[0]) != "" && Trim(fields[1]) != ""
                  && NormalizeMacPrefix(upper, Trim(fields[0])).Some?)
            && (r.Some? ==>
                  && Some(r.value.prefix) == NormalizeMacPrefix(upper, Trim(fields[0]))
                  && r.value.vendorShort == Trim(fields[1])
                  && r.value.vendorName == Trim(fields[if |fields| >= 3 && Trim(fields[2]) != "" then 2 else 1]))
  {
    hide Split, Trim, NormalizeMacPrefix;
  }

  /** Which lines of the second file are rows, and what of them is taken. */
  lemma SysObjLineIff(line: string)
    ensures var fields, r := Split(line, '\t'), ParseSysObjLine(line);
            && (r.Some? <==>
                  |fields| >= 2 && Trim(fields[0]) != "" && Trim(fields[1]) != ""
                  && NormalizeSysObjId(Trim(fields[0])).Some?)
            && (r.Some? ==>
                  && Some(r.value.oid) == NormalizeSysObjId(Trim(fields[0]))
                  && r.value.vendor == Trim(fields[1])
                  && r.value.glpiType
                     == (if |fields| >= 3 && Trim(fields[2]) != "" then Some(Trim(fields[2])) else None)
                  && r.value.model
                     == (if |fields| >= 4 && Trim(fields[3]) != "" then Some(Trim(fields[3])) else None))
  {
    hide Split, Trim, NormalizeSysObjId;
  }

  /** A field the file can hold: not empty, trimmed, on one line of its own column. */
  predicate PlainField(s: string) {
    s != "" && Trimmed(s) && '\t' !in s
  }

  lemma FieldOfJoined(fields: seq<string>, i: nat)
    requires |fields| >= 1 && Separated(fields, '\t')
    ensures Field(Join(fields, '\t'), i) == if i < |fields| then Some(Trim(fields[i])) else None
  {
    SplitJoin(fields, '\t');
  }

  /** A line of the first file, printed from a row, parses to the row. */
  lemma ManufLineReadsBack(upper: string -> string, row: OuiRow)
    requires WellFormedPrefix(row.prefix) && upper(row.prefix.digits) == row.prefix.digits
    requires PlainField(row.vendorShort) && PlainField(row.vendorName)
    ensures ParseManufLine(upper, Join([Printed(row.prefix), row.vendorShort, row.vendorName], '\t')) == Some(row)
    ensures row.vendorName == row.vendorShort ==>
              ParseManufLine(upper, Join([Printed(row.prefix), row.vendorShort], '\t')) == Some(row)
  {
    hide NormalizeMacPrefix, WellFormedPrefix, Join, Field, Trim;
    var long, short := [Printed(row.prefix), row.vendorShort, row.vendorName], [Printed(row.prefix), row.vendorShort];
    PrintedHasNoTab(row.prefix);
    PrefixReadsBack(upper, row.prefix);
    PrintedIsTrimmed(row.prefix);
    TrimShape(row.vendorShort);
    TrimShape(row.vendorName);
    FieldOfJoined(long, 0);
    FieldOfJoined(long, 1);
    FieldOfJoined(long, 2);
    FieldOfJoined(short, 0);
    FieldOfJoined(short, 1);
    FieldOfJoined(short, 2);
  }

  lemma PrintedHasNoTab(p: Prefix)
    requires WellFormedPrefix(p)
    ensures '\t' !in Printed(p)
  {
    assert forall i :: 0 <= i < |p.digits| ==> IsUpperHex(p.digits[i]);
  }

  /** A line of the second file, printed from a row, parses to the row; absent columns may be empty. */
  lemma SysObjLineReadsBack(row: SysObjRow)
    requires Dotted(row.oid) && Absolute(row.oid) && PlainField(row.vendor)
    requires row.glpiType.Some? ==> PlainField(row.glpiType.value)
    requires row.model.Some? ==> PlainField(row.model.value)
    ensures var column := (c: Option<string>) => if c.Some? then c.value else "";
            ParseSysObjLine(Join([row.oid, row.vendor, column(row.glpiType), column(row.model)], '\t')) == Some(row)
  {
    hide Dotted, Absolute, Join, Field, Trim;
    var kind := if row.glpiType.Some? then row.glpiType.value else "";
    var model := if row.model.Some? then row.model.value else "";
    var fields := [row.oid, row.vendor, kind, model];
    OidHasNoTab(row.oid);
    AbsoluteIsFixed(row.oid);
    TrimShape(row.vendor);
    TrimShape(kind);
    TrimShape(model);
    FieldOfJoined(fields, 0);
    FieldOfJoined(fields, 1);
    FieldOfJoined(fields, 2);
    FieldOfJoined(fields, 3);
  }

  lemma OidHasNoTab(id: string)
    requires Dotted(id)
    ensures '\t' !in id
  {
    DottedHasNoTab(id, false);
  }

  lemma AbsoluteIsFixed(id: string)
    requires Dotted(id) && Absolute(id)
    ensures id != "" && Trim(id) == id && NormalizeSysObjId(id) == Some(id)
  {
    DottedIsTrimmed(id);
  }

  lemma {:induction false} DottedHasNoTab(s: string, digit: bool)
    requires DottedFrom(s, digit)
    ensures '\t' !in s
  {
    if s != "" {
      DottedHasNoTab(s[1..], IsDigit(s[0]));
    }
  }

  // ---------- the counting loops ----------

  predicate IsBlank(line: string) {
    Trim(line) == ""
  }

  predicate IsComment(line: string) {
    "#" <= Trim(line)
  }

  lemma SpacesAhead(line: string, i: nat)
    requires i <= |line| && AllSpace(line[..i])
    ensures forall k :: 0 <= k < i ==> IsSpace(line[k])
  {
    assert forall k :: 0 <= k < i ==> line[..i][k] == line[k];
  }

  /** A blank line is all white space; a comment is one whose first other character is `#`. */
  lemma KindsOfLines(line: string)
    ensures IsBlank(line) <==> AllSpace(line)
    ensures IsComment(line) <==> exists i :: 0 <= i < |line| && line[i] == '#' && AllSpace(line[..i])
  {
    var t := TrimStart(line);
    TrimStartShape(line);
    TrimEndShape(t);
    var n := |line| - |t|;
    assert AllSpace(line[..n]);
    if t == "" {
      assert line[..n] == line;
    } else {
      assert line[n] == t[0] == Trim(line)[0];
      if IsComment(line) {
        assert line[n] == '#';
      }
      if i :| 0 <= i < |line| && line[i] == '#' && AllSpace(line[..i]) {
        SpacesAhead(line, i);
        assert i == n;
        assert Trim(line)[0] == '#';
      }
    }
  }

  datatype LineStats = LineStats(read: nat, comments: nat, blank: nat, malformed: nat, ok: nat)

  /** The rows of the lines that are neither blank nor comments and parse, in order. */
  function Collect<R>(parse: string -> Option<R>, lines: seq<string>): seq<R> {
    if lines == [] then []
    else
      var init, line := Collect(parse, lines[..|lines| - 1]), lines[|lines| - 1];
      if IsBlank(line) || IsComment(line) || parse(line).None? then init else init + [parse(line).value]
  }

  function CountIf(p: string -> bool, lines: seq<string>): nat {
    if lines == [] then 0
    else CountIf(p, lines[..|lines| - 1]) + (if p(lines[|lines| - 1]) then 1 else 0)
  }

  /** Blank, comment, malformed and valid lines are told apart, and nothing is lost. */
  ghost predicate StatsOf<R>(stats: LineStats, parse: string -> Option<R>, lines: seq<string>) {
    && stats.read == |lines| == stats.blank + stats.comments + stats.malformed + stats.ok
    && stats.blank == CountIf(IsBlank, lines)
    && stats.comments == CountIf(IsComment, lines)
    && stats.ok == |Collect(parse, lines)|
  }

  lemma CountStep(p: string -> bool, lines: seq<string>, i: nat)
    requires i < |lines|
    ensures CountIf(p, lines[..i + 1]) == CountIf(p, lines[..i]) + (if p(lines[i]) then 1 else 0)
  {
    assert lines[..i + 1][..i] == lines[..i];
  }

  lemma CollectStep<R>(parse: string -> Option<R>, lines: seq<string>, i: nat)
    requires i < |lines|
    ensures Collect(parse, lines[..i + 1]) ==
            if IsBlank(lines[i]) || IsComment(lines[i]) || parse(lines[i]).None? then Collect(parse, lines[..i])
            else Collect(parse, lines[..i]) + [parse(lines[i]).value]
  {
    assert lines[..i + 1][..i] == lines[..i];
  }

  /** One more line adds to exactly one of the counters. */
  lemma StatsStep<R>(stats: LineStats, next: LineStats, parse: string -> Option<R>, lines: seq<string>, i: nat)
    requires i < |lines| && StatsOf(stats, parse, lines[..i])
    requires next.read == stats.read + 1
    requires IsBlank(lines[i]) ==> next == stats.(read := stats.read + 1, blank := stats.blank + 1)
    requires !IsBlank(lines[i]) && IsComment(lines[i]) ==>
               next == stats.(read := stats.read + 1, comments := stats.comments + 1)
    requires !IsBlank(lines[i]) && !IsComment(lines[i]) ==>
               next == if parse(lines[i]).None? then stats.(read := stats.read + 1, malformed := stats.malformed + 1)
                       else stats.(read := stats.read + 1, ok := stats.ok + 1)
    ensures StatsOf(next, parse, lines[..i + 1])
  {
    CountStep(IsBlank, lines, i);
    CountStep(IsComment, lines, i);
    CollectStep(parse, lines, i);
  }

  lemma StatsStart<R>(parse: string -> Option<R>, lines: seq<string>)
    ensures StatsOf(LineStats(0, 0, 0, 0, 0), parse, lines[..0]) && Collect(parse, lines[..0]) == []
    ensures forall p: string -> bool :: CountIf(p, lines[..0]) == 0
  {
  }

  method CountManuf(upper: string -> string, lines: seq<string>) returns (stats: LineStats, rows: seq<OuiRow>)
    ensures StatsOf(stats, line => ParseManufLine(upper, line), lines)
    ensures rows == Collect(line => ParseManufLine(upper, line), lines)
  {
    ghost var parse := (line: string) => ParseManufLine(upper, line);
    stats, rows := LineStats(0, 0, 0, 0, 0), [];
    for i := 0 to |lines|
      invariant StatsOf(stats, parse, lines[..i])
      invariant rows == Collect(parse, lines[..i])
    {
      ghost var before := stats;
      var line := lines[i];
      stats := stats.(read := stats.read + 1);
      var trimmed := Trim(line);
      if trimmed == "" {
        stats := stats.(blank := stats.blank + 1);
      } else if "#" <= trimmed {
        stats := stats.(comments := stats.comments + 1);
      } else {
        var parsed := ParseManufLine(upper, line);
        if parsed.None? {
          stats := stats.(malformed := stats.malformed + 1);
        } else {
          stats := stats.(ok := stats.ok + 1);
          rows := rows + [parsed.value];
        }
      }
      StatsStep(before, stats, parse, lines, i);
      CollectStep(parse, lines, i);
    }
    assert lines[..|lines|] == lines;
  }

  /** A valid line whose id is on neither absolute arc. */
  predicate IsRelativeLine(line: string) {
    !IsBlank(line) && !IsComment(line) && ParseSysObjLine(line).Some? && !Absolute(Field(line, 0).value)
  }

  method CountSysObj(lines: seq<string>)
    returns (stats: LineStats, rows: seq<SysObjRow>, internetArc: nat, memberBodyArc: nat, relative: nat)
    ensures StatsOf(stats, ParseSysObjLine, lines)
    ensures rows == Collect(ParseSysObjLine, lines)
    ensures internetArc + memberBodyArc + relative == stats.ok
    ensures relative == CountIf(IsRelativeLine, lines)
  {
    hide ParseSysObjLine, Trim, Split, Collect, CountIf, StatsOf;
    StatsStart(ParseSysObjLine, lines);
    stats, rows := LineStats(0, 0, 0, 0, 0), [];
    internetArc, memberBodyArc, relative := 0, 0, 0;
    for i := 0 to |lines|
      invariant StatsOf(stats, ParseSysObjLine, lines[..i])
      invariant rows == Collect(ParseSysObjLine, lines[..i])
      invariant internetArc + memberBodyArc + relative == stats.ok
      invariant relative == CountIf(IsRelativeLine, lines[..i])
    {
      ghost var before := stats;
      var line := lines[i];
      stats := stats.(read := stats.read + 1);
      var trimmed := Trim(line);
      if trimmed == "" {
        stats := stats.(blank := stats.blank + 1);
      } else if "#" <= trimmed {
        stats := stats.(comments := stats.comments + 1);
      } else {
        var parsed := ParseSysObjLine(line);
        if parsed.None? {
          stats := stats.(malformed := stats.malformed + 1);
        } else {
          stats := stats.(ok := stats.ok + 1);
          rows := rows + [parsed.value];
          var rawId := Trim(Split(line, '\t')[0]);
          if rawId == "1.3.6.1" || "1.3.6.1." <= rawId {
            internetArc := internetArc + 1;
          } else if "1.2." <= rawId {
            memberBodyArc := memberBodyArc + 1;
          } else {
            relative := relative + 1;
          }
        }
      }
      StatsStep(before, stats, ParseSysObjLine, lines, i);
      CollectStep(ParseSysObjLine, lines, i);
      CountStep(IsRelativeLine, lines, i);
    }
    assert lines[..|lines|] == lines;
  }

  // ---------- the insertion loops ----------

  /** A table where the first row with a key stays. */
  function FirstWins<R>(key: R -> string, rows: seq<R>): map<string, R> {
    if rows == [] then map[]
    else
      var table, row := FirstWins(key, rows[..|rows| - 1]), rows[|rows| - 1];
      if key(row) in table then table else table[key(row) := row]
  }

  predicate FirstWithKey<R>(key: R -> string, rows: seq<R>, k: string, i: nat) {
    i < |rows| && key(rows[i]) == k && forall j :: 0 <= j < i ==> key(rows[j]) != k
  }

  /** The keys of the table are the keys of the rows. */
  lemma {:induction false} FirstWinsKeys<R>(key: R -> string, rows: seq<R>, k: string)
    ensures k in FirstWins(key, rows) <==> exists i :: 0 <= i < |rows| && key(rows[i]) == k
  {
    if rows != [] {
      var init := rows[..|rows| - 1];
      FirstWinsKeys(key, init, k);
      assert forall i :: 0 <= i < |init| ==> init[i] == rows[i];
      if exists i :: 0 <= i < |rows| && key(rows[i]) == k {
        var i :| 0 <= i < |rows| && key(rows[i]) == k;
        assert i < |init| ==> key(init[i]) == k;
      }
    }
  }

  /** Each key holds its first occurrence. */
  lemma {:induction false} FirstWinsIs<R>(key: R -> string, rows: seq<R>, i: nat)
    requires i < |rows| && FirstWithKey(key, rows, key(rows[i]), i)
    ensures key(rows[i]) in FirstWins(key, rows) && FirstWins(key, rows)[key(rows[i])] == rows[i]
  {
    var init := rows[..|rows| - 1];
    if i < |init| {
      assert init[i] == rows[i];
      assert forall j :: 0 <= j < i ==> init[j] == rows[j];
      FirstWinsIs(key, init, i);
    } else {
      FirstWinsKeys(key, init, key(rows[i]));
      assert forall j :: 0 <= j < |init| ==> init[j] == rows[j];
    }
  }

  lemma {:induction false} FirstOccurrence<R>(key: R -> string, rows: seq<R>, k: string) returns (i: nat)
    requires k in FirstWins(key, rows)
    ensures FirstWithKey(key, rows, k, i) && FirstWins(key, rows)[k] == rows[i]
  {
    FirstWinsKeys(key, rows, k);
    i := 0;
    while key(rows[i]) != k
      invariant i < |rows|
      invariant forall j :: 0 <= j < i ==> key(rows[j]) != k
      invariant exists j :: i <= j < |rows| && key(rows[j]) == k
      decreases |rows| - i
    {
      i := i + 1;
    }
    FirstWinsIs(key, rows, i);
  }

  /** `INSERT OR IGNORE` row by row: what is inserted and what conflicts add up to the rows. */
  method InsertAll<R>(key: R -> string, rows: seq<R>) returns (table: map<string, R>, inserted: nat, conflicts: nat)
    ensures table == FirstWins(key, rows)
    ensures inserted == |table| && inserted + conflicts == |rows|
  {
    table, inserted, conflicts := map[], 0, 0;
    for i := 0 to |rows|
      invariant table == FirstWins(key, rows[..i])
      invariant inserted == |table| && inserted + conflicts == i
    {
      assert rows[..i + 1][..i] == rows[..i];
      var k := key(rows[i]);
      if k in table {
        conflicts := conflicts + 1;
      } else {
        table := table[k := rows[i]];
        inserted := inserted + 1;
      }
    }
    assert rows[..|rows|] == rows;
  }

  function OuiKey(): OuiRow -> string {
    (row: OuiRow) => row.prefix.digits
  }

  function SysObjKey(): SysObjRow -> string {
    (row: SysObjRow) => row.oid
  }

  function OuiRows(upper: string -> string, content: string): seq<OuiRow> {
    Collect(line => ParseManufLine(upper, line), Lines(content))
  }

  function SysObjRows(content: string): seq<SysObjRow> {
    Collect(ParseSysObjLine, Lines(content))
  }

  /**
   * The two tables and their counts, from the two files: blank, comment and malformed lines, those
   * inserted and those whose key was taken; and how many ids were on each arc.
   */
  method Build(upper: string -> string, manuf: string, sysobj: string)
    returns (oui: map<string, OuiRow>, ouiStats: LineStats, ouiConflicts: nat,
             objects: map<string, SysObjRow>, objectStats: LineStats, objectConflicts: nat,
             internetArc: nat, memberBodyArc: nat, relative: nat)
    ensures oui == FirstWins(OuiKey(), OuiRows(upper, manuf))
    ensures objects == FirstWins(SysObjKey(), SysObjRows(sysobj))
    ensures StatsOf(ouiStats, line => ParseManufLine(upper, line), Lines(manuf))
    ensures StatsOf(objectStats, ParseSysObjLine, Lines(sysobj))
    ensures ouiStats.ok == |oui| + ouiConflicts && objectStats.ok == |objects| + objectConflicts
    ensures internetArc + memberBodyArc + relative == |objects| + objectConflicts
    ensures relative == CountIf(IsRelativeLine, Lines(sysobj))
    ensures |Lines(manuf)| ==
              ouiStats.blank + ouiStats.comments + ouiStats.malformed + |oui| + ouiConflicts
    ensures |Lines(sysobj)| ==
              objectStats.blank + objectStats.comments + objectStats.malformed + |objects| + objectConflicts
  {
    var ouiRows, objectRows;
    ouiStats, ouiRows := CountManuf(upper, Lines(manuf));
    objectStats, objectRows, internetArc, memberBodyArc, relative := CountSysObj(Lines(sysobj));
    var ouiInserted, objectsInserted;
    oui, ouiInserted, ouiConflicts := InsertAll(OuiKey(), ouiRows);
    objects, objectsInserted, objectConflicts := InsertAll(SysObjKey(), objectRows);
  }

  // ---------- looking a hardware address up ----------

  predicate OuiTable(table: map<string, OuiRow>) {
    forall k :: k in table ==> WellFormedPrefix(table[k].prefix) && table[k].prefix.digits == k
  }

  /** Entry `k` is the widest of the table that the address starts with. */
  ghost predicate Widest(table: map<string, OuiRow>, hex: string, k: string) {
    && k in table && k <= hex
    && forall l :: l in table && l <= hex ==> table[l].prefix.bits <= table[k].prefix.bits
  }

  /** `kbLookupMac`: the widest entry the address starts with, if it has six digits and any. */
  method LookupMac(table: map<string, OuiRow>, mac: string) returns (r: Option<OuiRow>)
    requires OuiTable(table)
    ensures r.None? <==> forall k :: k in table ==> !(k <= HexOnly(mac))
    ensures r.Some? ==> exists k :: Widest(table, HexOnly(mac), k) && r.value == table[k]
  {
    var hex := HexOnly(mac);
    if mac == "" || |hex| < 6 {
      return None;
    }
    var lengths := [9, 7, 6];
    for i := 0 to 3
      invariant forall k :: k in table && k <= hex ==> |k| != 9 || i == 0
      invariant forall k :: k in table && k <= hex ==> |k| != 7 || i <= 1
      invariant forall k :: k in table && k <= hex ==> |k| != 6 || i <= 2
    {
      if |hex| >= lengths[i] {
        var candidate := hex[..lengths[i]];
        if candidate in table {
          assert Widest(table, hex, candidate);
          return Some(table[candidate]);
        }
        forall k | k in table && k <= hex ensures |k| != lengths[i] {
          assert k == hex[..|k|];
        }
      }
    }
    r := None;
  }

  predicate WellFormedRows(rows: seq<OuiRow>) {
    forall i :: 0 <= i < |rows| ==> WellFormedPrefix(rows[i].prefix)
  }

  lemma {:induction false} RowsAreWellFormed(upper: string -> string, lines: seq<string>)
    ensures WellFormedRows(Collect(line => ParseManufLine(upper, line), lines))
  {
    if lines != [] {
      RowsAreWellFormed(upper, lines[..|lines| - 1]);
    }
  }

  /** The built table is one the lookup accepts. */
  lemma BuiltTableIsWellFormed(upper: string -> string, manuf: string)
    ensures OuiTable(FirstWins(OuiKey(), OuiRows(upper, manuf)))
  {
    var rows := OuiRows(upper, manuf);
    var table := FirstWins(OuiKey(), rows);
    forall k | k in table ensures WellFormedPrefix(table[k].prefix) && table[k].prefix.digits == k {
      var i := FirstOccurrence(OuiKey(), rows, k);
      RowsAreWellFormed(upper, Lines(manuf));
      assert OuiKey()(rows[i]) == rows[i].prefix.digits;
    }
  }

  /** Row `j` is narrower than row `i`, or has the same prefix and does not come before it. */
  predicate NoBetter(rows: seq<OuiRow>, i: nat, j: nat)
    requires i < |rows| && j < |rows|
  {
    || rows[j].prefix.bits < rows[i].prefix.bits
    || (rows[j].prefix.digits == rows[i].prefix.digits && i <= j)
  }

  lemma SameWidth(a: Prefix, b: Prefix, hex: string)
    requires WellFormedPrefix(a) && WellFormedPrefix(b) && a.bits == b.bits
    requires a.digits <= hex && b.digits <= hex
    ensures a.digits == b.digits
  {
    assert a.digits == hex[..|a.digits|] && b.digits == hex[..|b.digits|];
  }

  lemma WidestHasNoBetter(rows: seq<OuiRow>, hex: string, k: string, i: nat, j: nat)
    requires WellFormedRows(rows) && OuiTable(FirstWins(OuiKey(), rows)) && Widest(FirstWins(OuiKey(), rows), hex, k)
    requires FirstWithKey(OuiKey(), rows, k, i) && FirstWins(OuiKey(), rows)[k] == rows[i]
    requires j < |rows| && rows[j].prefix.digits <= hex
    ensures NoBetter(rows, i, j)
  {
    hide WellFormedPrefix, FirstWins;
    var table, l := FirstWins(OuiKey(), rows), rows[j].prefix.digits;
    assert OuiKey()(rows[j]) == l;
    FirstWinsKeys(OuiKey(), rows, l);
    var first := FirstOccurrence(OuiKey(), rows, l);
    assert table[l].prefix.bits <= table[k].prefix.bits;
    assert table[l].prefix.digits == l && WellFormedPrefix(table[l].prefix);
    SameBits(table[l].prefix, rows[j].prefix);
    if rows[j].prefix.bits == rows[i].prefix.bits {
      SameWidth(rows[j].prefix, rows[i].prefix, hex);
    }
  }

  lemma SameBits(a: Prefix, b: Prefix)
    requires WellFormedPrefix(a) && WellFormedPrefix(b) && a.digits == b.digits
    ensures a.bits == b.bits
  {
  }

  /**
   * From file to answer: the entry found is the first row of the file among those with the widest
   * prefix the address starts with.
   */
  lemma WidestIsFirstOfWidestRows(upper: string -> string, manuf: string, hex: string, k: string) returns (i: nat)
    requires Widest(FirstWins(OuiKey(), OuiRows(upper, manuf)), hex, k)
    ensures i < |OuiRows(upper, manuf)| && FirstWins(OuiKey(), OuiRows(upper, manuf))[k] == OuiRows(upper, manuf)[i]
    ensures OuiRows(upper, manuf)[i].prefix.digits <= hex
    ensures forall j: nat :: j < |OuiRows(upper, manuf)| && OuiRows(upper, manuf)[j].prefix.digits <= hex ==>
              NoBetter(OuiRows(upper, manuf), i, j)
  {
    hide FirstWins, NoBetter;
    var rows := OuiRows(upper, manuf);
    i := FirstOccurrence(OuiKey(), rows, k);
    BuiltTableIsWellFormed(upper, manuf);
    RowsAreWellFormed(upper, Lines(manuf));
    forall j: nat | j < |rows| && rows[j].prefix.digits <= hex ensures NoBetter(rows, i, j) {
      WidestHasNoBetter(rows, hex, k, i, j);
    }
  }

  // ---------- looking an object id up ----------

  /** The entry of the longest leading run of segments that is in the table. */
  function Longest(table: map<string, SysObjRow>, parts: seq<string>): Option<SysObjRow> {
    if parts == [] then None
    else if Join(parts, '.') in table then Some(table[Join(parts, '.')])
    else Longest(table, parts[..|parts| - 1])
  }

  /** `findSysObjRow`: the candidates from the id itself down to its root. */
  method FindSysObjRow(table: map<string, SysObjRow>, oid: string) returns (r: Option<SysObjRow>)
    ensures r == Longest(table, Split(oid, '.'))
  {
    var parts := Split(oid, '.');
    var i := |parts|;
    assert parts[..i] == parts;
    while i > 0
      invariant i <= |parts|
      invariant Longest(table, parts[..i]) == Longest(table, parts)
    {
      var candidate := Join(parts[..i], '.');
      if candidate in table {
        return Some(table[candidate]);
      }
      assert parts[..i][..i - 1] == parts[..i - 1];
      i := i - 1;
    }
    assert parts[..0] == [];
    r := None;
  }

  /** A key matches an id when its segments lead the id's. */
  predicate Leads(k: string, oid: string) {
    Split(k, '.') <= Split(oid, '.')
  }

  lemma {:induction false} LongestOfParts(table: map<string, SysObjRow>, parts: seq<string>) returns (n: nat)
    ensures n <= |parts|
    ensures Longest(table, parts).None? <==> n == 0
    ensures n > 0 ==> Join(parts[..n], '.') in table && Longest(table, parts) == Some(table[Join(parts[..n], '.')])
    ensures forall m :: n < m <= |parts| ==> Join(parts[..m], '.') !in table
  {
    n := |parts|;
    if parts != [] {
      assert parts[..|parts|] == parts;
      if Join(parts, '.') !in table {
        var init := parts[..|parts| - 1];
        n := LongestOfParts(table, init);
        forall m | n < m <= |parts| ensures Join(parts[..m], '.') !in table {
          if m < |parts| {
            assert init[..m] == parts[..m];
          } else {
            assert parts[..m] == parts;
          }
        }
        assert init[..n] == parts[..n];
      }
    }
  }

  /** The row found is that of the matching key with the most segments; none exactly without one. */
  lemma LongestIsMostSpecific(table: map<string, SysObjRow>, oid: string)
    ensures Longest(table, Split(oid, '.')).None? <==> forall k :: k in table ==> !Leads(k, oid)
    ensures Longest(table, Split(oid, '.')).Some? ==>
              exists k :: k in table && Leads(k, oid) && Longest(table, Split(oid, '.')).value == table[k]
                          && forall l :: l in table && Leads(l, oid) ==> |Split(l, '.')| <= |Split(k, '.')|
  {
    var parts := Split(oid, '.');
    JoinSplit(oid, '.');
    var n := LongestOfParts(table, parts);
    forall l | l in table && Leads(l, oid) ensures |Split(l, '.')| <= n {
      JoinSplit(l, '.');
      assert Split(l, '.') == parts[..|Split(l, '.')|];
    }
    if n > 0 {
      SplitJoin(parts[..n], '.');
      assert Leads(Join(parts[..n], '.'), oid);
    }
  }

  /** `kbLookupSysObjectId` on a normalised id: as it is, else under the enterprise arc. */
  function LookupSysObject(table: map<string, SysObjRow>, oid: string): Option<SysObjRow> {
    var direct := Longest(table, Split(oid, '.'));
    if direct.None? && !(ENTERPRISE <= oid) then Longest(table, Split(ENTERPRISE + oid, '.')) else direct
  }

  lemma {:induction false} JoinPrefix(parts: seq<string>, n: nat)
    requires 0 < n < |parts|
    ensures Join(parts[..n], '.') + "." <= Join(parts, '.')
  {
    if n == 1 {
      assert parts[..1] == [parts[0]];
    } else {
      JoinPrefix(parts[1..], n - 1);
      assert parts[..n][1..] == parts[1..][..n - 1];
      assert parts[..n] == [parts[0]] + parts[1..][..n - 1];
    }
  }

  /** A key that leads an id is the id, or is followed in it by a dot. */
  lemma LeadsMeans(k: string, oid: string)
    requires Leads(k, oid)
    ensures k == oid || k + "." <= oid
  {
    JoinSplit(k, '.');
    JoinSplit(oid, '.');
    var n := |Split(k, '.')|;
    assert Split(k, '.') == Split(oid, '.')[..n];
    if n == |Split(oid, '.')| {
      assert Split(oid, '.')[..n] == Split(oid, '.');
    } else {
      JoinPrefix(Split(oid, '.'), n);
    }
  }

  predicate AbsoluteKeys(table: map<string, SysObjRow>) {
    forall k :: k in table ==> Absolute(k)
  }

  lemma OnlyAbsoluteLeads(k: string, oid: string)
    requires Absolute(k) && !Absolute(oid)
    ensures !Leads(k, oid)
  {
    if Leads(k, oid) {
      LeadsMeans(k, oid);
    }
  }

  /** An id is found by its own normal form whenever the table has it: no other entry gets in the way. */
  lemma NormalFormIsFound(table: map<string, SysObjRow>, id: string)
    requires AbsoluteKeys(table) && Trim(id) == id
    requires NormalizeSysObjId(id).Some? && NormalizeSysObjId(id).value in table
    ensures LookupSysObject(table, id) == Some(table[NormalizeSysObjId(id).value])
  {
    JoinSplit(id, '.');
    JoinSplit(ENTERPRISE + id, '.');
    if !Absolute(id) {
      assert !(ENTERPRISE <= id) by {
        assert "1.3.6.1." <= ENTERPRISE;
      }
      forall k | k in table ensures !Leads(k, id) {
        OnlyAbsoluteLeads(k, id);
      }
      LongestIsMostSpecific(table, id);
    }
  }

  predicate AbsoluteRows(rows: seq<SysObjRow>) {
    forall i :: 0 <= i < |rows| ==> Absolute(rows[i].oid)
  }

  lemma {:induction false} RowsAreAbsolute(lines: seq<string>)
    ensures AbsoluteRows(Collect(ParseSysObjLine, lines))
  {
    if lines != [] {
      RowsAreAbsolute(lines[..|lines| - 1]);
      var line := lines[|lines| - 1];
      if ParseSysObjLine(line).Some? {
        NormalizedIsFixed(Field(line, 0).value);
      }
    }
  }

  /**
   * From file to answer: every id the file lists, absolute or relative, is looked up to the first
   * row of the file with the same normal form.
   */
  lemma ListedIdsAreFound(content: string, i: nat, id: string) returns (first: nat)
    requires i < |SysObjRows(content)|
    requires Trim(id) == id && NormalizeSysObjId(id) == Some(SysObjRows(content)[i].oid)
    ensures FirstWithKey(SysObjKey(), SysObjRows(content), SysObjRows(content)[i].oid, first)
    ensures LookupSysObject(FirstWins(SysObjKey(), SysObjRows(content)), id) == Some(SysObjRows(content)[first])
  {
    var rows := SysObjRows(content);
    var table := FirstWins(SysObjKey(), rows);
    RowsAreAbsolute(Lines(content));
    forall k | k in table ensures Absolute(k) {
      FirstWinsKeys(SysObjKey(), rows, k);
    }
    FirstWinsKeys(SysObjKey(), rows, rows[i].oid);
    assert SysObjKey()(rows[i]) == rows[i].oid;
    first := FirstOccurrence(SysObjKey(), rows, rows[i].oid);
    NormalFormIsFound(table, id);
  }
}
