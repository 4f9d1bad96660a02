/**
 * The credential vault and its import from the older settings: src/lib/credentials-vault.ts.
 * Encryption is transparent here: a secret field holds what it decrypts to. The URL classifiers,
 * the dashboard guess and the choice of the browser URL are parameters.
 */
module CredentialsVault {
  import opened Sequences

  /** The notes the import writes, by their meaning, and any other text. */
  datatype Note = InternalApiNote | LibreNmsUiNote | WazuhUiNote | TextNote(text: string)

  datatype Row = Row(
    id: nat, kind: string, name: string, url: Option<string>, username: Option<string>,
    password: Option<string>, apiToken: Option<string>, notes: Option<Note>, enabled: bool, sortOrder: int)

  // ---------- labels compared across suffixes ----------

  function RemoveTag(tag: string, s: string): string
    requires tag != ""
    decreases |s|
  {
    TrimStartShape(s);
    var t := TrimStart(s);
    if tag <= t then
      TrimStartShape(t[|tag|..]);
      RemoveTag(tag, TrimStart(t[|tag|..]))
    else if s == "" then ""
    else [s[0]] + RemoveTag(tag, s[1..])
  }

  /** Each run of white space becomes one space. */
  function Collapse(s: string): string {
    if s == "" then ""
    else if !IsSpace(s[0]) then [s[0]] + Collapse(s[1..])
    else if |s| > 1 && IsSpace(s[1]) then Collapse(s[1..])
    else " " + Collapse(s[1..])
  }

  const PLACEHOLDER := "(placeholder)"
  const INTERNAL_TAG := "(api interna)"

  function NormalizeLabel(lower: string -> string, s: string): string {
    Trim(Collapse(RemoveTag(INTERNAL_TAG, RemoveTag(PLACEHOLDER, lower(s)))))
  }

  lemma {:induction false} RemoveTagChars(tag: string, s: string)
    requires tag != ""
    ensures forall c :: c in RemoveTag(tag, s) ==> c in s
    decreases |s|
  {
    TrimStartShape(s);
    var t := TrimStart(s);
    if tag <= t {
      TrimStartShape(t[|tag|..]);
      RemoveTagChars(tag, TrimStart(t[|tag|..]));
    } else if s != "" {
      RemoveTagChars(tag, s[1..]);
    }
  }

  /** The tag stands nowhere in the text. */
  predicate Absent(tag: string, s: string) {
    forall i :: 0 <= i <= |s| ==> !(tag <= s[i..])
  }

  lemma {:induction false} NoOccurrence(tag: string, s: string)
    requires tag != "" && Absent(tag, s)
    ensures RemoveTag(tag, s) == s
  {
    TrimStartShape(s);
    if s != "" {
      assert forall i :: 0 <= i <= |s| - 1 ==> s[1..][i..] == s[i + 1..];
      NoOccurrence(tag, s[1..]);
      assert s == [s[0]] + s[1..];
    }
  }

  lemma StandsAt(tag: string, s: string, i: nat, k: nat)
    requires i <= |s| && k < |tag|
    ensures tag <= s[i..] ==> i + |tag| <= |s| && s[i + k] == tag[k]
  {
  }

  lemma NoTag(tag: string, s: string)
    requires tag != "" && tag[0] !in s
    ensures RemoveTag(tag, s) == s
  {
    forall i | 0 <= i <= |s| ensures !(tag <= s[i..]) {
      StandsAt(tag, s, i, 0);
    }
    NoOccurrence(tag, s);
  }

  lemma {:induction false} CollapseChars(s: string)
    ensures forall c :: c in Collapse(s) ==> c in s || c == ' '
  {
    if s != "" {
      CollapseChars(s[1..]);
    }
  }

  lemma {:induction false} CollapseKeeps(s: string, c: char)
    requires c in s && !IsSpace(c)
    ensures c in Collapse(s)
  {
    if s[0] != c {
      CollapseKeeps(s[1..], c);
    }
  }

  /** Normalising invents no character but the space. */
  lemma NormalizeLabelChars(lower: string -> string, s: string, c: char)
    requires c in NormalizeLabel(lower, s) && c != ' '
    ensures c in lower(s)
  {
    var once := RemoveTag(PLACEHOLDER, lower(s));
    RemoveTagChars(PLACEHOLDER, lower(s));
    RemoveTagChars(INTERNAL_TAG, once);
    CollapseChars(RemoveTag(INTERNAL_TAG, once));
    TrimShape(Collapse(RemoveTag(INTERNAL_TAG, once)));
  }

  lemma {:induction false} TrimEndCons(t: string)
    requires !AllSpace(t)
    ensures TrimEnd(t) == [t[0]] + TrimEnd(t[1..])
    decreases |t|
  {
    var n := |t| - 1;
    if IsSpace(t[n]) {
      assert !AllSpace(t[..n]) by {
        var i :| 0 <= i < |t| && !IsSpace(t[i]);
        assert t[..n][i] == t[i];
      }
      TrimEndCons(t[..n]);
      assert t[..n][1..] == t[1..][..n - 1];
    } else if n > 0 {
      assert t[1..][n - 1] == t[n];
    }
  }

  lemma {:induction false} TrimEndOfSpace(t: string)
    requires AllSpace(t)
    ensures TrimEnd(t) == ""
  {
    if t != "" {
      TrimEndOfSpace(t[..|t| - 1]);
    }
  }

  lemma SpaceBeforeTag(t: string, tag: string)
    requires AllSpace(t) && tag != "" && !IsSpace(tag[0])
    ensures TrimStart(t + " " + tag) == tag
  {
    LeadingSpace(t + " ", tag);
  }

  lemma {:induction false} LeadingSpace(w: string, s: string)
    requires AllSpace(w) && s != "" && !IsSpace(s[0])
    ensures TrimStart(w + s) == s
  {
    if w == "" {
      assert w + s == s;
    } else {
      LeadingSpace(w[1..], s);
      assert (w + s)[1..] == w[1..] + s;
    }
  }

  /** A tag behind a text without parentheses goes, with the space around it. */
  lemma {:induction false} TagAtEnd(tag: string, t: string)
    requires tag != "" && tag[0] == '(' && '(' !in t
    ensures RemoveTag(tag, t + " " + tag) == TrimEnd(t)
  {
    hide TrimEnd, TrimStart, IsSpace;
    assert !IsSpace('(') by { ParenthesisIsNoSpace(); }
    var s := t + " " + tag;
    if AllSpace(t) {
      SpaceBeforeTag(t, tag);
      TrimEndOfSpace(t);
      assert tag[|tag|..] == "";
      RemoveNothing(tag);
    } else {
      TrimStartAppended(t, " " + tag);
      assert s == t + (" " + tag);
      NoTagAhead(t, tag);
      TagAtEnd(tag, t[1..]);
      TrimEndCons(t);
      assert s[1..] == t[1..] + " " + tag;
    }
  }

  lemma ParenthesisIsNoSpace()
    ensures !IsSpace('(')
  {
  }

  lemma RemoveNothing(tag: string)
    requires tag != ""
    ensures RemoveTag(tag, TrimStart("")) == ""
  {
  }

  lemma NoTagAhead(t: string, tag: string)
    requires !AllSpace(t) && tag != "" && tag[0] == '(' && '(' !in t
    ensures !(tag <= TrimStart(t) + (" " + tag))
  {
    TrimStartShape(t);
    assert TrimStart(t) == "" ==> AllSpace(t);
    assert TrimStart(t)[0] in t;
  }

  lemma {:induction false} CollapseSpace(w: string)
    requires w != "" && AllSpace(w)
    ensures Collapse(w) == " "
  {
    if |w| > 1 {
      CollapseSpace(w[1..]);
    } else {
      assert w[1..] == "";
    }
  }

  lemma {:induction false} CollapseAppended(a: string, w: string)
    requires w != "" && AllSpace(w) && (a == "" || !IsSpace(a[|a| - 1]))
    ensures Collapse(a + w) == Collapse(a) + " "
  {
    hide IsSpace;
    if a == "" {
      assert a + w == w;
      CollapseSpace(w);
    } else {
      CollapseAppended(a[1..], w);
      assert (a + w)[1..] == a[1..] + w;
    }
  }

  /** However much white space stands between two words, it counts as one space. */
  lemma {:induction false} RunsCollapse(a: string, w: string, b: string)
    requires w != "" && AllSpace(w) && b != "" && !IsSpace(b[0])
    ensures Collapse(a + w + b) == Collapse(a + " " + b)
    decreases |a| + |w|
  {
    hide IsSpace;
    assert AllSpace(" ") by { SpaceIsSpace(); }
    if a != "" {
      assert (a + w + b)[1..] == a[1..] + w + b && (a + " " + b)[1..] == a[1..] + " " + b;
      RunsCollapse(a[1..], w, b);
      HeadAfterSpace(a, w, b);
    } else {
      assert a + w + b == w + b && a + " " + b == " " + b;
      assert (w + b)[1..] == w[1..] + b && (" " + b)[1..] == b;
      if |w| > 1 {
        RunsCollapse("", w[1..], b);
        assert "" + w[1..] + b == w[1..] + b;
      } else {
        assert w[1..] + b == b;
      }
    }
  }

  /** Whether the second character is white space does not depend on how much there is. */
  lemma HeadAfterSpace(a: string, w: string, b: string)
    requires a != "" && w != "" && AllSpace(w) && b != ""
    ensures |a + w + b| > 1 && |a + " " + b| > 1
    ensures IsSpace((a + w + b)[1]) <==> IsSpace((a + " " + b)[1])
    ensures (a + w + b)[0] == (a + " " + b)[0] == a[0]
  {
  }

  /** White space at the end of a text does not show once it is collapsed and trimmed. */
  lemma CollapseTrimEnd(t: string)
    ensures Trim(Collapse(TrimEnd(t))) == Trim(Collapse(t))
  {
    hide IsSpace, Trim, Collapse, TrimEnd;
    TrimEndShape(t);
    var a := TrimEnd(t);
    var w := t[|a|..];
    assert t == a + w;
    if w == "" {
      assert t == a;
    } else {
      CollapseAppended(a, w);
      assert AllSpace(" ") by { SpaceIsSpace(); }
      TrimAppended(Collapse(a), " ");
    }
  }

  lemma SpaceIsSpace()
    ensures AllSpace(" ")
  {
  }

  lemma OtherTagAbsent(t: string)
    requires '(' !in t
    ensures Absent(PLACEHOLDER, t + " " + INTERNAL_TAG)
  {
    var s := t + " " + INTERNAL_TAG;
    assert forall k :: 0 <= k < |t| ==> s[k] == t[k];
    assert s[|t|] == ' ' && s[|t| + 2] == INTERNAL_TAG[1] == 'a';
    assert PLACEHOLDER[0] == '(' && PLACEHOLDER[1] == 'p' && |s| == |t| + 1 + |PLACEHOLDER|;
    forall i | 0 <= i <= |s| ensures !(PLACEHOLDER <= s[i..]) {
      StandsAt(PLACEHOLDER, s, i, 0);
      StandsAt(PLACEHOLDER, s, i, 1);
    }
  }

  /**
   * The suffixes the import and the installer add do not count: a label without parentheses and the
   * same label with one of them normalise alike.
   */
  lemma SuffixIgnored(lower: string -> string, name: string, suffix: string)
    requires '(' !in lower(name)
    requires suffix == " (API interna)" || suffix == " (placeholder)"
    requires lower(name + suffix)
             == lower(name) + " " + (if suffix == " (placeholder)" then PLACEHOLDER else INTERNAL_TAG)
    ensures NormalizeLabel(lower, name + suffix) == NormalizeLabel(lower, name)
  {
    hide RemoveTag, Collapse, Trim, TrimEnd, Absent;
    var t := lower(name);
    NoTag(PLACEHOLDER, t);
    NoTag(INTERNAL_TAG, t);
    CollapseTrimEnd(t);
    if suffix == " (placeholder)" {
      TagAtEnd(PLACEHOLDER, t);
      TrimEndShape(t);
      assert forall c :: c in TrimEnd(t) ==> c in t;
      NoTag(INTERNAL_TAG, TrimEnd(t));
    } else {
      OtherTagAbsent(t);
      NoOccurrence(PLACEHOLDER, t + " " + INTERNAL_TAG);
      TagAtEnd(INTERNAL_TAG, t);
    }
  }

  // ---------- the store ----------

  /** A change to a row: absent fields stay; an empty secret removes the stored one. */
  datatype Patch = Patch(
    kind: Option<string>, name: Option<string>, url: Option<Option<string>>, username: Option<Option<string>>,
    password: Option<Option<string>>, apiToken: Option<Option<string>>, notes: Option<Option<Note>>,
    enabled: Option<bool>, sortOrder: Option<int>)

  function Truthy(s: Option<string>): Option<string> {
    if s == Some("") then None else s
  }

  function Or<T>(change: Option<T>, current: T): T {
    if change.Some? then change.value else current
  }

  function Patched(r: Row, p: Patch): Row {
    Row(r.id, Or(p.kind, r.kind), Or(p.name, r.name), Or(p.url, r.url), Or(p.username, r.username),
        if p.password.Some? then Truthy(p.password.value) else r.password,
        if p.apiToken.Some? then Truthy(p.apiToken.value) else r.apiToken,
        Or(p.notes, r.notes), Or(p.enabled, r.enabled), Or(p.sortOrder, r.sortOrder))
  }

  /** A field after a patch: the given value, else as it was. */
  predicate Takes<T(==)>(change: Option<T>, before: T, after: T) {
    (change.None? ==> after == before) && (change.Some? ==> after == change.value)
  }

  /** A secret after a patch: given as null or as the empty text it is gone, and only then does it go. */
  predicate TakesSecret(change: Option<Option<string>>, before: Option<string>, after: Option<string>) {
    && (change.None? ==> after == before)
    && (change == Some(None) || change == Some(Some("")) ==> after.None?)
    && (change.Some? && change.value.Some? && change.value.value != "" ==> after == change.value)
  }

  /** A stored secret is the given one, and there is one exactly when one that is not empty was given. */
  predicate HoldsSecret(stored: Option<string>, given: Option<string>) {
    && (stored.Some? <==> given.Some? && given.value != "")
    && (stored.Some? ==> stored == given)
  }

  function UrlPatch(url: string): Patch {
    Patch(None, None, Some(Some(url)), None, None, None, None, None, None)
  }

  datatype Input = Input(
    kind: string, name: string, url: Option<string>, username: Option<string>, password: Option<string>,
    apiToken: Option<string>, notes: Option<Note>)

  function Created(id: nat, i: Input): Row {
    Row(id, i.kind, i.name, i.url, i.username, Truthy(i.password), Truthy(i.apiToken), i.notes, true, 100)
  }

  predicate UniqueIds(rows: seq<Row>) {
    forall i, j :: 0 <= i < j < |rows| ==> rows[i].id != rows[j].id
  }

  // ---------- the import ----------

  datatype Source = Source(
    url: Option<string>, username: Option<string>, password: Option<string>, apiToken: Option<string>)

  datatype Scanner = Scanner(name: string, tenant: string, source: Source)

  datatype Settings = Settings(
    lower: string -> string,
    isInternal: string -> bool,
    isAutomaticAccess: Option<string> -> bool,
    browserUrl: seq<Row> -> string,
    guessDashboard: Option<string> -> Option<string>,
    librenms: Source, graylog: Source, loki: Source, wazuh: Source, wazuhIndexer: Source,
    scanners: seq<Scanner>)

  function LabelKey(kind: string, name: string): string {
    kind + ":" + name
  }

  function NormalKey(s: Settings, kind: string, name: string): string {
    kind + "|" + NormalizeLabel(s.lower, name)
  }

  function UrlKey(s: Settings, kind: string, url: string): string {
    kind + "|" + s.lower(url)
  }

  predicate HasLabel(rows: seq<Row>, key: string) {
    exists i :: 0 <= i < |rows| && LabelKey(rows[i].kind, rows[i].name) == key
  }

  predicate HasNormal(s: Settings, rows: seq<Row>, key: string) {
    exists i :: 0 <= i < |rows| && NormalKey(s, rows[i].kind, rows[i].name) == key
  }

  predicate HasUrl(s: Settings, rows: seq<Row>, key: string) {
    exists i :: 0 <= i < |rows| && Truthy(rows[i].url).Some? && UrlKey(s, rows[i].kind, rows[i].url.value) == key
  }

  function FinalLabel(s: Settings, name: string, url: string): string {
    if s.isInternal(url) then name + " (API interna)" else name
  }

  function InternalNote(s: Settings, url: string): Option<Note> {
    if s.isInternal(url) then Some(InternalApiNote) else None
  }

  predicate HasText(t: Option<string>) {
    t.Some? && t.value != ""
  }

  /** A listed row stands for the source: same kind, and same label, same normalised label or same URL. */
  predicate Matches(s: Settings, r: Row, kind: string, name: string, url: string) {
    var final := if s.isInternal(url) then name + " (API interna)" else name;
    || r.kind + ":" + r.name == kind + ":" + final
    || r.kind + "|" + NormalizeLabel(s.lower, r.name) == kind + "|" + NormalizeLabel(s.lower, final)
    || (HasText(r.url) && r.kind + "|" + s.lower(r.url.value) == kind + "|" + s.lower(url))
  }

  /** A source with a URL and a secret for which no listed row stands. */
  predicate Unmatched(s: Settings, listed: seq<Row>, kind: string, name: string, source: Source) {
    && HasText(source.url) && (HasText(source.password) || HasText(source.apiToken))
    && forall i :: 0 <= i < |listed| ==> !Matches(s, listed[i], kind, name, source.url.value)
  }

  /** The row holds the source field by field: label and note tell an internal URL, empty secrets are absent. */
  predicate MadeFrom(s: Settings, r: Row, kind: string, name: string, source: Source) {
    && HasText(source.url) && r.kind == kind && r.url == source.url && r.username == source.username
    && HoldsSecret(r.password, source.password) && HoldsSecret(r.apiToken, source.apiToken)
    && r.name == (if s.isInternal(source.url.value) then name + " (API interna)" else name)
    && r.notes == (if s.isInternal(source.url.value) then Some(InternalApiNote) else None)
    && r.enabled && r.sortOrder == 100
  }

  /** The tests of `addOrInternalNote`, on the rows listed when the import began. */
  predicate Creates(s: Settings, listed: seq<Row>, kind: string, name: string, source: Source) {
    && Truthy(source.url).Some?
    && var url := source.url.value;
       var final := FinalLabel(s, name, url);
       && !HasLabel(listed, LabelKey(kind, final))
       && !HasNormal(s, listed, NormalKey(s, kind, final))
       && !HasUrl(s, listed, UrlKey(s, kind, url))
       && (Truthy(source.password).Some? || Truthy(source.apiToken).Some?)
  }

  /** The LibreNMS source always goes in under the name of its administrator. */
  function AdminSource(s: Settings): Source {
    s.librenms.(username := Some("admin"))
  }

  function SourceInput(s: Settings, kind: string, name: string, source: Source): Input
    requires source.url.Some?
  {
    Input(kind, FinalLabel(s, name, source.url.value), source.url, source.username, source.password, source.apiToken,
          InternalNote(s, source.url.value))
  }

  datatype State = State(rows: seq<Row>, nextId: nat, created: nat, skipped: nat)

  function Insert(st: State, input: Input): State {
    State(st.rows + [Created(st.nextId, input)], st.nextId + 1, st.created + 1, st.skipped)
  }

  function AddNote(s: Settings, listed: seq<Row>, st: State, kind: string, name: string, source: Source): State {
    if Truthy(source.url).None? then st
    else if Creates(s, listed, kind, name, source) then Insert(st, SourceInput(s, kind, name, source))
    else st.(skipped := st.skipped + 1)
  }

  function AddDashboard(listed: seq<Row>, st: State, input: Input): State {
    if HasLabel(listed, LabelKey(input.kind, input.name)) then st else Insert(st, input)
  }

  predicate Rewrites(s: Settings, r: Row) {
    r.kind == "librenms" && s.isAutomaticAccess(r.url)
  }

  function OfKind(rows: seq<Row>, kind: string): seq<Row> {
    if rows == [] then []
    else
      var init, last := OfKind(rows[..|rows| - 1], kind), rows[|rows| - 1];
      if last.kind == kind then init + [last] else init
  }

  /** `resolveIntegrationBrowserUrl`: of the vault it reads the rows of the same kind. */
  function BrowserUrl(s: Settings, rows: seq<Row>): string {
    s.browserUrl(OfKind(rows, "librenms"))
  }

  /** The rows after the loop over the listed ones: automatic-access URLs become the direct one. */
  function Rewritten(s: Settings, listed: seq<Row>, rows: seq<Row>, ui: string): seq<Row> {
    seq(|rows|, i requires 0 <= i < |rows| =>
      if exists j :: 0 <= j < |listed| && listed[j].id == rows[i].id && Rewrites(s, listed[j])
      then rows[i].(url := Some(ui)) else rows[i])
  }

  function LibreNmsDashboard(s: Settings, ui: string): Input {
    Input("librenms", "LibreNMS Dashboard", Some(ui), Some("admin"), s.librenms.password, None,
          Some(LibreNmsUiNote))
  }

  function WazuhDashboard(url: string): Input {
    Input("wazuh", "Wazuh Dashboard (login UI)", Some(url), Some("admin"), None, None,
          Some(WazuhUiNote))
  }

  function AfterLibreNms(s: Settings, listed: seq<Row>, st: State): State {
    var added := AddNote(s, listed, st, "librenms", "LibreNMS", AdminSource(s));
    var ui := BrowserUrl(s, added.rows);
    if ui == "" then added
    else AddDashboard(listed, added.(rows := Rewritten(s, listed, added.rows, ui)), LibreNmsDashboard(s, ui))
  }

  function AfterWazuh(s: Settings, listed: seq<Row>, st: State): State {
    var manager := AddNote(s, listed, st, "wazuh", "Wazuh Manager", s.wazuh);
    var indexer := AddNote(s, listed, manager, "wazuh", "Wazuh Indexer (OpenSearch)", s.wazuhIndexer);
    var dashboard := s.guessDashboard(s.wazuh.url);
    if Truthy(dashboard).None? then indexer else AddDashboard(listed, indexer, WazuhDashboard(dashboard.value))
  }

  function ScannerLabel(scanner: Scanner): string {
    scanner.name + " (" + scanner.tenant + ")"
  }

  function AfterScanners(s: Settings, listed: seq<Row>, st: State, n: nat): State
    requires n <= |s.scanners|
  {
    if n == 0 then st
    else
      var scanner := s.scanners[n - 1];
      AddNote(s, listed, AfterScanners(s, listed, st, n - 1), "edge", ScannerLabel(scanner), scanner.source)
  }

  /** Everything after the LibreNMS part. */
  function AfterRest(s: Settings, listed: seq<Row>, st: State): State {
    var graylog := AddNote(s, listed, st, "graylog", "Graylog", s.graylog);
    var loki := AddNote(s, listed, graylog, "other", "Loki", s.loki);
    AfterScanners(s, listed, AfterWazuh(s, listed, loki), |s.scanners|)
  }

  /** A whole import. */
  function Imported(s: Settings, rows: seq<Row>, nextId: nat): State {
    AfterRest(s, rows, AfterLibreNms(s, rows, State(rows, nextId, 0, 0)))
  }

  /** The fields of the patch, one after the other. */
  method PatchRow(r: Row, p: Patch) returns (row: Row)
    ensures row == Patched(r, p)
    ensures row.id == r.id
    ensures Takes(p.kind, r.kind, row.kind) && Takes(p.name, r.name, row.name) && Takes(p.url, r.url, row.url)
    ensures Takes(p.username, r.username, row.username) && Takes(p.notes, r.notes, row.notes)
    ensures Takes(p.enabled, r.enabled, row.enabled) && Takes(p.sortOrder, r.sortOrder, row.sortOrder)
    ensures TakesSecret(p.password, r.password, row.password) && TakesSecret(p.apiToken, r.apiToken, row.apiToken)
  {
    var kind, name, url, username := r.kind, r.name, r.url, r.username;
    var password, apiToken, notes, enabled, sortOrder := r.password, r.apiToken, r.notes, r.enabled, r.sortOrder;
    if p.kind.Some? { kind := p.kind.value; }
    assert kind == Or(p.kind, r.kind);
    if p.name.Some? { name := p.name.value; }
    assert name == Or(p.name, r.name);
    if p.url.Some? { url := p.url.value; }
    assert url == Or(p.url, r.url);
    if p.username.Some? { username := p.username.value; }
    assert username == Or(p.username, r.username);
    if p.password.Some? { password := Truthy(p.password.value); }
    if p.apiToken.Some? { apiToken := Truthy(p.apiToken.value); }
    if p.notes.Some? { notes := p.notes.value; }
    assert notes == Or(p.notes, r.notes);
    if p.enabled.Some? { enabled := p.enabled.value; }
    assert enabled == Or(p.enabled, r.enabled);
    if p.sortOrder.Some? { sortOrder := p.sortOrder.value; }
    assert sortOrder == Or(p.sortOrder, r.sortOrder);
    row := Row(r.id, kind, name, url, username, password, apiToken, notes, enabled, sortOrder);
  }

  class Store {
    var rows: seq<Row>
    var nextId: nat

    ghost predicate Valid()
      reads this
    {
      UniqueIds(rows) && forall i :: 0 <= i < |rows| ==> rows[i].id < nextId
    }

    constructor ()
      ensures Valid() && rows == []
    {
      rows, nextId := [], 1;
    }

    /** `createCredential`: the row is added as enabled, at sort order 100, with the next id. */
    method Create(input: Input)
      requires Valid()
      modifies this
      ensures Valid()
      ensures |rows| == |old(rows)| + 1 && rows[..|old(rows)|] == old(rows) && nextId == old(nextId) + 1
      ensures var r := rows[|old(rows)|];
              && r.id == old(nextId) && r.kind == input.kind && r.name == input.name && r.url == input.url
              && r.username == input.username && r.notes == input.notes && r.enabled && r.sortOrder == 100
              && HoldsSecret(r.password, input.password) && HoldsSecret(r.apiToken, input.apiToken)
      ensures rows == old(rows) + [Created(old(nextId), input)]
    {
      var password := if input.password.Some? && input.password.value != "" then input.password else None;
      var apiToken := if input.apiToken.Some? && input.apiToken.value != "" then input.apiToken else None;
      rows := rows + [Row(nextId, input.kind, input.name, input.url, input.username, password, apiToken,
                          input.notes, true, 100)];
      nextId := nextId + 1;
    }

    /** `updateCredential`: the row with the id, if any, takes the fields the patch has. */
    method Update(id: nat, p: Patch) returns (found: bool)
      requires Valid()
      modifies this
      ensures Valid() && nextId == old(nextId) && |rows| == |old(rows)|
      ensures found <==> exists i :: 0 <= i < |old(rows)| && old(rows)[i].id == id
      ensures forall i :: 0 <= i < |rows| ==>
                rows[i] == if old(rows)[i].id == id then Patched(old(rows)[i], p) else old(rows)[i]
    {
      for k := 0 to |rows|
        invariant rows == old(rows)
        invariant forall i :: 0 <= i < k ==> rows[i].id != id
      {
        if rows[k].id == id {
          var row := PatchRow(rows[k], p);
          rows := rows[k := row];
          return true;
        }
      }
      found := false;
    }

    method AddOrInternalNote(s: Settings, listed: seq<Row>, kind: string, name: string, source: Source, ghost st: State)
      returns (created: nat, skipped: nat)
      requires Valid() && st.rows == rows && st.nextId == nextId
      modifies this
      ensures Valid()
      ensures created == (if Unmatched(s, listed, kind, name, source) then 1 else 0)
      ensures skipped == (if HasText(source.url) && !Unmatched(s, listed, kind, name, source) then 1 else 0)
      ensures |rows| == |old(rows)| + created && rows[..|old(rows)|] == old(rows) && nextId == old(nextId) + created
      ensures created == 1 ==>
                rows[|old(rows)|].id == old(nextId) && MadeFrom(s, rows[|old(rows)|], kind, name, source)
      ensures AddNote(s, listed, st, kind, name, source)
              == State(rows, nextId, st.created + created, st.skipped + skipped)
    {
      created, skipped := 0, 0;
      if source.url.None? || source.url.value == "" {
        return;
      }
      var url := source.url.value;
      var final := FinalLabel(s, name, url);
      if HasLabel(listed, LabelKey(kind, final)) {
        skipped := 1;
      } else if HasNormal(s, listed, NormalKey(s, kind, final)) {
        skipped := 1;
      } else if HasUrl(s, listed, UrlKey(s, kind, url)) {
        skipped := 1;
      } else if Truthy(source.password).None? && Truthy(source.apiToken).None? {
        skipped := 1;
      } else {
        Create(Input(kind, final, source.url, source.username, source.password, source.apiToken, InternalNote(s, url)));
        created := 1;
      }
    }

    /** The loop over the rows listed when the import began. */
    method RewriteAutomaticAccess(s: Settings, listed: seq<Row>, ui: string)
      requires Valid()
      modifies this
      ensures Valid() && nextId == old(nextId)
      ensures rows == Rewritten(s, listed, old(rows), ui)
    {
      for j := 0 to |listed|
        invariant Valid() && nextId == old(nextId)
        invariant rows == Rewritten(s, listed[..j], old(rows), ui)
      {
        if listed[j].kind == "librenms" && s.isAutomaticAccess(listed[j].url) {
          var found := Update(listed[j].id, UrlPatch(ui));
        }
        RewriteStep(s, listed, j, old(rows), ui);
      }
      assert listed[..|listed|] == listed;
    }

    method SyncLibreNms(s: Settings, listed: seq<Row>, ghost st: State) returns (created: nat, skipped: nat)
      requires Valid() && st.rows == rows && st.nextId == nextId
      modifies this
      ensures Valid()
      ensures AfterLibreNms(s, listed, st) == State(rows, nextId, st.created + created, st.skipped + skipped)
    {
      hide AddNote, Unmatched, MadeFrom, HasLabel, HoldsSecret, BrowserUrl, Rewritten;
      created, skipped := AddOrInternalNote(s, listed, "librenms", "LibreNMS", AdminSource(s), st);
      var ui := BrowserUrl(s, rows);
      if ui != "" {
        RewriteAutomaticAccess(s, listed, ui);
        var input := LibreNmsDashboard(s, ui);
        if !HasLabel(listed, LabelKey(input.kind, input.name)) {
          Create(input);
          created := created + 1;
        }
      }
    }

    method SyncWazuh(s: Settings, listed: seq<Row>, ghost st: State) returns (created: nat, skipped: nat)
      requires Valid() && st.rows == rows && st.nextId == nextId
      modifies this
      ensures Valid()
      ensures AfterWazuh(s, listed, st) == State(rows, nextId, st.created + created, st.skipped + skipped)
    {
      hide AddNote, Unmatched, MadeFrom, HasLabel, HoldsSecret;
      created, skipped := AddOrInternalNote(s, listed, "wazuh", "Wazuh Manager", s.wazuh, st);
      ghost var manager := AddNote(s, listed, st, "wazuh", "Wazuh Manager", s.wazuh);
      var c, k := AddOrInternalNote(s, listed, "wazuh", "Wazuh Indexer (OpenSearch)", s.wazuhIndexer, manager);
      created, skipped := created + c, skipped + k;
      var dashboard := s.guessDashboard(s.wazuh.url);
      if dashboard.Some? && dashboard.value != "" {
        var input := WazuhDashboard(dashboard.value);
        if !HasLabel(listed, LabelKey(input.kind, input.name)) {
          Create(input);
          created := created + 1;
        }
      }
    }

    /** `syncFromLegacySettings`. */
    method SyncFromLegacySettings(s: Settings) returns (created: nat, skipped: nat)
      requires Valid()
      modifies this
      ensures Valid()
      ensures Imported(s, old(rows), old(nextId)) == State(rows, nextId, created, skipped)
    {
      hide AddNote, Unmatched, MadeFrom, AfterLibreNms, AfterWazuh;
      var listed := rows;
      ghost var st := State(rows, nextId, 0, 0);
      created, skipped := SyncLibreNms(s, listed, st);
      st := AfterLibreNms(s, listed, st);
      var c, k := AddOrInternalNote(s, listed, "graylog", "Graylog", s.graylog, st);
      st := AddNote(s, listed, st, "graylog", "Graylog", s.graylog);
      created, skipped := created + c, skipped + k;
      c, k := AddOrInternalNote(s, listed, "other", "Loki", s.loki, st);
      st := AddNote(s, listed, st, "other", "Loki", s.loki);
      created, skipped := created + c, skipped + k;
      c, k := SyncWazuh(s, listed, st);
      st := AfterWazuh(s, listed, st);
      created, skipped := created + c, skipped + k;
      for n := 0 to |s.scanners|
        invariant Valid()
        invariant AfterScanners(s, listed, st, n) == State(rows, nextId, created, skipped)
      {
        c, k := AddOrInternalNote(s, listed, "edge", ScannerLabel(s.scanners[n]), s.scanners[n].source,
                                  AfterScanners(s, listed, st, n));
        created, skipped := created + c, skipped + k;
      }
    }
  }

  /** One more listed row rewrites at most the row with its id. */
  lemma RewriteStep(s: Settings, listed: seq<Row>, j: nat, rows: seq<Row>, ui: string)
    requires j < |listed| && UniqueIds(rows)
    ensures |Rewritten(s, listed[..j + 1], rows, ui)| == |Rewritten(s, listed[..j], rows, ui)| == |rows|
    ensures forall i :: 0 <= i < |rows| ==>
              Rewritten(s, listed[..j + 1], rows, ui)[i] ==
              if rows[i].id == listed[j].id && Rewrites(s, listed[j])
              then Rewritten(s, listed[..j], rows, ui)[i].(url := Some(ui)) else Rewritten(s, listed[..j], rows, ui)[i]
  {
    var shorter, longer := listed[..j], listed[..j + 1];
    assert forall k :: 0 <= k < j ==> shorter[k] == longer[k];
    assert longer[j] == listed[j];
  }

  // ---------- what one import keeps ----------

  /** A row after an import: only an automatic-access URL changes, and only when there is a browser URL. */
  function Kept(s: Settings, r: Row, ui: string): Row {
    if ui != "" && r.kind == "librenms" && s.isAutomaticAccess(r.url) then r.(url := Some(ui)) else r
  }

  /** The later rows start with the earlier ones, kept. */
  ghost predicate KeptIn(s: Settings, before: seq<Row>, after: seq<Row>, ui: string) {
    && |before| <= |after|
    && forall i :: 0 <= i < |before| ==> after[i] == Kept(s, before[i], ui)
  }

  /** A row of another kind than LibreNMS: its kind starts with another letter. */
  predicate Foreign(kind: string) {
    kind != "" && kind[0] != 'l'
  }

  /** Rows of other kinds are added, as many as are counted. */
  ghost predicate Appends(before: State, after: State) {
    && before.rows <= after.rows
    && |after.rows| - |before.rows| == after.created - before.created
    && forall i :: |before.rows| <= i < |after.rows| ==> Foreign(after.rows[i].kind)
  }

  lemma NoteAppends(s: Settings, listed: seq<Row>, st: State, kind: string, name: string, source: Source)
    requires Foreign(kind)
    ensures Appends(st, AddNote(s, listed, st, kind, name, source))
  {
    hide Creates;
  }

  lemma {:induction false} ScannersAppend(s: Settings, listed: seq<Row>, st: State, n: nat)
    requires n <= |s.scanners|
    ensures Appends(st, AfterScanners(s, listed, st, n))
  {
    hide AddNote;
    if n > 0 {
      ScannersAppend(s, listed, st, n - 1);
      NoteAppends(s, listed, AfterScanners(s, listed, st, n - 1), "edge", ScannerLabel(s.scanners[n - 1]),
                  s.scanners[n - 1].source);
    }
  }

  lemma WazuhAppends(s: Settings, listed: seq<Row>, st: State)
    ensures Appends(st, AfterWazuh(s, listed, st))
  {
    hide AddNote, HasLabel;
    NoteAppends(s, listed, st, "wazuh", "Wazuh Manager", s.wazuh);
    var manager := AddNote(s, listed, st, "wazuh", "Wazuh Manager", s.wazuh);
    NoteAppends(s, listed, manager, "wazuh", "Wazuh Indexer (OpenSearch)", s.wazuhIndexer);
  }

  lemma RestAppends(s: Settings, listed: seq<Row>, st: State)
    ensures Appends(st, AfterRest(s, listed, st))
  {
    hide AddNote, AfterWazuh, AfterScanners;
    var graylog := AddNote(s, listed, st, "graylog", "Graylog", s.graylog);
    var loki := AddNote(s, listed, graylog, "other", "Loki", s.loki);
    NoteAppends(s, listed, st, "graylog", "Graylog", s.graylog);
    NoteAppends(s, listed, graylog, "other", "Loki", s.loki);
    WazuhAppends(s, listed, loki);
    ScannersAppend(s, listed, AfterWazuh(s, listed, loki), |s.scanners|);
  }

  /** The state after the first, LibreNMS, source of an import. */
  function AfterFirst(s: Settings, rows: seq<Row>, nextId: nat): State {
    AddNote(s, rows, State(rows, nextId, 0, 0), "librenms", "LibreNMS", AdminSource(s))
  }

  /** The browser URL a whole import uses. */
  function ChosenUrl(s: Settings, rows: seq<Row>, nextId: nat): string {
    BrowserUrl(s, AfterFirst(s, rows, nextId).rows)
  }

  lemma RewrittenIsKept(s: Settings, rows: seq<Row>, more: seq<Row>, ui: string)
    requires UniqueIds(rows) && rows <= more && ui != ""
    ensures KeptIn(s, rows, Rewritten(s, rows, more, ui), ui)
  {
  }

  lemma FirstKeeps(s: Settings, rows: seq<Row>, nextId: nat)
    ensures rows <= AfterFirst(s, rows, nextId).rows
    ensures |AfterFirst(s, rows, nextId).rows| == |rows| + AfterFirst(s, rows, nextId).created
  {
    hide Creates;
  }

  lemma LibreNmsKeeps(s: Settings, rows: seq<Row>, nextId: nat)
    requires UniqueIds(rows)
    ensures KeptIn(s, rows, AfterLibreNms(s, rows, State(rows, nextId, 0, 0)).rows, ChosenUrl(s, rows, nextId))
    ensures |AfterLibreNms(s, rows, State(rows, nextId, 0, 0)).rows|
            == |rows| + AfterLibreNms(s, rows, State(rows, nextId, 0, 0)).created
  {
    hide Creates, AddNote, HasLabel, BrowserUrl, Rewritten;
    FirstKeeps(s, rows, nextId);
    var first, ui := AfterFirst(s, rows, nextId), ChosenUrl(s, rows, nextId);
    if ui != "" {
      RewrittenIsKept(s, rows, first.rows, ui);
      RewrittenLength(s, rows, first.rows, ui);
    }
  }

  lemma RewrittenLength(s: Settings, listed: seq<Row>, rows: seq<Row>, ui: string)
    ensures |Rewritten(s, listed, rows, ui)| == |rows|
  {
  }

  /**
   * One import, from any vault: every row stays, with its id, kind, label and secrets; only
   * automatic-access URLs of LibreNMS change, all to the browser URL; the count is that of the new rows.
   */
  lemma ImportKeepsRows(s: Settings, rows: seq<Row>, nextId: nat)
    requires UniqueIds(rows)
    ensures KeptIn(s, rows, Imported(s, rows, nextId).rows, ChosenUrl(s, rows, nextId))
    ensures |Imported(s, rows, nextId).rows| == |rows| + Imported(s, rows, nextId).created
  {
    hide AfterLibreNms, AfterRest, Rewrites;
    LibreNmsKeeps(s, rows, nextId);
    RestAppends(s, rows, AfterLibreNms(s, rows, State(rows, nextId, 0, 0)));
  }

  // ---------- what one import adds ----------

  /** A missing source is among the new rows. */
  ghost predicate Lands(s: Settings, listed: seq<Row>, rows: seq<Row>, kind: string, name: string, source: Source) {
    Unmatched(s, listed, kind, name, source) ==>
      exists i :: |listed| <= i < |rows| && MadeFrom(s, rows[i], kind, name, source)
  }

  /** The tests of the code, key by key, are that no listed row stands for the source. */
  lemma CreatesIsUnmatched(s: Settings, listed: seq<Row>, kind: string, name: string, source: Source)
    ensures Creates(s, listed, kind, name, source) <==> Unmatched(s, listed, kind, name, source)
  {
    hide NormalizeLabel;
    if HasText(source.url) {
      var url := source.url.value;
      var final := FinalLabel(s, name, url);
      forall i | 0 <= i < |listed|
        ensures Matches(s, listed[i], kind, name, url) <==>
                  || LabelKey(listed[i].kind, listed[i].name) == LabelKey(kind, final)
                  || NormalKey(s, listed[i].kind, listed[i].name) == NormalKey(s, kind, final)
                  || (Truthy(listed[i].url).Some?
                      && UrlKey(s, listed[i].kind, listed[i].url.value) == UrlKey(s, kind, url))
      {
      }
      KeysMatch(s, listed, kind, name, url);
    }
  }

  lemma KeysMatch(s: Settings, listed: seq<Row>, kind: string, name: string, url: string)
    ensures var final := FinalLabel(s, name, url);
            (exists i :: 0 <= i < |listed| && Matches(s, listed[i], kind, name, url)) <==>
              || HasLabel(listed, LabelKey(kind, final)) || HasNormal(s, listed, NormalKey(s, kind, final))
              || HasUrl(s, listed, UrlKey(s, kind, url))
  {
    hide NormalizeLabel;
    var final := FinalLabel(s, name, url);
    if i :| 0 <= i < |listed| && LabelKey(listed[i].kind, listed[i].name) == LabelKey(kind, final) {
      assert Matches(s, listed[i], kind, name, url);
    }
    if i :| 0 <= i < |listed| && NormalKey(s, listed[i].kind, listed[i].name) == NormalKey(s, kind, final) {
      assert Matches(s, listed[i], kind, name, url);
    }
    if i :| 0 <= i < |listed| && Truthy(listed[i].url).Some?
            && UrlKey(s, listed[i].kind, listed[i].url.value) == UrlKey(s, kind, url) {
      assert Matches(s, listed[i], kind, name, url);
    }
    if i :| 0 <= i < |listed| && Matches(s, listed[i], kind, name, url) {
      assert || LabelKey(listed[i].kind, listed[i].name) == LabelKey(kind, final)
             || NormalKey(s, listed[i].kind, listed[i].name) == NormalKey(s, kind, final)
             || UrlKey(s, listed[i].kind, listed[i].url.value) == UrlKey(s, kind, url);
    }
  }

  lemma NoteAdds(s: Settings, listed: seq<Row>, st: State, kind: string, name: string, source: Source)
    ensures var rows := AddNote(s, listed, st, kind, name, source).rows;
            if Unmatched(s, listed, kind, name, source)
            then |rows| == |st.rows| + 1 && rows[..|st.rows|] == st.rows
                 && MadeFrom(s, rows[|st.rows|], kind, name, source) && rows[|st.rows|].id == st.nextId
            else rows == st.rows
  {
    hide HasLabel, HasNormal, HasUrl, Unmatched;
    CreatesIsUnmatched(s, listed, kind, name, source);
  }

  lemma NoteLands(s: Settings, listed: seq<Row>, st: State, rows: seq<Row>, kind: string, name: string, source: Source)
    requires |listed| <= |st.rows| && AddNote(s, listed, st, kind, name, source).rows <= rows
    ensures Lands(s, listed, rows, kind, name, source)
  {
    hide Unmatched, AddNote, MadeFrom;
    NoteAdds(s, listed, st, kind, name, source);
    if Unmatched(s, listed, kind, name, source) {
      assert MadeFrom(s, rows[|st.rows|], kind, name, source);
    }
  }

  lemma {:induction false} ScannersLand(s: Settings, listed: seq<Row>, st: State, rows: seq<Row>, n: nat, k: nat)
    requires k < n <= |s.scanners| && |listed| <= |st.rows| && AfterScanners(s, listed, st, n).rows <= rows
    ensures Lands(s, listed, rows, "edge", ScannerLabel(s.scanners[k]), s.scanners[k].source)
  {
    hide AddNote, Lands, Creates;
    var before, scanner := AfterScanners(s, listed, st, n - 1), s.scanners[n - 1];
    ScannersAppend(s, listed, st, n - 1);
    NoteAppends(s, listed, before, "edge", ScannerLabel(scanner), scanner.source);
    if k < n - 1 {
      ScannersLand(s, listed, st, rows, n - 1, k);
    } else {
      NoteLands(s, listed, before, rows, "edge", ScannerLabel(scanner), scanner.source);
    }
  }

  /** The LibreNMS row of this import is not among those it rewrites. */
  lemma LibreNmsLands(s: Settings, rows: seq<Row>, nextId: nat)
    requires forall i :: 0 <= i < |rows| ==> rows[i].id < nextId
    ensures var later := AfterLibreNms(s, rows, State(rows, nextId, 0, 0)).rows;
            Lands(s, rows, later, "librenms", "LibreNMS", AdminSource(s))
  {
    hide Unmatched, HasLabel, BrowserUrl, AddNote, LibreNmsDashboard, MadeFrom;
    var first := AfterFirst(s, rows, nextId);
    var later := AfterLibreNms(s, rows, State(rows, nextId, 0, 0)).rows;
    NoteAdds(s, rows, State(rows, nextId, 0, 0), "librenms", "LibreNMS", AdminSource(s));
    if Unmatched(s, rows, "librenms", "LibreNMS", AdminSource(s)) {
      assert later[|rows|] == first.rows[|rows|];
    }
  }

  lemma LandsLater(s: Settings, listed: seq<Row>, rows: seq<Row>, later: seq<Row>, kind: string, name: string,
                   source: Source)
    requires Lands(s, listed, rows, kind, name, source) && rows <= later
    ensures Lands(s, listed, later, kind, name, source)
  {
    hide Unmatched, MadeFrom;
    if Unmatched(s, listed, kind, name, source) {
      var i :| |listed| <= i < |rows| && MadeFrom(s, rows[i], kind, name, source);
      assert MadeFrom(s, later[i], kind, name, source);
    }
  }

  /** The Wazuh sources land. */
  lemma WazuhLands(s: Settings, listed: seq<Row>, st: State, rows: seq<Row>)
    requires |listed| <= |st.rows| && AfterWazuh(s, listed, st).rows <= rows
    ensures Lands(s, listed, rows, "wazuh", "Wazuh Manager", s.wazuh)
    ensures Lands(s, listed, rows, "wazuh", "Wazuh Indexer (OpenSearch)", s.wazuhIndexer)
  {
    hide AddNote, Lands, AddDashboard, WazuhDashboard;
    var manager := AddNote(s, listed, st, "wazuh", "Wazuh Manager", s.wazuh);
    var indexer := AddNote(s, listed, manager, "wazuh", "Wazuh Indexer (OpenSearch)", s.wazuhIndexer);
    var dashboard := s.guessDashboard(s.wazuh.url);
    NoteAppends(s, listed, st, "wazuh", "Wazuh Manager", s.wazuh);
    NoteAppends(s, listed, manager, "wazuh", "Wazuh Indexer (OpenSearch)", s.wazuhIndexer);
    if Truthy(dashboard).Some? {
      DashboardAppends(listed, indexer, WazuhDashboard(dashboard.value));
    }
    assert indexer.rows <= rows;
    NoteLands(s, listed, st, rows, "wazuh", "Wazuh Manager", s.wazuh);
    NoteLands(s, listed, manager, rows, "wazuh", "Wazuh Indexer (OpenSearch)", s.wazuhIndexer);
  }

  /**
   * Every source that has a URL and a secret and matches no listed row is imported: a new row holds its
   * kind, label, URL, user name and secrets.
   */
  lemma EverySourceLands(s: Settings, rows: seq<Row>, nextId: nat)
    requires forall i :: 0 <= i < |rows| ==> rows[i].id < nextId
    requires UniqueIds(rows)
    ensures var later := Imported(s, rows, nextId).rows;
            && Lands(s, rows, later, "librenms", "LibreNMS", s.librenms.(username := Some("admin")))
            && Lands(s, rows, later, "graylog", "Graylog", s.graylog)
            && Lands(s, rows, later, "other", "Loki", s.loki)
            && Lands(s, rows, later, "wazuh", "Wazuh Manager", s.wazuh)
            && Lands(s, rows, later, "wazuh", "Wazuh Indexer (OpenSearch)", s.wazuhIndexer)
            && forall k :: 0 <= k < |s.scanners| ==>
                 Lands(s, rows, later, "edge", s.scanners[k].name + " (" + s.scanners[k].tenant + ")",
                       s.scanners[k].source)
  {
    hide AddNote, AfterLibreNms, AfterWazuh, AfterScanners, Lands, Creates, Foreign;
    var librenms := AfterLibreNms(s, rows, State(rows, nextId, 0, 0));
    var graylog := AddNote(s, rows, librenms, "graylog", "Graylog", s.graylog);
    var loki := AddNote(s, rows, graylog, "other", "Loki", s.loki);
    var wazuh := AfterWazuh(s, rows, loki);
    var later := Imported(s, rows, nextId).rows;
    LibreNmsKeeps(s, rows, nextId);
    KindsAreForeign();
    NoteAppends(s, rows, librenms, "graylog", "Graylog", s.graylog);
    NoteAppends(s, rows, graylog, "other", "Loki", s.loki);
    WazuhAppends(s, rows, loki);
    ScannersAppend(s, rows, wazuh, |s.scanners|);
    LibreNmsLands(s, rows, nextId);
    LandsLater(s, rows, librenms.rows, later, "librenms", "LibreNMS", AdminSource(s));
    NoteLands(s, rows, librenms, later, "graylog", "Graylog", s.graylog);
    NoteLands(s, rows, graylog, later, "other", "Loki", s.loki);
    WazuhLands(s, rows, loki, later);
    forall k | 0 <= k < |s.scanners|
      ensures Lands(s, rows, later, "edge", ScannerLabel(s.scanners[k]), s.scanners[k].source)
    {
      ScannersLand(s, rows, wazuh, later, |s.scanners|, k);
    }
  }

  lemma KindsAreForeign()
    ensures Foreign("graylog") && Foreign("other") && Foreign("wazuh") && Foreign("edge")
  {
  }

  /** A new row is that of a missing source, or one of the two dashboards. */
  ghost predicate Accounted(s: Settings, listed: seq<Row>, r: Row) {
    || Missing(s, listed, r, "librenms", "LibreNMS", s.librenms.(username := Some("admin")))
    || Missing(s, listed, r, "graylog", "Graylog", s.graylog)
    || Missing(s, listed, r, "other", "Loki", s.loki)
    || Missing(s, listed, r, "wazuh", "Wazuh Manager", s.wazuh)
    || Missing(s, listed, r, "wazuh", "Wazuh Indexer (OpenSearch)", s.wazuhIndexer)
    || (exists n :: 0 <= n < |s.scanners|
          && Missing(s, listed, r, "edge", s.scanners[n].name + " (" + s.scanners[n].tenant + ")",
                     s.scanners[n].source))
    || (NoRowCalled(listed, "librenms:LibreNMS Dashboard") && IsLibreNmsDashboard(s, r))
    || (NoRowCalled(listed, "wazuh:Wazuh Dashboard (login UI)") && IsWazuhDashboard(s, r))
  }

  predicate Missing(s: Settings, listed: seq<Row>, r: Row, kind: string, name: string, source: Source) {
    Unmatched(s, listed, kind, name, source) && MadeFrom(s, r, kind, name, source)
  }

  predicate NoRowCalled(listed: seq<Row>, key: string) {
    forall i :: 0 <= i < |listed| ==> listed[i].kind + ":" + listed[i].name != key
  }

  /** The row for the LibreNMS page: its administrator's name and password, no token, at a browser URL. */
  predicate IsLibreNmsDashboard(s: Settings, r: Row) {
    && r.kind == "librenms" && r.name == "LibreNMS Dashboard" && HasText(r.url) && r.username == Some("admin")
    && HoldsSecret(r.password, s.librenms.password) && r.apiToken.None? && r.notes == Some(LibreNmsUiNote)
    && r.enabled && r.sortOrder == 100
  }

  /** The row for the Wazuh page: at the guessed URL, without a secret. */
  predicate IsWazuhDashboard(s: Settings, r: Row) {
    && r.kind == "wazuh" && r.name == "Wazuh Dashboard (login UI)" && r.username == Some("admin")
    && HasText(r.url) && r.url == s.guessDashboard(s.wazuh.url)
    && r.password.None? && r.apiToken.None? && r.notes == Some(WazuhUiNote)
    && r.enabled && r.sortOrder == 100
  }

  predicate MissingDashboard(listed: seq<Row>, r: Row, input: Input) {
    !HasLabel(listed, LabelKey(input.kind, input.name)) && r == Created(r.id, input)
  }

  lemma DashboardsAreThose(s: Settings, listed: seq<Row>, r: Row, url: string)
    requires url != ""
    ensures MissingDashboard(listed, r, LibreNmsDashboard(s, url)) ==>
              NoRowCalled(listed, "librenms:LibreNMS Dashboard") && IsLibreNmsDashboard(s, r) && r.url == Some(url)
    ensures Some(url) == s.guessDashboard(s.wazuh.url) && MissingDashboard(listed, r, WazuhDashboard(url)) ==>
              NoRowCalled(listed, "wazuh:Wazuh Dashboard (login UI)") && IsWazuhDashboard(s, r)
  {
    hide LabelKey, NoRowCalled, HasLabel;
    PageLabels();
    NotCalled(listed, "librenms:LibreNMS Dashboard");
    NotCalled(listed, "wazuh:Wazuh Dashboard (login UI)");
  }

  /** From the length of the listed rows on, every row is accounted for. */
  ghost predicate AllAccounted(s: Settings, listed: seq<Row>, rows: seq<Row>) {
    forall i :: |listed| <= i < |rows| ==> Accounted(s, listed, rows[i])
  }

  lemma NoteAccounted(s: Settings, listed: seq<Row>, st: State, kind: string, name: string, source: Source)
    requires AllAccounted(s, listed, st.rows)
    requires forall r :: Missing(s, listed, r, kind, name, source) ==> Accounted(s, listed, r)
    ensures AllAccounted(s, listed, AddNote(s, listed, st, kind, name, source).rows)
  {
    hide Unmatched, AddNote, MadeFrom, Accounted;
    NoteAdds(s, listed, st, kind, name, source);
    var rows := AddNote(s, listed, st, kind, name, source).rows;
    if Unmatched(s, listed, kind, name, source) {
      assert Missing(s, listed, rows[|st.rows|], kind, name, source);
      assert forall i :: 0 <= i < |st.rows| ==> rows[i] == rows[..|st.rows|][i];
    }
  }

  lemma DashboardAccounted(s: Settings, listed: seq<Row>, st: State, input: Input)
    requires AllAccounted(s, listed, st.rows)
    requires forall r :: MissingDashboard(listed, r, input) ==> Accounted(s, listed, r)
    ensures AllAccounted(s, listed, AddDashboard(listed, st, input).rows)
  {
    hide HasLabel, Accounted;
    var rows := AddDashboard(listed, st, input).rows;
    if !HasLabel(listed, LabelKey(input.kind, input.name)) {
      assert MissingDashboard(listed, rows[|st.rows|], input);
    }
  }

  lemma LibreNmsPageAccounted(s: Settings, listed: seq<Row>, ui: string)
    requires ui != ""
    ensures forall r :: MissingDashboard(listed, r, LibreNmsDashboard(s, ui)) ==> Accounted(s, listed, r)
  {
    hide Missing, MissingDashboard, NoRowCalled, IsLibreNmsDashboard, IsWazuhDashboard, LibreNmsDashboard;
    forall r | MissingDashboard(listed, r, LibreNmsDashboard(s, ui)) ensures Accounted(s, listed, r) {
      DashboardsAreThose(s, listed, r, ui);
    }
  }

  lemma WazuhPageAccounted(s: Settings, listed: seq<Row>, url: string)
    requires url != "" && Some(url) == s.guessDashboard(s.wazuh.url)
    ensures forall r :: MissingDashboard(listed, r, WazuhDashboard(url)) ==> Accounted(s, listed, r)
  {
    hide Missing, MissingDashboard, NoRowCalled, IsLibreNmsDashboard, IsWazuhDashboard, WazuhDashboard;
    forall r | MissingDashboard(listed, r, WazuhDashboard(url)) ensures Accounted(s, listed, r) {
      DashboardsAreThose(s, listed, r, url);
    }
  }

  lemma LibreNmsIsAccounted(s: Settings, listed: seq<Row>)
    ensures forall r :: Missing(s, listed, r, "librenms", "LibreNMS", AdminSource(s)) ==> Accounted(s, listed, r)
  {
    hide Missing, NoRowCalled, IsLibreNmsDashboard, IsWazuhDashboard;
  }

  /** Rewriting the listed rows leaves the new ones alone. */
  lemma RewriteKeepsNew(s: Settings, listed: seq<Row>, rows: seq<Row>, ui: string)
    requires |rows| <= |listed| + 1 && |listed| <= |rows|
    requires forall i :: 0 <= i < |listed| && |listed| < |rows| ==> listed[i].id != rows[|listed|].id
    requires AllAccounted(s, listed, rows)
    ensures AllAccounted(s, listed, Rewritten(s, listed, rows, ui))
  {
    hide Accounted, Rewrites;
  }

  lemma LibreNmsAccounted(s: Settings, rows: seq<Row>, nextId: nat)
    requires forall i :: 0 <= i < |rows| ==> rows[i].id < nextId
    ensures AllAccounted(s, rows, AfterLibreNms(s, rows, State(rows, nextId, 0, 0)).rows)
  {
    hide Unmatched, HasLabel, BrowserUrl, AddNote, MadeFrom, Missing, MissingDashboard, AddDashboard, Accounted,
         Rewritten;
    var st := State(rows, nextId, 0, 0);
    var first, ui := AfterFirst(s, rows, nextId), ChosenUrl(s, rows, nextId);
    LibreNmsIsAccounted(s, rows);
    NoteAccounted(s, rows, st, "librenms", "LibreNMS", AdminSource(s));
    NoteAdds(s, rows, st, "librenms", "LibreNMS", AdminSource(s));
    if ui != "" {
      RewriteKeepsNew(s, rows, first.rows, ui);
      LibreNmsPageAccounted(s, rows, ui);
      DashboardAccounted(s, rows, first.(rows := Rewritten(s, rows, first.rows, ui)), LibreNmsDashboard(s, ui));
    }
  }

  lemma {:induction false} ScannersAccounted(s: Settings, listed: seq<Row>, st: State, n: nat)
    requires n <= |s.scanners| && AllAccounted(s, listed, st.rows)
    ensures AllAccounted(s, listed, AfterScanners(s, listed, st, n).rows)
  {
    hide Creates, AddNote, Missing, AllAccounted;
    if n > 0 {
      ScannersAccounted(s, listed, st, n - 1);
      NoteAccounted(s, listed, AfterScanners(s, listed, st, n - 1), "edge", ScannerLabel(s.scanners[n - 1]),
                    s.scanners[n - 1].source);
    }
  }

  /** Nothing else is added: every new row is accounted for. */
  lemma NewRowsAreAccounted(s: Settings, rows: seq<Row>, nextId: nat)
    requires forall i :: 0 <= i < |rows| ==> rows[i].id < nextId
    ensures AllAccounted(s, rows, Imported(s, rows, nextId).rows)
  {
    hide Creates, AddNote, Missing, AfterLibreNms, AllAccounted, MissingDashboard, AfterScanners, AddDashboard;
    var librenms := AfterLibreNms(s, rows, State(rows, nextId, 0, 0));
    var graylog := AddNote(s, rows, librenms, "graylog", "Graylog", s.graylog);
    var loki := AddNote(s, rows, graylog, "other", "Loki", s.loki);
    var manager := AddNote(s, rows, loki, "wazuh", "Wazuh Manager", s.wazuh);
    var indexer := AddNote(s, rows, manager, "wazuh", "Wazuh Indexer (OpenSearch)", s.wazuhIndexer);
    LibreNmsAccounted(s, rows, nextId);
    NoteAccounted(s, rows, librenms, "graylog", "Graylog", s.graylog);
    NoteAccounted(s, rows, graylog, "other", "Loki", s.loki);
    NoteAccounted(s, rows, loki, "wazuh", "Wazuh Manager", s.wazuh);
    NoteAccounted(s, rows, manager, "wazuh", "Wazuh Indexer (OpenSearch)", s.wazuhIndexer);
    var dashboard := s.guessDashboard(s.wazuh.url);
    if Truthy(dashboard).Some? {
      WazuhPageAccounted(s, rows, dashboard.value);
      DashboardAccounted(s, rows, indexer, WazuhDashboard(dashboard.value));
    }
    ScannersAccounted(s, rows, AfterWazuh(s, rows, loki), |s.scanners|);
  }

  // ---------- the two dashboards, and the counts ----------

  lemma DashboardLands(listed: seq<Row>, st: State, later: seq<Row>, input: Input)
    requires |listed| <= |st.rows| && AddDashboard(listed, st, input).rows <= later
    ensures !HasLabel(listed, LabelKey(input.kind, input.name)) ==>
              exists i :: |listed| <= i < |later| && MissingDashboard(listed, later[i], input)
  {
    hide HasLabel;
    if !HasLabel(listed, LabelKey(input.kind, input.name)) {
      assert MissingDashboard(listed, later[|st.rows|], input);
    }
  }

  /** Each dashboard is imported when there is a URL for it and no listed row has its kind and label. */
  lemma DashboardsLand(s: Settings, rows: seq<Row>, nextId: nat)
    requires UniqueIds(rows)
    ensures var later, ui := Imported(s, rows, nextId).rows, ChosenUrl(s, rows, nextId);
            && (ui != "" && NoRowCalled(rows, "librenms:LibreNMS Dashboard") ==>
                  exists i :: |rows| <= i < |later| && IsLibreNmsDashboard(s, later[i]) && later[i].url == Some(ui))
            && (HasText(s.guessDashboard(s.wazuh.url)) && NoRowCalled(rows, "wazuh:Wazuh Dashboard (login UI)") ==>
                  exists i :: |rows| <= i < |later| && IsWazuhDashboard(s, later[i]))
  {
    LibreNmsPageLands(s, rows, nextId);
    WazuhPageLands(s, rows, nextId);
  }

  lemma LibreNmsPageLands(s: Settings, rows: seq<Row>, nextId: nat)
    requires UniqueIds(rows)
    ensures var later, ui := Imported(s, rows, nextId).rows, ChosenUrl(s, rows, nextId);
            ui != "" && NoRowCalled(rows, "librenms:LibreNMS Dashboard") ==>
              exists i :: |rows| <= i < |later| && IsLibreNmsDashboard(s, later[i]) && later[i].url == Some(ui)
  {
    hide AddNote, AfterRest, BrowserUrl, Rewritten, HasLabel, MissingDashboard, LibreNmsDashboard, IsLibreNmsDashboard,
         NoRowCalled, AddDashboard, Foreign;
    var st, ui := State(rows, nextId, 0, 0), ChosenUrl(s, rows, nextId);
    var later := Imported(s, rows, nextId).rows;
    if ui != "" && NoRowCalled(rows, "librenms:LibreNMS Dashboard") {
      var first := AfterFirst(s, rows, nextId);
      var input := LibreNmsDashboard(s, ui);
      RestAppends(s, rows, AfterLibreNms(s, rows, st));
      FirstKeeps(s, rows, nextId);
      RewrittenLength(s, rows, first.rows, ui);
      LibreNmsNotCalled(s, rows, ui);
      DashboardLands(rows, first.(rows := Rewritten(s, rows, first.rows, ui)), later, input);
      var i :| |rows| <= i < |later| && MissingDashboard(rows, later[i], input);
      DashboardsAreThose(s, rows, later[i], ui);
    }
  }

  lemma LibreNmsNotCalled(s: Settings, listed: seq<Row>, ui: string)
    requires NoRowCalled(listed, "librenms:LibreNMS Dashboard")
    ensures var input := LibreNmsDashboard(s, ui); !HasLabel(listed, LabelKey(input.kind, input.name))
  {
    hide LabelKey, NoRowCalled, HasLabel;
    PageLabels();
    NotCalled(listed, "librenms:LibreNMS Dashboard");
  }

  lemma NotCalled(listed: seq<Row>, key: string)
    ensures NoRowCalled(listed, key) <==> !HasLabel(listed, key)
  {
  }

  lemma PageLabels()
    ensures LabelKey("librenms", "LibreNMS Dashboard") == "librenms:LibreNMS Dashboard"
    ensures LabelKey("wazuh", "Wazuh Dashboard (login UI)") == "wazuh:Wazuh Dashboard (login UI)"
  {
  }

  lemma WazuhNotCalled(listed: seq<Row>, url: string)
    requires NoRowCalled(listed, "wazuh:Wazuh Dashboard (login UI)")
    ensures var input := WazuhDashboard(url); !HasLabel(listed, LabelKey(input.kind, input.name))
  {
    hide LabelKey, NoRowCalled, HasLabel;
    PageLabels();
    NotCalled(listed, "wazuh:Wazuh Dashboard (login UI)");
  }

  lemma WazuhPageLands(s: Settings, rows: seq<Row>, nextId: nat)
    requires UniqueIds(rows)
    ensures var later := Imported(s, rows, nextId).rows;
            HasText(s.guessDashboard(s.wazuh.url)) && NoRowCalled(rows, "wazuh:Wazuh Dashboard (login UI)") ==>
              exists i :: |rows| <= i < |later| && IsWazuhDashboard(s, later[i])
  {
    hide AddNote, AfterLibreNms, HasLabel, MissingDashboard, WazuhDashboard, IsWazuhDashboard, NoRowCalled,
         AddDashboard, AfterScanners, Foreign;
    var later := Imported(s, rows, nextId).rows;
    var dashboard := s.guessDashboard(s.wazuh.url);
    if HasText(dashboard) && NoRowCalled(rows, "wazuh:Wazuh Dashboard (login UI)") {
      var librenms := AfterLibreNms(s, rows, State(rows, nextId, 0, 0));
      var graylog := AddNote(s, rows, librenms, "graylog", "Graylog", s.graylog);
      var loki := AddNote(s, rows, graylog, "other", "Loki", s.loki);
      var manager := AddNote(s, rows, loki, "wazuh", "Wazuh Manager", s.wazuh);
      var indexer := AddNote(s, rows, manager, "wazuh", "Wazuh Indexer (OpenSearch)", s.wazuhIndexer);
      var input := WazuhDashboard(dashboard.value);
      KindsAreForeign();
      LibreNmsKeeps(s, rows, nextId);
      NoteAppends(s, rows, librenms, "graylog", "Graylog", s.graylog);
      NoteAppends(s, rows, graylog, "other", "Loki", s.loki);
      NoteAppends(s, rows, loki, "wazuh", "Wazuh Manager", s.wazuh);
      NoteAppends(s, rows, manager, "wazuh", "Wazuh Indexer (OpenSearch)", s.wazuhIndexer);
      ScannersAppend(s, rows, AfterWazuh(s, rows, loki), |s.scanners|);
      WazuhNotCalled(rows, dashboard.value);
      DashboardLands(rows, indexer, later, input);
      var i :| |rows| <= i < |later| && MissingDashboard(rows, later[i], input);
      DashboardsAreThose(s, rows, later[i], dashboard.value);
    }
  }

  /** One for a source that becomes a row. */
  function Creating(s: Settings, listed: seq<Row>, kind: string, name: string, source: Source): nat {
    if Unmatched(s, listed, kind, name, source) then 1 else 0
  }

  /** One for a source with a URL that does not. */
  function Skipping(s: Settings, listed: seq<Row>, kind: string, name: string, source: Source): nat {
    if HasText(source.url) && !Unmatched(s, listed, kind, name, source) then 1 else 0
  }

  function ScannersCreating(s: Settings, listed: seq<Row>, n: nat): nat
    requires n <= |s.scanners|
  {
    if n == 0 then 0
    else
      var scanner := s.scanners[n - 1];
      ScannersCreating(s, listed, n - 1) + Creating(s, listed, "edge", ScannerLabel(scanner), scanner.source)
  }

  function ScannersSkipping(s: Settings, listed: seq<Row>, n: nat): nat
    requires n <= |s.scanners|
  {
    if n == 0 then 0
    else
      var scanner := s.scanners[n - 1];
      ScannersSkipping(s, listed, n - 1) + Skipping(s, listed, "edge", ScannerLabel(scanner), scanner.source)
  }

  lemma NoteCounts(s: Settings, listed: seq<Row>, st: State, kind: string, name: string, source: Source)
    ensures var after := AddNote(s, listed, st, kind, name, source);
            && after.created == st.created + Creating(s, listed, kind, name, source)
            && after.skipped == st.skipped + Skipping(s, listed, kind, name, source)
  {
    hide Creates, Unmatched;
    CreatesIsUnmatched(s, listed, kind, name, source);
    if Unmatched(s, listed, kind, name, source) {
      assert HasText(source.url) by {
        UnmatchedHasUrl(s, listed, kind, name, source);
      }
    }
  }

  lemma UnmatchedHasUrl(s: Settings, listed: seq<Row>, kind: string, name: string, source: Source)
    requires Unmatched(s, listed, kind, name, source)
    ensures HasText(source.url)
  {
  }

  lemma {:induction false} ScannersCount(s: Settings, listed: seq<Row>, st: State, n: nat)
    requires n <= |s.scanners|
    ensures AfterScanners(s, listed, st, n).created == st.created + ScannersCreating(s, listed, n)
    ensures AfterScanners(s, listed, st, n).skipped == st.skipped + ScannersSkipping(s, listed, n)
  {
    hide AddNote, Creating, Skipping;
    if n > 0 {
      ScannersCount(s, listed, st, n - 1);
      NoteCounts(s, listed, AfterScanners(s, listed, st, n - 1), "edge", ScannerLabel(s.scanners[n - 1]),
                 s.scanners[n - 1].source);
    }
  }

  lemma WazuhCounts(s: Settings, listed: seq<Row>, st: State)
    ensures var after := AfterWazuh(s, listed, st);
            && after.created
               == st.created + Creating(s, listed, "wazuh", "Wazuh Manager", s.wazuh)
                  + Creating(s, listed, "wazuh", "Wazuh Indexer (OpenSearch)", s.wazuhIndexer)
                  + (if HasText(s.guessDashboard(s.wazuh.url))
                        && NoRowCalled(listed, "wazuh:Wazuh Dashboard (login UI)") then 1 else 0)
            && after.skipped
               == st.skipped + Skipping(s, listed, "wazuh", "Wazuh Manager", s.wazuh)
                  + Skipping(s, listed, "wazuh", "Wazuh Indexer (OpenSearch)", s.wazuhIndexer)
  {
    hide LabelKey, NoRowCalled, HasLabel, AddNote, Creating, Skipping;
    var manager := AddNote(s, listed, st, "wazuh", "Wazuh Manager", s.wazuh);
    NoteCounts(s, listed, st, "wazuh", "Wazuh Manager", s.wazuh);
    NoteCounts(s, listed, manager, "wazuh", "Wazuh Indexer (OpenSearch)", s.wazuhIndexer);
    PageLabels();
    NotCalled(listed, "wazuh:Wazuh Dashboard (login UI)");
  }

  lemma LibreNmsCounts(s: Settings, rows: seq<Row>, nextId: nat)
    ensures var after := AfterLibreNms(s, rows, State(rows, nextId, 0, 0));
            && after.created
               == Creating(s, rows, "librenms", "LibreNMS", AdminSource(s))
                  + (if ChosenUrl(s, rows, nextId) != "" && NoRowCalled(rows, "librenms:LibreNMS Dashboard")
                     then 1 else 0)
            && after.skipped == Skipping(s, rows, "librenms", "LibreNMS", AdminSource(s))
  {
    hide LabelKey, NoRowCalled, HasLabel, AddNote, Creating, Skipping, BrowserUrl, Rewritten;
    NoteCounts(s, rows, State(rows, nextId, 0, 0), "librenms", "LibreNMS", AdminSource(s));
    PageLabels();
    NotCalled(rows, "librenms:LibreNMS Dashboard");
  }

  /**
   * Both counts of an import, from any vault: a row is created for each source with a URL and a secret
   * that no listed row stands for, and for each dashboard that has a URL and no row of its name; every
   * other source with a URL is skipped.
   */
  lemma ImportCounts(s: Settings, rows: seq<Row>, nextId: nat)
    ensures var after, n := Imported(s, rows, nextId), |s.scanners|;
            && after.created
               == Creating(s, rows, "librenms", "LibreNMS", AdminSource(s))
                  + (if ChosenUrl(s, rows, nextId) != "" && NoRowCalled(rows, "librenms:LibreNMS Dashboard")
                     then 1 else 0)
                  + Creating(s, rows, "graylog", "Graylog", s.graylog) + Creating(s, rows, "other", "Loki", s.loki)
                  + Creating(s, rows, "wazuh", "Wazuh Manager", s.wazuh)
                  + Creating(s, rows, "wazuh", "Wazuh Indexer (OpenSearch)", s.wazuhIndexer)
                  + (if HasText(s.guessDashboard(s.wazuh.url))
                        && NoRowCalled(rows, "wazuh:Wazuh Dashboard (login UI)") then 1 else 0)
                  + ScannersCreating(s, rows, n)
            && after.skipped
               == Skipping(s, rows, "librenms", "LibreNMS", AdminSource(s))
                  + Skipping(s, rows, "graylog", "Graylog", s.graylog) + Skipping(s, rows, "other", "Loki", s.loki)
                  + Skipping(s, rows, "wazuh", "Wazuh Manager", s.wazuh)
                  + Skipping(s, rows, "wazuh", "Wazuh Indexer (OpenSearch)", s.wazuhIndexer)
                  + ScannersSkipping(s, rows, n)
  {
    hide AddNote, Creating, Skipping, AfterLibreNms, AfterWazuh, AfterScanners, ScannersCreating, ScannersSkipping,
         NoRowCalled, ChosenUrl;
    var librenms := AfterLibreNms(s, rows, State(rows, nextId, 0, 0));
    var graylog := AddNote(s, rows, librenms, "graylog", "Graylog", s.graylog);
    var loki := AddNote(s, rows, graylog, "other", "Loki", s.loki);
    LibreNmsCounts(s, rows, nextId);
    NoteCounts(s, rows, librenms, "graylog", "Graylog", s.graylog);
    NoteCounts(s, rows, graylog, "other", "Loki", s.loki);
    WazuhCounts(s, rows, loki);
    ScannersCount(s, rows, AfterWazuh(s, rows, loki), |s.scanners|);
  }

  // ---------- the second import ----------

  /** What blocks a source of another kind goes on blocking it. */
  lemma StillBlocked(s: Settings, rows: seq<Row>, later: seq<Row>, ui: string, kind: string, name: string,
                     source: Source)
    requires KeptIn(s, rows, later, ui) && Foreign(kind)
    requires !Creates(s, rows, kind, name, source)
    ensures !Creates(s, later, kind, name, source)
  {
    hide NormalizeLabel;
    if Truthy(source.url).Some? {
      var url := source.url.value;
      var final := FinalLabel(s, name, url);
      LabelsStay(s, rows, later, ui, LabelKey(kind, final));
      NormalsStay(s, rows, later, ui, NormalKey(s, kind, final));
      if HasUrl(s, rows, UrlKey(s, kind, url)) {
        var i :| 0 <= i < |rows| && Truthy(rows[i].url).Some?
                 && UrlKey(s, rows[i].kind, rows[i].url.value) == UrlKey(s, kind, url);
        assert UrlKey(s, rows[i].kind, rows[i].url.value)[0] == kind[0];
        assert later[i] == rows[i];
      }
    }
  }

  lemma LabelsStay(s: Settings, rows: seq<Row>, later: seq<Row>, ui: string, key: string)
    requires KeptIn(s, rows, later, ui)
    ensures HasLabel(rows, key) ==> HasLabel(later, key)
  {
    if HasLabel(rows, key) {
      var i :| 0 <= i < |rows| && LabelKey(rows[i].kind, rows[i].name) == key;
      assert LabelKey(later[i].kind, later[i].name) == key;
    }
  }

  lemma NormalsStay(s: Settings, rows: seq<Row>, later: seq<Row>, ui: string, key: string)
    requires KeptIn(s, rows, later, ui)
    ensures HasNormal(s, rows, key) ==> HasNormal(s, later, key)
  {
    hide NormalizeLabel;
    if HasNormal(s, rows, key) {
      var i :| 0 <= i < |rows| && NormalKey(s, rows[i].kind, rows[i].name) == key;
      assert NormalKey(s, later[i].kind, later[i].name) == key;
    }
  }

  /** A source that created a row is blocked by its label wherever that row still is. */
  lemma CreatedIsBlocked(s: Settings, listed: seq<Row>, st: State, later: seq<Row>, kind: string, name: string,
                         source: Source)
    requires AddNote(s, listed, st, kind, name, source).rows <= later
    requires Creates(s, listed, kind, name, source)
    ensures !Creates(s, later, kind, name, source)
  {
    hide HasNormal, HasUrl;
    var k := |st.rows|;
    assert later[k] == Created(st.nextId, SourceInput(s, kind, name, source));
    assert LabelKey(later[k].kind, later[k].name) == LabelKey(kind, FinalLabel(s, name, source.url.value));
  }

  lemma Settled(s: Settings, rows: seq<Row>, st: State, later: seq<Row>, ui: string, kind: string, name: string,
                source: Source)
    requires KeptIn(s, rows, later, ui) && Foreign(kind)
    requires AddNote(s, rows, st, kind, name, source).rows <= later
    ensures !Creates(s, later, kind, name, source)
  {
    hide Creates, AddNote, KeptIn;
    if Creates(s, rows, kind, name, source) {
      CreatedIsBlocked(s, rows, st, later, kind, name, source);
    } else {
      StillBlocked(s, rows, later, ui, kind, name, source);
    }
  }

  ghost predicate Quiet(before: State, after: State) {
    after.rows == before.rows && after.created == before.created
  }

  lemma BlockedIsQuiet(s: Settings, listed: seq<Row>, st: State, kind: string, name: string, source: Source)
    requires !Creates(s, listed, kind, name, source)
    ensures Quiet(st, AddNote(s, listed, st, kind, name, source))
  {
    hide Creates;
  }

  lemma {:induction false} ScannersSettle(s: Settings, rows: seq<Row>, st: State, later: seq<Row>, ui: string, n: nat,
                                          again: State)
    requires n <= |s.scanners| && KeptIn(s, rows, later, ui)
    requires AfterScanners(s, rows, st, n).rows <= later
    ensures Quiet(again, AfterScanners(s, later, again, n))
  {
    hide AddNote, KeptIn, Creates;
    if n > 0 {
      var scanner, before := s.scanners[n - 1], AfterScanners(s, rows, st, n - 1);
      NoteAppends(s, rows, before, "edge", ScannerLabel(scanner), scanner.source);
      ScannersSettle(s, rows, st, later, ui, n - 1, again);
      Settled(s, rows, before, later, ui, "edge", ScannerLabel(scanner), scanner.source);
      BlockedIsQuiet(s, later, AfterScanners(s, later, again, n - 1), "edge", ScannerLabel(scanner), scanner.source);
    }
  }

  lemma DashboardSettles(s: Settings, rows: seq<Row>, st: State, later: seq<Row>, ui: string, input: Input,
                         again: State)
    requires KeptIn(s, rows, later, ui) && AddDashboard(rows, st, input).rows <= later
    ensures AddDashboard(later, again, input) == again
  {
    hide KeptIn;
    var key := LabelKey(input.kind, input.name);
    LabelsStay(s, rows, later, ui, key);
    if !HasLabel(rows, key) {
      var k := |st.rows|;
      assert later[k] == Created(st.nextId, input);
      assert LabelKey(later[k].kind, later[k].name) == key;
    }
  }

  lemma WazuhSettles(s: Settings, rows: seq<Row>, st: State, later: seq<Row>, ui: string, again: State)
    requires KeptIn(s, rows, later, ui) && AfterWazuh(s, rows, st).rows <= later
    ensures Quiet(again, AfterWazuh(s, later, again))
  {
    hide AddNote, KeptIn, Creates, AddDashboard, WazuhDashboard;
    var manager := AddNote(s, rows, st, "wazuh", "Wazuh Manager", s.wazuh);
    var indexer := AddNote(s, rows, manager, "wazuh", "Wazuh Indexer (OpenSearch)", s.wazuhIndexer);
    var manager2 := AddNote(s, later, again, "wazuh", "Wazuh Manager", s.wazuh);
    var indexer2 := AddNote(s, later, manager2, "wazuh", "Wazuh Indexer (OpenSearch)", s.wazuhIndexer);
    var dashboard := s.guessDashboard(s.wazuh.url);
    NoteAppends(s, rows, st, "wazuh", "Wazuh Manager", s.wazuh);
    NoteAppends(s, rows, manager, "wazuh", "Wazuh Indexer (OpenSearch)", s.wazuhIndexer);
    if Truthy(dashboard).Some? {
      DashboardAppends(rows, indexer, WazuhDashboard(dashboard.value));
      DashboardSettles(s, rows, indexer, later, ui, WazuhDashboard(dashboard.value), indexer2);
    }
    Settled(s, rows, st, later, ui, "wazuh", "Wazuh Manager", s.wazuh);
    Settled(s, rows, manager, later, ui, "wazuh", "Wazuh Indexer (OpenSearch)", s.wazuhIndexer);
    BlockedIsQuiet(s, later, again, "wazuh", "Wazuh Manager", s.wazuh);
    BlockedIsQuiet(s, later, manager2, "wazuh", "Wazuh Indexer (OpenSearch)", s.wazuhIndexer);
  }

  lemma DashboardAppends(listed: seq<Row>, st: State, input: Input)
    ensures st.rows <= AddDashboard(listed, st, input).rows
  {
  }

  /** After an import nothing but LibreNMS can be created by the next. */
  lemma RestSettles(s: Settings, rows: seq<Row>, st: State, ui: string, again: State)
    requires KeptIn(s, rows, AfterRest(s, rows, st).rows, ui)
    ensures Quiet(again, AfterRest(s, AfterRest(s, rows, st).rows, again))
  {
    hide AddNote, KeptIn, Creates, AfterWazuh, AfterScanners;
    var later := AfterRest(s, rows, st).rows;
    var graylog := AddNote(s, rows, st, "graylog", "Graylog", s.graylog);
    var loki := AddNote(s, rows, graylog, "other", "Loki", s.loki);
    var wazuh := AfterWazuh(s, rows, loki);
    var graylog2 := AddNote(s, later, again, "graylog", "Graylog", s.graylog);
    var loki2 := AddNote(s, later, graylog2, "other", "Loki", s.loki);
    var wazuh2 := AfterWazuh(s, later, loki2);
    NoteAppends(s, rows, st, "graylog", "Graylog", s.graylog);
    NoteAppends(s, rows, graylog, "other", "Loki", s.loki);
    WazuhAppends(s, rows, loki);
    ScannersAppend(s, rows, wazuh, |s.scanners|);
    Settled(s, rows, st, later, ui, "graylog", "Graylog", s.graylog);
    Settled(s, rows, graylog, later, ui, "other", "Loki", s.loki);
    BlockedIsQuiet(s, later, again, "graylog", "Graylog", s.graylog);
    BlockedIsQuiet(s, later, graylog2, "other", "Loki", s.loki);
    WazuhSettles(s, rows, loki, later, ui, loki2);
    ScannersSettle(s, rows, wazuh, later, ui, |s.scanners|, wazuh2);
  }

  // ---------- LibreNMS in the second import ----------

  predicate MatchesUrl(s: Settings, r: Row, key: string) {
    Truthy(r.url).Some? && UrlKey(s, r.kind, r.url.value) == key
  }

  /** The LibreNMS source is held back by its URL alone. */
  predicate OnlyUrlBlocks(s: Settings, rows: seq<Row>) {
    && Truthy(s.librenms.url).Some?
    && (Truthy(s.librenms.password).Some? || Truthy(s.librenms.apiToken).Some?)
    && var final := FinalLabel(s, "LibreNMS", s.librenms.url.value);
       && !HasLabel(rows, LabelKey("librenms", final))
       && !HasNormal(s, rows, NormalKey(s, "librenms", final))
       && HasUrl(s, rows, UrlKey(s, "librenms", s.librenms.url.value))
  }

  /**
   * The LibreNMS source is held back only by rows whose URL matches it, all of them
   * automatic-access URLs that this import rewrites to a browser URL that does not match.
   */
  predicate LosesItsMatch(s: Settings, rows: seq<Row>) {
    && OnlyUrlBlocks(s, rows)
    && var key := UrlKey(s, "librenms", s.librenms.url.value);
       && (forall i :: 0 <= i < |rows| && MatchesUrl(s, rows[i], key) ==> Rewrites(s, rows[i]))
       && BrowserUrl(s, rows) != ""
       && UrlKey(s, "librenms", BrowserUrl(s, rows)) != key
  }

  function AsciiLower(t: string): string {
    seq(|t|, i requires 0 <= i < |t| => if 'A' <= t[i] <= 'Z' then t[i] - 'A' + 'a' else t[i])
  }

  /** `toLowerCase` on ASCII text. */
  ghost predicate LowersAscii(lower: string -> string) {
    forall t :: (forall i :: 0 <= i < |t| ==> t[i] < '\U{80}') ==> lower(t) == AsciiLower(t)
  }

  lemma TrimKeeps(t: string, c: char)
    requires c in t && !IsSpace(c)
    ensures c in Trim(t)
  {
    hide TrimStart, TrimEnd;
    var i :| 0 <= i < |t| && t[i] == c;
    TrimStartShape(t);
    var u := TrimStart(t);
    var k := |t| - |u|;
    assert i >= k && u[i - k] == c;
    TrimEndShape(u);
    assert i - k < |TrimEnd(u)| && TrimEnd(u)[i - k] == c;
  }

  /** Text without a parenthesis keeps every character but white space. */
  lemma NormalizeLabelKeeps(lower: string -> string, name: string, c: char)
    requires '(' !in lower(name) && c in lower(name) && !IsSpace(c)
    ensures c in NormalizeLabel(lower, name)
  {
    var t := lower(name);
    NoTag(PLACEHOLDER, t);
    NoTag(INTERNAL_TAG, t);
    CollapseKeeps(t, c);
    TrimKeeps(Collapse(t), c);
  }

  /** Lower-casing ASCII text goes character by character. */
  lemma LowerCharacters(lower: string -> string, name: string)
    requires LowersAscii(lower)
    requires forall i :: 0 <= i < |name| ==> name[i] < '\U{80}'
    ensures |lower(name)| == |name|
    ensures forall i :: 0 <= i < |name| ==>
              lower(name)[i] == if 'A' <= name[i] <= 'Z' then name[i] - 'A' + 'a' else name[i]
  {
    assert lower(name) == AsciiLower(name);
  }

  lemma DashboardNormal(lower: string -> string)
    requires LowersAscii(lower)
    ensures 'd' in NormalizeLabel(lower, "LibreNMS Dashboard")
  {
    hide NormalizeLabel, LowersAscii;
    var name := "LibreNMS Dashboard";
    LowerCharacters(lower, name);
    assert lower(name)[9] == 'd' by {
      assert name[9] == 'D';
    }
    NormalizeLabelKeeps(lower, name, 'd');
  }

  lemma FinalNormal(s: Settings, url: string)
    requires LowersAscii(s.lower)
    ensures 'd' !in NormalizeLabel(s.lower, FinalLabel(s, "LibreNMS", url))
  {
    hide NormalizeLabel, LowersAscii;
    var final := FinalLabel(s, "LibreNMS", url);
    LowerCharacters(s.lower, final);
    if 'd' in NormalizeLabel(s.lower, final) {
      NormalizeLabelChars(s.lower, final, 'd');
    }
  }

  /** The dashboard's label does not pass for the source's own, with or without its suffix. */
  lemma DashboardLabelDiffers(s: Settings, url: string)
    requires LowersAscii(s.lower)
    ensures NormalizeLabel(s.lower, "LibreNMS Dashboard") != NormalizeLabel(s.lower, FinalLabel(s, "LibreNMS", url))
  {
    hide NormalizeLabel, LowersAscii, FinalLabel;
    DashboardNormal(s.lower);
    FinalNormal(s, url);
  }

  lemma {:induction false} OfKindAppend(rows: seq<Row>, more: seq<Row>)
    requires rows <= more && forall i :: |rows| <= i < |more| ==> Foreign(more[i].kind)
    ensures OfKind(more, "librenms") == OfKind(rows, "librenms")
    decreases |more|
  {
    if |rows| < |more| {
      assert "librenms"[0] == 'l';
      OfKindAppend(rows, more[..|more| - 1]);
    } else {
      assert rows == more;
    }
  }

  /** A source that is not held back by its URL alone stays held back, whatever the URLs become. */
  lemma OtherwiseBlocked(s: Settings, rows: seq<Row>, later: seq<Row>, ui: string)
    requires KeptIn(s, rows, later, ui)
    requires !Creates(s, rows, "librenms", "LibreNMS", AdminSource(s)) && !OnlyUrlBlocks(s, rows)
    ensures !Creates(s, later, "librenms", "LibreNMS", AdminSource(s))
  {
    hide HasLabel, HasNormal, NormalizeLabel, KeptIn, HasUrl;
    if Truthy(s.librenms.url).Some? {
      var final := FinalLabel(s, "LibreNMS", s.librenms.url.value);
      LabelsStay(s, rows, later, ui, LabelKey("librenms", final));
      NormalsStay(s, rows, later, ui, NormalKey(s, "librenms", final));
    }
  }

  /** A matching row that is not rewritten, or is rewritten to a matching URL, still matches. */
  lemma UrlStays(s: Settings, rows: seq<Row>, later: seq<Row>, ui: string, key: string)
    requires KeptIn(s, rows, later, ui) && HasUrl(s, rows, key)
    requires ui == "" || UrlKey(s, "librenms", ui) == key
             || exists i :: 0 <= i < |rows| && MatchesUrl(s, rows[i], key) && !Rewrites(s, rows[i])
    ensures HasUrl(s, later, key)
  {
    if i :| 0 <= i < |rows| && MatchesUrl(s, rows[i], key) && !Rewrites(s, rows[i]) {
      assert MatchesUrl(s, later[i], key);
    } else {
      var i :| 0 <= i < |rows| && Truthy(rows[i].url).Some? && UrlKey(s, rows[i].kind, rows[i].url.value) == key;
      assert MatchesUrl(s, rows[i], key) && Rewrites(s, rows[i]);
      assert MatchesUrl(s, later[i], key);
    }
  }

  /** When the first import does not lose its match, the second finds LibreNMS held back. */
  lemma LibreNmsSettles(s: Settings, rows: seq<Row>, nextId: nat, later: seq<Row>)
    requires KeptIn(s, rows, later, ChosenUrl(s, rows, nextId))
    requires !Creates(s, rows, "librenms", "LibreNMS", AdminSource(s)) && !LosesItsMatch(s, rows)
    ensures !Creates(s, later, "librenms", "LibreNMS", AdminSource(s))
  {
    hide KeptIn, HasLabel, HasNormal, HasUrl, Rewrites, MatchesUrl, BrowserUrl;
    var ui := ChosenUrl(s, rows, nextId);
    if OnlyUrlBlocks(s, rows) {
      var key := UrlKey(s, "librenms", s.librenms.url.value);
      FirstIsQuiet(s, rows, nextId);
      UrlStays(s, rows, later, ui, key);
    } else {
      OtherwiseBlocked(s, rows, later, ui);
    }
  }

  lemma FirstIsQuiet(s: Settings, rows: seq<Row>, nextId: nat)
    requires !Creates(s, rows, "librenms", "LibreNMS", AdminSource(s))
    ensures AfterFirst(s, rows, nextId).rows == rows && AfterFirst(s, rows, nextId).created == 0
    ensures AfterFirst(s, rows, nextId).nextId == nextId
    ensures ChosenUrl(s, rows, nextId) == BrowserUrl(s, rows)
  {
    hide Creates, BrowserUrl;
  }

  /** A row the import leaves behind does not match the LibreNMS source. */
  predicate Harmless(s: Settings, r: Row) {
    Truthy(s.librenms.url).Some? ==>
      var url := s.librenms.url.value;
      var final := FinalLabel(s, "LibreNMS", url);
      && LabelKey(r.kind, r.name) != LabelKey("librenms", final)
      && NormalKey(s, r.kind, r.name) != NormalKey(s, "librenms", final)
      && !MatchesUrl(s, r, UrlKey(s, "librenms", url))
  }

  lemma ForeignIsHarmless(s: Settings, r: Row)
    requires Foreign(r.kind)
    ensures Harmless(s, r)
  {
    hide NormalizeLabel;
    if Truthy(s.librenms.url).Some? {
      var url := s.librenms.url.value;
      var final := FinalLabel(s, "LibreNMS", url);
      assert "librenms"[0] == 'l';
      assert LabelKey(r.kind, r.name)[0] == r.kind[0] && LabelKey("librenms", final)[0] == 'l';
      assert NormalKey(s, r.kind, r.name)[0] == r.kind[0] && NormalKey(s, "librenms", final)[0] == 'l';
      assert UrlKey(s, "librenms", url)[0] == 'l';
      if Truthy(r.url).Some? {
        assert UrlKey(s, r.kind, r.url.value)[0] == r.kind[0];
      }
    }
  }

  lemma DashboardIsHarmless(s: Settings, rows: seq<Row>, id: nat)
    requires LosesItsMatch(s, rows) && LowersAscii(s.lower)
    ensures Harmless(s, Created(id, LibreNmsDashboard(s, BrowserUrl(s, rows))))
  {
    hide HasLabel, HasNormal, HasUrl, NormalizeLabel, BrowserUrl;
    var url := s.librenms.url.value;
    var final := FinalLabel(s, "LibreNMS", url);
    DashboardLabelDiffers(s, url);
    var name := "LibreNMS Dashboard";
    assert |name| == 18 && |final| != 18;
    assert |LabelKey("librenms", name)| != |LabelKey("librenms", final)|;
    assert NormalKey(s, "librenms", name)[9..] == NormalizeLabel(s.lower, name);
    assert NormalKey(s, "librenms", final)[9..] == NormalizeLabel(s.lower, final);
  }

  lemma KeptIsHarmless(s: Settings, rows: seq<Row>, i: nat)
    requires LosesItsMatch(s, rows) && i < |rows|
    ensures Harmless(s, Kept(s, rows[i], BrowserUrl(s, rows)))
  {
    hide NormalizeLabel, BrowserUrl;
    var url := s.librenms.url.value;
    var final := FinalLabel(s, "LibreNMS", url);
    assert LabelKey(rows[i].kind, rows[i].name) != LabelKey("librenms", final);
    assert NormalKey(s, rows[i].kind, rows[i].name) != NormalKey(s, "librenms", final);
    if !Rewrites(s, rows[i]) {
      assert !MatchesUrl(s, rows[i], UrlKey(s, "librenms", url));
    }
  }

  lemma AllHarmless(s: Settings, later: seq<Row>)
    requires forall i :: 0 <= i < |later| ==> Harmless(s, later[i])
    requires Truthy(s.librenms.url).Some?
    requires Truthy(s.librenms.password).Some? || Truthy(s.librenms.apiToken).Some?
    ensures Creates(s, later, "librenms", "LibreNMS", AdminSource(s))
  {
    hide NormalizeLabel;
    var url := s.librenms.url.value;
    var final := FinalLabel(s, "LibreNMS", url);
    assert forall i :: 0 <= i < |later| ==> !MatchesUrl(s, later[i], UrlKey(s, "librenms", url));
    assert !HasUrl(s, later, UrlKey(s, "librenms", url));
  }

  /** When it does lose its match, every row left is harmless, and the second import creates LibreNMS. */
  lemma LibreNmsReturns(s: Settings, rows: seq<Row>, nextId: nat)
    requires UniqueIds(rows) && LowersAscii(s.lower) && LosesItsMatch(s, rows)
    ensures Creates(s, Imported(s, rows, nextId).rows, "librenms", "LibreNMS", AdminSource(s))
  {
    hide Creates, AfterRest, HasLabel, HasNormal, HasUrl, BrowserUrl, Rewritten, AddNote, Harmless, Foreign;
    hide LowersAscii, Kept;
    var st := State(rows, nextId, 0, 0);
    var ui := BrowserUrl(s, rows);
    var librenms := AfterLibreNms(s, rows, st);
    var later := Imported(s, rows, nextId).rows;
    assert !Creates(s, rows, "librenms", "LibreNMS", AdminSource(s)) by {
      HeldBack(s, rows);
    }
    FirstIsQuiet(s, rows, nextId);
    RestAppends(s, rows, librenms);
    LibreNmsKeeps(s, rows, nextId);
    forall i | 0 <= i < |later| ensures Harmless(s, later[i]) {
      if i < |rows| {
        KeptIsHarmless(s, rows, i);
      } else if i < |librenms.rows| {
        RewrittenLength(s, rows, rows, ui);
        assert librenms.rows[i] == Created(nextId, LibreNmsDashboard(s, ui));
        DashboardIsHarmless(s, rows, nextId);
      } else {
        ForeignIsHarmless(s, later[i]);
      }
    }
    AllHarmless(s, later);
  }

  lemma HeldBack(s: Settings, rows: seq<Row>)
    requires OnlyUrlBlocks(s, rows)
    ensures !Creates(s, rows, "librenms", "LibreNMS", AdminSource(s))
  {
    hide HasLabel, HasNormal, HasUrl;
  }

  lemma FirstCounts(s: Settings, rows: seq<Row>, nextId: nat)
    ensures AfterFirst(s, rows, nextId).created
            == if Creates(s, rows, "librenms", "LibreNMS", AdminSource(s)) then 1 else 0
  {
    hide HasLabel, HasNormal, HasUrl, NormalizeLabel;
  }

  /** What the LibreNMS part of the second import creates: at most the source itself, never a dashboard. */
  lemma SecondLibreNms(s: Settings, rows: seq<Row>, nextId: nat)
    requires UniqueIds(rows)
    ensures var r := Imported(s, rows, nextId);
            AfterLibreNms(s, r.rows, State(r.rows, r.nextId, 0, 0)).created
            == if Creates(s, r.rows, "librenms", "LibreNMS", AdminSource(s)) then 1 else 0
  {
    hide Creates, AfterRest, HasNormal, HasUrl, KeptIn, Rewritten, Foreign, HasLabel, LibreNmsDashboard;
    hide BrowserUrl, AddNote;
    var r := Imported(s, rows, nextId);
    var librenms := AfterLibreNms(s, rows, State(rows, nextId, 0, 0));
    var ui := ChosenUrl(s, rows, nextId);
    ImportKeepsRows(s, rows, nextId);
    RestAppends(s, rows, librenms);
    FirstCounts(s, r.rows, r.nextId);
    if ui != "" {
      var first := AfterFirst(s, rows, nextId);
      DashboardThere(s, rows, first.(rows := Rewritten(s, rows, first.rows, ui)), ui, r.rows, nextId,
                     ChosenUrl(s, r.rows, r.nextId));
    } else {
      SilentUrl(s, rows, nextId);
    }
  }

  /** Once the dashboard is added, or was there, its label is. */
  lemma DashboardThere(s: Settings, rows: seq<Row>, st: State, ui: string, later: seq<Row>, nextId: nat, again: string)
    requires KeptIn(s, rows, later, ChosenUrl(s, rows, nextId))
    requires AddDashboard(rows, st, LibreNmsDashboard(s, ui)).rows <= later
    ensures HasLabel(later, LabelKey(LibreNmsDashboard(s, again).kind, LibreNmsDashboard(s, again).name))
  {
    hide KeptIn;
    var input := LibreNmsDashboard(s, ui);
    var key := LabelKey(input.kind, input.name);
    LabelsStay(s, rows, later, ChosenUrl(s, rows, nextId), key);
    if !HasLabel(rows, key) {
      var k := |st.rows|;
      assert later[k] == Created(st.nextId, input);
      assert LabelKey(later[k].kind, later[k].name) == key;
    }
  }

  /** Without a browser URL the first time there is none the second, unless LibreNMS is created then. */
  lemma SilentUrl(s: Settings, rows: seq<Row>, nextId: nat)
    requires UniqueIds(rows) && ChosenUrl(s, rows, nextId) == ""
    ensures var r := Imported(s, rows, nextId);
            && !Creates(s, r.rows, "librenms", "LibreNMS", AdminSource(s))
            && ChosenUrl(s, r.rows, r.nextId) == ""
  {
    hide Creates, AfterRest, HasNormal, HasUrl, HasLabel, Rewritten, AddNote, Foreign, KeptIn, OfKind, LosesItsMatch;
    var r := Imported(s, rows, nextId);
    var first := AfterFirst(s, rows, nextId);
    ImportKeepsRows(s, rows, nextId);
    RestAppends(s, rows, first);
    if Creates(s, rows, "librenms", "LibreNMS", AdminSource(s)) {
      CreatedIsBlocked(s, rows, State(rows, nextId, 0, 0), r.rows, "librenms", "LibreNMS", AdminSource(s));
    } else {
      FirstIsQuiet(s, rows, nextId);
      NoUrlNoLoss(s, rows);
      LibreNmsSettles(s, rows, nextId, r.rows);
    }
    FirstIsQuiet(s, r.rows, r.nextId);
    OfKindAppend(first.rows, r.rows);
  }

  lemma NoUrlNoLoss(s: Settings, rows: seq<Row>)
    requires BrowserUrl(s, rows) == ""
    ensures !LosesItsMatch(s, rows)
  {
  }

  lemma CreatesEither(s: Settings, rows: seq<Row>, nextId: nat)
    requires UniqueIds(rows) && LowersAscii(s.lower)
    ensures Creates(s, Imported(s, rows, nextId).rows, "librenms", "LibreNMS", AdminSource(s))
            <==> LosesItsMatch(s, rows)
  {
    hide Creates, AfterRest, AfterLibreNms, KeptIn, LosesItsMatch, AddNote, Foreign;
    var r := Imported(s, rows, nextId);
    if LosesItsMatch(s, rows) {
      LibreNmsReturns(s, rows, nextId);
    } else {
      ImportKeepsRows(s, rows, nextId);
      if Creates(s, rows, "librenms", "LibreNMS", AdminSource(s)) {
        FirstStays(s, rows, nextId);
      } else {
        LibreNmsSettles(s, rows, nextId, r.rows);
      }
    }
  }

  /** A LibreNMS row created by the first import blocks the second by its label. */
  lemma FirstStays(s: Settings, rows: seq<Row>, nextId: nat)
    requires UniqueIds(rows) && Creates(s, rows, "librenms", "LibreNMS", AdminSource(s))
    ensures !Creates(s, Imported(s, rows, nextId).rows, "librenms", "LibreNMS", AdminSource(s))
  {
    hide HasNormal, HasUrl, AfterRest, NormalizeLabel, BrowserUrl, LibreNmsDashboard, Rewrites, Foreign;
    var r := Imported(s, rows, nextId);
    var librenms := AfterLibreNms(s, rows, State(rows, nextId, 0, 0));
    RestAppends(s, rows, librenms);
    var k, input := |rows|, SourceInput(s, "librenms", "LibreNMS", AdminSource(s));
    var first := AfterFirst(s, rows, nextId);
    assert first.rows[k] == Created(nextId, input);
    assert librenms.rows[k].kind == input.kind && librenms.rows[k].name == input.name;
    assert r.rows[k] == librenms.rows[k];
    assert LabelKey(r.rows[k].kind, r.rows[k].name)
           == LabelKey("librenms", FinalLabel(s, "LibreNMS", s.librenms.url.value));
  }

  /**
   * From any vault and with the same settings, a second import creates nothing, except when the
   * first one lost the LibreNMS match: then it creates exactly that one row.
   */
  lemma SecondImport(s: Settings, rows: seq<Row>, nextId: nat)
    requires UniqueIds(rows) && LowersAscii(s.lower)
    ensures var r := Imported(s, rows, nextId);
            Imported(s, r.rows, r.nextId).created == if LosesItsMatch(s, rows) then 1 else 0
  {
    hide Creates, AfterRest, AfterLibreNms, KeptIn, LosesItsMatch, Foreign;
    var r := Imported(s, rows, nextId);
    CreatesEither(s, rows, nextId);
    SecondLibreNms(s, rows, nextId);
    ImportKeepsRows(s, rows, nextId);
    var librenms := AfterLibreNms(s, rows, State(rows, nextId, 0, 0));
    RestSettles(s, rows, librenms, ChosenUrl(s, rows, nextId), AfterLibreNms(s, r.rows, State(r.rows, r.nextId, 0, 0)));
  }

  // ---------- an input whose second import does create ----------

  /** The path of the automatic access, as the row's URL and as the API URL of the settings. */
  const ACCESS_PATH := "/api/integrations/librenms/sso"

  function WithoutTrailingSlashes(s: string): string {
    if s != "" && s[|s| - 1] == '/' then WithoutTrailingSlashes(s[..|s| - 1]) else s
  }

  /** The code's classifier on a relative URL that is a plain path. */
  predicate IsAccessPath(url: Option<string>) {
    url.Some? && WithoutTrailingSlashes(Trim(url.value)) == ACCESS_PATH
  }

  /** The browser URL of an appliance that declares its public host and lists no other one. */
  const UI_URL := "https://10.1.2.3:7443"

  /** The URL has the container's own host name; a path without a host never has. */
  predicate IsContainerUrl(url: string) {
    "http://librenms" <= url
  }

  function SampleSettings(): Settings {
    var absent := Source(None, None, None, None);
    Settings(AsciiLower, IsContainerUrl, IsAccessPath, rows => UI_URL, url => None,
             Source(Some(ACCESS_PATH), None, None, Some("t")), absent, absent, absent, absent, [])
  }

  function SampleRow(): Row {
    Row(1, "librenms", "Accesso", Some(ACCESS_PATH), None, None, None, None, true, 100)
  }

  /** So the promise that the import can be repeated does not hold from every vault. */
  lemma ImportCanRepeat()
    ensures UniqueIds([SampleRow()]) && LowersAscii(SampleSettings().lower)
    ensures LosesItsMatch(SampleSettings(), [SampleRow()])
    ensures var r := Imported(SampleSettings(), [SampleRow()], 2);
            Imported(SampleSettings(), r.rows, r.nextId).created == 1
  {
    hide Imported;
    var s, rows := SampleSettings(), [SampleRow()];
    SampleLoses();
    SecondImport(s, rows, 2);
  }

  lemma AccessPathIsRecognised()
    ensures IsAccessPath(Some(ACCESS_PATH)) && !IsContainerUrl(ACCESS_PATH)
  {
    hide Trim, WithoutTrailingSlashes;
    assert ACCESS_PATH[0] == '/' && ACCESS_PATH[|ACCESS_PATH| - 1] == 'o';
    PlainPath(ACCESS_PATH);
    assert "http://librenms"[0] == 'h';
  }

  /** A path without white space or slash at its end is what the classifier compares. */
  lemma PlainPath(path: string)
    requires path != "" && path[0] == '/' && path[|path| - 1] == 'o'
    ensures WithoutTrailingSlashes(Trim(path)) == path
  {
    hide Trim;
    TrimShape(path);
  }

  /** The row's label does not pass for the source's. */
  lemma SampleLabelDiffers()
    ensures NormalizeLabel(AsciiLower, "Accesso") != NormalizeLabel(AsciiLower, "LibreNMS")
  {
    hide NormalizeLabel;
    assert AsciiLower("LibreNMS")[0] == 'l';
    NormalizeLabelKeeps(AsciiLower, "LibreNMS", 'l');
    if 'l' in NormalizeLabel(AsciiLower, "Accesso") {
      NormalizeLabelChars(AsciiLower, "Accesso", 'l');
    }
  }

  lemma SampleLoses()
    ensures LosesItsMatch(SampleSettings(), [SampleRow()])
  {
    hide NormalizeLabel, IsAccessPath, IsContainerUrl;
    var s, rows := SampleSettings(), [SampleRow()];
    AccessPathIsRecognised();
    SampleLabelDiffers();
    var final := FinalLabel(s, "LibreNMS", ACCESS_PATH);
    assert final == "LibreNMS";
    assert NormalKey(s, "librenms", "Accesso")[9..] == NormalizeLabel(s.lower, "Accesso");
    assert NormalKey(s, "librenms", final)[9..] == NormalizeLabel(s.lower, final);
    assert |LabelKey("librenms", "Accesso")| != |LabelKey("librenms", final)|;
    var key := UrlKey(s, "librenms", ACCESS_PATH);
    assert MatchesUrl(s, rows[0], key);
    assert |AsciiLower(UI_URL)| == 21 && |AsciiLower(ACCESS_PATH)| != 21;
    assert |UrlKey(s, "librenms", UI_URL)| != |key|;
    assert BrowserUrl(s, rows) == UI_URL;
  }
}
