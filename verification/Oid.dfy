/**
 * Ordered tables of object identifiers: the segment comparison and the rule table of
 * src/lib/device-classifier.ts, and the lookup sorted by text length of src/lib/db-hub.ts.
 */
module Oid {
  import opened Sequences

  datatype Rule = Rule(prefix: string, classification: string)

  function StripDots(s: string): string {
    if s != "" && s[0] == '.' then StripDots(s[1..]) else s
  }

  function NonEmptyParts(parts: seq<string>): seq<string> {
    if parts == [] then []
    else (if parts[0] == "" then [] else [parts[0]]) + NonEmptyParts(parts[1..])
  }

  function Segments(oid: string): seq<string> {
    NonEmptyParts(Split(StripDots(oid), '.'))
  }

  /** The rule's segments open the identifier's. */
  predicate Matches(oid: string, rule: Rule) {
    Segments(rule.prefix) <= Segments(oid)
  }

  /** The loop of `oidPrefixMatches` over the two lists of segments. */
  method OpensList(o: seq<string>, p: seq<string>) returns (r: bool)
    ensures r <==> p <= o
  {
    if |p| > |o| {
      return false;
    }
    for i := 0 to |p|
      invariant forall k :: 0 <= k < i ==> p[k] == o[k]
    {
      if o[i] != p[i] {
        return false;
      }
    }
    assert p == o[..|p|];
    r := true;
  }

  method OidPrefixMatches(oid: string, prefix: string) returns (r: bool)
    ensures r <==> Segments(prefix) <= Segments(oid)
  {
    r := OpensList(Segments(oid), Segments(prefix));
  }

  function FirstMatch(rules: seq<Rule>, oid: string): Option<Rule> {
    if rules == [] then None
    else if Matches(oid, rules[0]) then Some(rules[0])
    else FirstMatch(rules[1..], oid)
  }

  /** The scan of `classifyDeviceDetailed`, with its early return. */
  method ScanRules(rules: seq<Rule>, oid: string) returns (r: Option<string>)
    ensures r == match FirstMatch(rules, oid) case None => None case Some(rule) => Some(rule.classification)
  {
    for i := 0 to |rules|
      invariant FirstMatch(rules, oid) == FirstMatch(rules[i..], oid)
    {
      var hit := OidPrefixMatches(oid, rules[i].prefix);
      if hit {
        return Some(rules[i].classification);
      }
      assert rules[i..][1..] == rules[i + 1..];
    }
    r := None;
  }

  lemma {:induction false} FirstMatchPosition(rules: seq<Rule>, oid: string)
    ensures FirstMatch(rules, oid).None? <==> forall i :: 0 <= i < |rules| ==> !Matches(oid, rules[i])
    ensures FirstMatch(rules, oid).Some? ==>
              exists i :: 0 <= i < |rules| && Matches(oid, rules[i]) && FirstMatch(rules, oid) == Some(rules[i])
                          && forall k :: 0 <= k < i ==> !Matches(oid, rules[k])
  {
    hide Matches;
    if rules != [] && !Matches(oid, rules[0]) {
      FirstMatchPosition(rules[1..], oid);
      if FirstMatch(rules, oid).Some? {
        var i :| 0 <= i < |rules[1..]| && Matches(oid, rules[1..][i]) && FirstMatch(rules, oid) == Some(rules[1..][i])
                 && forall k :: 0 <= k < i ==> !Matches(oid, rules[1..][k]);
        assert rules[i + 1] == rules[1..][i];
        forall k | 0 <= k < i + 1 ensures !Matches(oid, rules[k]) {
          if k > 0 { assert rules[k] == rules[1..][k - 1]; }
        }
      } else {
        forall i | 0 <= i < |rules| ensures !Matches(oid, rules[i]) {
          if i > 0 { assert rules[i] == rules[1..][i - 1]; }
        }
      }
    }
  }

  /** No rule properly extends an earlier one. */
  predicate SpecificFirst(rules: seq<Rule>) {
    forall i, j :: 0 <= i < j < |rules| ==> !(Segments(rules[i].prefix) < Segments(rules[j].prefix))
  }

  predicate DistinctPrefixes(rules: seq<Rule>) {
    forall i, j :: 0 <= i < j < |rules| ==> Segments(rules[i].prefix) != Segments(rules[j].prefix)
  }

  /** The first matching rule is the longest matching prefix. */
  predicate FirstIsLongest(rules: seq<Rule>, oid: string) {
    var first := FirstMatch(rules, oid);
    first.Some? ==>
      forall j :: 0 <= j < |rules| && Matches(oid, rules[j]) ==>
        |Segments(rules[j].prefix)| <= |Segments(first.value.prefix)|
  }

  /** Of two openings of one list, the shorter opens the longer. */
  lemma PrefixesNest(a: seq<string>, b: seq<string>, whole: seq<string>)
    requires a <= whole && b <= whole
    ensures |a| < |b| ==> a < b
  {
    if |a| < |b| {
      assert b[..|a|] == whole[..|b|][..|a|] == whole[..|a|];
    }
  }

  lemma OrderedFirstIsLongest(rules: seq<Rule>, oid: string)
    requires SpecificFirst(rules)
    ensures FirstIsLongest(rules, oid)
  {
    hide Segments, FirstMatch;
    FirstMatchPosition(rules, oid);
    if FirstMatch(rules, oid).Some? {
      var i :| 0 <= i < |rules| && Matches(oid, rules[i]) && FirstMatch(rules, oid) == Some(rules[i])
               && forall k :: 0 <= k < i ==> !Matches(oid, rules[k]);
      forall j | 0 <= j < |rules| && Matches(oid, rules[j])
        ensures |Segments(rules[j].prefix)| <= |Segments(rules[i].prefix)|
      {
        PrefixesNest(Segments(rules[i].prefix), Segments(rules[j].prefix), Segments(oid));
      }
    }
  }

  /**
   * In a table of distinct prefixes, the first matching rule is the longest match for every
   * identifier exactly when no rule properly extends an earlier one.
   */
  lemma FirstIsLongestIffOrdered(rules: seq<Rule>)
    requires DistinctPrefixes(rules)
    ensures (forall oid :: FirstIsLongest(rules, oid)) <==> SpecificFirst(rules)
  {
    if SpecificFirst(rules) {
      forall oid ensures FirstIsLongest(rules, oid) {
        OrderedFirstIsLongest(rules, oid);
      }
    } else {
      var i, j :| 0 <= i < j < |rules| && Segments(rules[i].prefix) < Segments(rules[j].prefix);
      var oid := rules[j].prefix;
      FirstMatchPosition(rules, oid);
      assert Matches(oid, rules[i]) && Matches(oid, rules[j]);
      var k :| 0 <= k < |rules| && Matches(oid, rules[k]) && FirstMatch(rules, oid) == Some(rules[k])
               && forall l :: 0 <= l < k ==> !Matches(oid, rules[l]);
      assert k <= i;
      assert Segments(rules[k].prefix) != Segments(rules[j].prefix);
      assert |Segments(rules[k].prefix)| < |Segments(rules[j].prefix)|;
      assert !FirstIsLongest(rules, oid);
    }
  }

  /** The same rules, possibly in another order. */
  ghost predicate SameRules(a: seq<Rule>, b: seq<Rule>) {
    (forall r :: r in a <==> r in b)
  }

  /** Of two matching rules of one table with distinct prefixes, the longest is one rule. */
  lemma LongestIsUnique(rules: seq<Rule>, oid: string, x: Rule, y: Rule)
    requires DistinctPrefixes(rules) && x in rules && y in rules && Matches(oid, x) && Matches(oid, y)
    requires |Segments(x.prefix)| == |Segments(y.prefix)|
    ensures x == y
  {
    var i :| 0 <= i < |rules| && rules[i] == x;
    var j :| 0 <= j < |rules| && rules[j] == y;
    var o := Segments(oid);
    assert Segments(x.prefix) == o[..|Segments(x.prefix)|] && Segments(y.prefix) == o[..|Segments(y.prefix)|];
  }

  /** A table finds a match as soon as another with the same rules does, at least as long. */
  lemma FindsAsLong(a: seq<Rule>, b: seq<Rule>, oid: string)
    requires SpecificFirst(b) && SameRules(a, b) && FirstMatch(a, oid).Some?
    ensures FirstMatch(b, oid).Some? && Matches(oid, FirstMatch(b, oid).value) && FirstMatch(b, oid).value in b
    ensures |Segments(FirstMatch(a, oid).value.prefix)| <= |Segments(FirstMatch(b, oid).value.prefix)|
  {
    FirstMatchPosition(a, oid);
    FirstMatchPosition(b, oid);
    OrderedFirstIsLongest(b, oid);
    var x := FirstMatch(a, oid).value;
    assert x in a;
    var k :| 0 <= k < |b| && b[k] == x;
    assert Matches(oid, b[k]);
  }

  /** Any reordering that keeps longer prefixes before shorter ones gives the same verdict. */
  lemma ReorderingKeepsVerdict(a: seq<Rule>, b: seq<Rule>, oid: string)
    requires SpecificFirst(a) && SpecificFirst(b) && DistinctPrefixes(a) && SameRules(a, b)
    ensures FirstMatch(a, oid) == FirstMatch(b, oid)
  {
    if FirstMatch(a, oid).Some? {
      FindsAsLong(a, b, oid);
    }
    if FirstMatch(b, oid).Some? {
      FindsAsLong(b, a, oid);
      FindsAsLong(a, b, oid);
      LongestIsUnique(a, oid, FirstMatch(a, oid).value, FirstMatch(b, oid).value);
    }
  }

  // ---------- canonical identifiers: arcs printed in decimal ----------

  function Decimal(n: nat): string {
    (if n < 10 then "" else Decimal(n / 10)) + ['0' + (n % 10) as char]
  }

  lemma {:induction false} DecimalShape(n: nat)
    ensures Decimal(n) != "" && forall i :: 0 <= i < |Decimal(n)| ==> '0' <= Decimal(n)[i] <= '9'
  {
    if n >= 10 {
      DecimalShape(n / 10);
    }
  }

  lemma {:induction false} DecimalInjective(n: nat, m: nat)
    requires Decimal(n) == Decimal(m)
    ensures n == m
  {
    var a, b := Decimal(n), Decimal(m);
    assert a[|a| - 1] == '0' + (n % 10) as char && b[|b| - 1] == '0' + (m % 10) as char;
    assert n % 10 == m % 10;
    assert a[..|a| - 1] == b[..|b| - 1];
    if n >= 10 { DecimalShape(n / 10); }
    if m >= 10 { DecimalShape(m / 10); }
    if n >= 10 {
      assert a[..|a| - 1] == Decimal(n / 10);
      if m >= 10 {
        assert b[..|b| - 1] == Decimal(m / 10);
        DecimalInjective(n / 10, m / 10);
      }
    }
  }

  function Printed(arcs: seq<nat>): seq<string> {
    seq(|arcs|, i requires 0 <= i < |arcs| => Decimal(arcs[i]))
  }

  function Print(arcs: seq<nat>): string {
    Join(Printed(arcs), '.')
  }

  lemma {:induction false} AllNonEmpty(parts: seq<string>)
    requires forall i :: 0 <= i < |parts| ==> parts[i] != ""
    ensures NonEmptyParts(parts) == parts
  {
    if parts != [] {
      AllNonEmpty(parts[1..]);
      assert parts == [parts[0]] + parts[1..];
    }
  }

  lemma {:induction false} JoinStartsWithFirst(parts: seq<string>, sep: char)
    requires parts != [] && parts[0] != ""
    ensures Join(parts, sep) != "" && Join(parts, sep)[0] == parts[0][0]
  {
  }

  /** The segments of a canonical identifier are its arcs. */
  lemma SegmentsOfPrinted(arcs: seq<nat>)
    requires arcs != []
    ensures Segments(Print(arcs)) == Printed(arcs)
  {
    var parts := Printed(arcs);
    forall i | 0 <= i < |parts| ensures parts[i] != "" && '.' !in parts[i] {
      DecimalShape(arcs[i]);
    }
    JoinStartsWithFirst(parts, '.');
    assert parts[0][0] != '.';
    assert StripDots(Print(arcs)) == Print(arcs);
    SplitJoin(parts, '.');
    AllNonEmpty(parts);
  }

  lemma PrintedPrefix(a: seq<nat>, b: seq<nat>)
    ensures Printed(a) <= Printed(b) <==> a <= b
  {
    if Printed(a) <= Printed(b) {
      forall i | 0 <= i < |a| ensures a[i] == b[i] {
        assert Printed(a)[i] == Printed(b)[i];
        DecimalInjective(a[i], b[i]);
      }
    }
    if a <= b {
      assert forall i :: 0 <= i < |a| ==> Printed(a)[i] == Printed(b)[i];
    }
  }

  lemma {:induction false} JoinLength(parts: seq<string>, more: seq<string>, sep: char)
    requires parts != [] && more != []
    ensures Join(parts + more, sep) == Join(parts, sep) + [sep] + Join(more, sep)
  {
    if |parts| == 1 {
      assert (parts + more)[1..] == more;
    } else {
      JoinLength(parts[1..], more, sep);
      assert (parts + more)[1..] == parts[1..] + more;
    }
  }

  /** A canonical identifier that properly extends another prints longer, and starts with it and a dot. */
  lemma ExtensionPrintsLonger(a: seq<nat>, b: seq<nat>)
    requires a != []
    ensures a < b ==> |Print(a)| < |Print(b)| && Print(a) + "." <= Print(b)
  {
    if a < b {
      var rest := b[|a|..];
      assert Printed(b) == Printed(a) + Printed(rest);
      JoinLength(Printed(a), Printed(rest), '.');
    }
  }

  ghost predicate CanonicalTable(rules: seq<Rule>, arcs: seq<seq<nat>>) {
    |arcs| == |rules| && forall i :: 0 <= i < |rules| ==> arcs[i] != [] && rules[i].prefix == Print(arcs[i])
  }

  /** Canonical identifiers sorted by decreasing text length, as the lookup query sorts them, are ordered. */
  lemma LengthSortedIsOrdered(rules: seq<Rule>, arcs: seq<seq<nat>>)
    requires CanonicalTable(rules, arcs)
    requires forall i, j :: 0 <= i < j < |rules| ==> |rules[i].prefix| >= |rules[j].prefix|
    ensures SpecificFirst(rules)
    ensures forall oid :: FirstIsLongest(rules, oid)
  {
    forall i, j | 0 <= i < j < |rules|
      ensures !(Segments(rules[i].prefix) < Segments(rules[j].prefix))
    {
      SegmentsOfPrinted(arcs[i]);
      SegmentsOfPrinted(arcs[j]);
      PrintedPrefix(arcs[i], arcs[j]);
      ExtensionPrintsLonger(arcs[i], arcs[j]);
    }
    forall oid ensures FirstIsLongest(rules, oid) {
      OrderedFirstIsLongest(rules, oid);
    }
  }

  /** The text test of the lookup: equal, or the entry followed by a dot. */
  predicate TextMatches(oid: string, prefix: string) {
    oid == prefix || prefix + "." <= oid
  }

  /** On canonical identifiers the text test is the segment test. */
  lemma TextMatchIsSegmentMatch(oid: seq<nat>, prefix: seq<nat>)
    requires oid != [] && prefix != []
    ensures TextMatches(Print(oid), Print(prefix)) <==> Segments(Print(prefix)) <= Segments(Print(oid))
  {
    SegmentsOfPrinted(oid);
    SegmentsOfPrinted(prefix);
    PrintedPrefix(prefix, oid);
    if prefix < oid {
      ExtensionPrintsLonger(prefix, oid);
    } else if prefix == oid {
    } else if TextMatches(Print(oid), Print(prefix)) {
      TextMatchGivesSegments(oid, prefix);
    }
  }

  lemma TextMatchGivesSegments(oid: seq<nat>, prefix: seq<nat>)
    requires oid != [] && prefix != [] && TextMatches(Print(oid), Print(prefix))
    ensures Printed(prefix) <= Printed(oid)
  {
    hide Split, Join, Decimal;
    forall i | 0 <= i < |prefix| ensures '.' !in Printed(prefix)[i] { DecimalShape(prefix[i]); }
    forall i | 0 <= i < |oid| ensures '.' !in Printed(oid)[i] { DecimalShape(oid[i]); }
    SplitJoin(Printed(prefix), '.');
    SplitJoin(Printed(oid), '.');
    if Print(oid) != Print(prefix) {
      var rest := Print(oid)[|Print(prefix)| + 1..];
      assert Print(oid) == Print(prefix) + ['.'] + rest;
      SplitConcat(Print(prefix), rest, '.');
    }
  }

  lemma {:induction false} NonEmptyAppend(a: seq<string>, b: seq<string>)
    ensures NonEmptyParts(a + b) == NonEmptyParts(a) + NonEmptyParts(b)
  {
    hide NonEmptyParts;
    if a == [] {
      assert a + b == b;
      NoParts();
    } else {
      NonEmptyAppend(a[1..], b);
      NonEmptyStep(a[0], a[1..]);
      NonEmptyStep(a[0], a[1..] + b);
      assert a == [a[0]] + a[1..] && a + b == [a[0]] + (a[1..] + b);
    }
  }

  lemma NoParts()
    ensures NonEmptyParts([]) == []
  {
  }

  lemma NonEmptyStep(part: string, rest: seq<string>)
    ensures NonEmptyParts([part] + rest) == (if part == "" then [] else [part]) + NonEmptyParts(rest)
  {
    assert ([part] + rest)[1..] == rest;
  }

  lemma {:induction false} StripChangesNothing(s: string)
    ensures NonEmptyParts(Split(StripDots(s), '.')) == NonEmptyParts(Split(s, '.'))
  {
    if s != "" && s[0] == '.' {
      StripChangesNothing(s[1..]);
      var rest := Split(s[1..], '.');
      assert ([""] + rest)[1..] == rest;
    }
  }

  /**
   * What segments are, for every text: one without dots is its own segment, the empty one has none, and
   * a dot adds nothing but a border. So leading, doubled and trailing dots do not count.
   */
  lemma SegmentsOfParts(a: string, b: string)
    ensures Segments(a + ['.'] + b) == Segments(a) + Segments(b)
    ensures '.' !in a ==> Segments(a) == if a == "" then [] else [a]
  {
    hide Split, StripDots, NonEmptyParts;
    StripChangesNothing(a + ['.'] + b);
    StripChangesNothing(a);
    StripChangesNothing(b);
    SplitConcat(a, b, '.');
    NonEmptyAppend(Split(a, '.'), Split(b, '.'));
    if '.' !in a {
      SplitPlain(a, '.');
      OnePart(a);
    }
  }

  lemma OnePart(a: string)
    ensures NonEmptyParts([a]) == if a == "" then [] else [a]
  {
    assert [a][1..] == [];
  }

  lemma SplitStep(c: char, s: string, sep: char)
    ensures Split([c] + s, sep) ==
            if c == sep then [""] + Split(s, sep) else Grown(c, Split(s, sep))
  {
    assert ([c] + s)[1..] == s;
  }

  lemma SplitEmpty(sep: char)
    ensures Split("", sep) == [""]
  {
  }

  /** Parts with one more character in front of the first. */
  function Grown(c: char, parts: seq<string>): seq<string>
    requires parts != []
  {
    [[c] + parts[0]] + parts[1..]
  }

  lemma GrownConcat(c: char, parts: seq<string>, more: seq<string>)
    requires parts != []
    ensures Grown(c, parts + more) == Grown(c, parts) + more
  {
    assert (parts + more)[1..] == parts[1..] + more;
  }

  lemma {:induction false} SplitConcat(a: string, b: string, sep: char)
    ensures Split(a + [sep] + b, sep) == Split(a, sep) + Split(b, sep)
  {
    hide Split, Grown;
    if a == "" {
      SplitEmpty(sep);
      SplitStep(sep, b, sep);
      assert a + [sep] + b == [sep] + b;
    } else {
      var c, tail := a[0], a[1..];
      SplitConcat(tail, b, sep);
      SplitStep(c, tail, sep);
      SplitStep(c, tail + [sep] + b, sep);
      assert a == [c] + tail && a + [sep] + b == [c] + (tail + [sep] + b);
      if c == sep {
        assert [""] + (Split(tail, sep) + Split(b, sep)) == ([""] + Split(tail, sep)) + Split(b, sep);
      } else {
        GrownConcat(c, Split(tail, sep), Split(b, sep));
      }
    }
  }

  // ---------- the table of the classifier ----------

  const ENTERPRISES: seq<nat> := [1, 3, 6, 1, 4, 1]

  datatype Arcs = Nil | Arc(head: nat, tail: Arcs)

  datatype Table = End | More(arcs: Arcs, classification: string, rest: Table)

  /** The rules in the order of the source, below the enterprises arc, in five stretches. */
  const STRETCH_1: Table :=
    More(Arc(11, Arc(2, Arc(3, Arc(9, Arc(1, Nil))))), "stampante",
    More(Arc(11, Arc(2, Arc(3, Arc(9, Nil)))), "stampante",
    More(Arc(11, Arc(2, Arc(3, Arc(7, Arc(11, Nil))))), "switch",
    More(Arc(11, Arc(2, Arc(3, Arc(7, Nil)))), "switch",
    More(Arc(14988, Arc(1, Nil)), "router",
    More(Arc(10002, Arc(1, Nil)), "access_point",
    End))))))

  const STRETCH_2: Table :=
    More(Arc(4413, Nil), "switch",
    More(Arc(41112, Arc(1, Arc(5, Nil))), "router",
    More(Arc(41112, Arc(1, Arc(2, Nil))), "access_point",
    More(Arc(25053, Nil), "access_point",
    More(Arc(39165, Nil), "telecamera",
    More(Arc(55985, Nil), "telecamera",
    End))))))

  const STRETCH_3: Table :=
    More(Arc(368, Nil), "telecamera",
    More(Arc(6574, Nil), "storage",
    More(Arc(24681, Nil), "storage",
    More(Arc(1248, Nil), "stampante",
    More(Arc(6876, Arc(2, Nil)), "hypervisor",
    More(Arc(6876, Nil), "hypervisor",
    End))))))

  const STRETCH_4: Table :=
    More(Arc(318, Nil), "ups",
    More(Arc(705, Nil), "ups",
    More(Arc(3990, Nil), "voip",
    More(Arc(9, Arc(6, Arc(1, Nil))), "voip",
    More(Arc(9, Arc(1, Arc(5, Nil))), "switch",
    More(Arc(9, Arc(1, Arc(1, Nil))), "switch",
    End))))))

  const STRETCH_5: Table :=
    More(Arc(4526, Nil), "switch",
    More(Arc(171, Arc(10, Nil)), "switch",
    More(Arc(12356, Nil), "firewall",
    More(Arc(12325, Nil), "firewall",
    More(Arc(8072, Arc(3, Arc(2, Nil))), "server_linux",
    More(Arc(9, Arc(1, Nil)), "router",
    End))))))

  function Flat(a: Arcs): seq<nat> {
    if a.Nil? then [] else [a.head] + Flat(a.tail)
  }

  predicate Opens(a: Arcs, b: Arcs) {
    a.Nil? || (b.Arc? && a.head == b.head && Opens(a.tail, b.tail))
  }

  lemma {:induction false} OpensIsPrefix(a: Arcs, b: Arcs)
    ensures Opens(a, b) <==> Flat(a) <= Flat(b)
  {
    if a.Arc? && b.Arc? {
      OpensIsPrefix(a.tail, b.tail);
      assert Flat(a)[1..] == Flat(a.tail) && Flat(b)[1..] == Flat(b.tail);
      if Flat(a) <= Flat(b) {
        assert Flat(a)[0] == Flat(b)[0];
        assert Flat(a.tail) == Flat(b)[..|Flat(a)|][1..];
      }
    }
  }

  function Entries(t: Table): seq<(seq<nat>, string)> {
    if t.End? then [] else [(Flat(t.arcs), t.classification)] + Entries(t.rest)
  }

  /** The stretches one after the other. */
  function Flattened(stretches: seq<Table>): seq<(seq<nat>, string)> {
    if stretches == [] then [] else Entries(stretches[0]) + Flattened(stretches[1..])
  }

  const STRETCHES := [STRETCH_1, STRETCH_2, STRETCH_3, STRETCH_4, STRETCH_5]

  const ENTRIES := Flattened(STRETCHES)

  function ClassifierRules(): seq<Rule> {
    seq(|ENTRIES|, i requires 0 <= i < |ENTRIES| => Rule(Print(ENTERPRISES + ENTRIES[i].0), ENTRIES[i].1))
  }

  /** No entry of the table opens with these arcs. */
  predicate NoneOpensWith(t: Table, arcs: Arcs) {
    t.End? || (!Opens(arcs, t.arcs) && NoneOpensWith(t.rest, arcs))
  }

  /** No entry opens a later one of the same stretch, equal entries included. */
  predicate OrderedTable(t: Table) {
    t.End? || (NoneOpensWith(t.rest, t.arcs) && OrderedTable(t.rest))
  }

  /** No entry of the first stretch opens one of the second. */
  predicate NoneOpensAny(t: Table, later: Table) {
    t.End? || (NoneOpensWith(later, t.arcs) && NoneOpensAny(t.rest, later))
  }

  /** The same on the flat entries. */
  predicate OrderedEntries(e: seq<(seq<nat>, string)>) {
    forall i, j :: 0 <= i < j < |e| ==> !(e[i].0 <= e[j].0)
  }

  predicate Apart(e: seq<(seq<nat>, string)>, f: seq<(seq<nat>, string)>) {
    forall i, j :: 0 <= i < |e| && 0 <= j < |f| ==> !(e[i].0 <= f[j].0)
  }

  lemma {:induction false} NoneOpensWithEntries(t: Table, arcs: Arcs, j: nat)
    requires NoneOpensWith(t, arcs) && j < |Entries(t)|
    ensures !(Flat(arcs) <= Entries(t)[j].0)
  {
    OpensIsPrefix(arcs, t.arcs);
    if j > 0 {
      NoneOpensWithEntries(t.rest, arcs, j - 1);
    }
  }

  lemma {:induction false} OrderedTableEntries(t: Table)
    ensures OrderedTable(t) ==> OrderedEntries(Entries(t))
  {
    if t.More? && OrderedTable(t) {
      OrderedTableEntries(t.rest);
      forall j | 0 <= j < |Entries(t.rest)| { NoneOpensWithEntries(t.rest, t.arcs, j); }
    }
  }

  lemma {:induction false} NoneOpensAnyEntries(t: Table, later: Table)
    ensures NoneOpensAny(t, later) ==> Apart(Entries(t), Entries(later))
  {
    if t.More? && NoneOpensAny(t, later) {
      NoneOpensAnyEntries(t.rest, later);
      forall j | 0 <= j < |Entries(later)| { NoneOpensWithEntries(later, t.arcs, j); }
    }
  }

  lemma EarlyStretchesOrdered()
    ensures OrderedTable(STRETCH_1) && OrderedTable(STRETCH_2)
  {
  }

  lemma LateStretchesOrdered()
    ensures OrderedTable(STRETCH_3) && OrderedTable(STRETCH_4) && OrderedTable(STRETCH_5)
  {
  }

  lemma FirstApartEarly()
    ensures NoneOpensAny(STRETCH_1, STRETCH_2) && NoneOpensAny(STRETCH_1, STRETCH_3)
  {
  }

  lemma FirstApartLate()
    ensures NoneOpensAny(STRETCH_1, STRETCH_4) && NoneOpensAny(STRETCH_1, STRETCH_5)
  {
  }

  lemma SecondApartEarly()
    ensures NoneOpensAny(STRETCH_2, STRETCH_3) && NoneOpensAny(STRETCH_2, STRETCH_4)
  {
  }

  lemma SecondApartLate()
    ensures NoneOpensAny(STRETCH_2, STRETCH_5)
  {
  }

  lemma ThirdApart()
    ensures NoneOpensAny(STRETCH_3, STRETCH_4) && NoneOpensAny(STRETCH_3, STRETCH_5)
  {
  }

  lemma FourthApart()
    ensures NoneOpensAny(STRETCH_4, STRETCH_5)
  {
  }

  lemma PutBefore(t: Table, e: seq<(seq<nat>, string)>)
    requires OrderedTable(t) && OrderedEntries(e) && Apart(Entries(t), e)
    ensures OrderedEntries(Entries(t) + e)
  {
    OrderedTableEntries(t);
  }

  lemma ApartConcat(e: seq<(seq<nat>, string)>, f: seq<(seq<nat>, string)>, g: seq<(seq<nat>, string)>)
    requires Apart(e, f) && Apart(e, g)
    ensures Apart(e, f + g)
  {
  }

  lemma {:induction false} ApartFromAll(t: Table, stretches: seq<Table>)
    requires forall i :: 0 <= i < |stretches| ==> NoneOpensAny(t, stretches[i])
    ensures Apart(Entries(t), Flattened(stretches))
  {
    hide NoneOpensAny, Entries;
    if stretches != [] {
      NoneOpensAnyEntries(t, stretches[0]);
      ApartFromAll(t, stretches[1..]);
      ApartConcat(Entries(t), Entries(stretches[0]), Flattened(stretches[1..]));
    }
  }

  /** Every stretch is ordered, and none opens an entry of a later one. */
  predicate OrderedStretches(stretches: seq<Table>) {
    && (forall i :: 0 <= i < |stretches| ==> OrderedTable(stretches[i]))
    && (forall i, j :: 0 <= i < j < |stretches| ==> NoneOpensAny(stretches[i], stretches[j]))
  }

  lemma {:induction false} StretchesOrdered(stretches: seq<Table>)
    requires OrderedStretches(stretches)
    ensures OrderedEntries(Flattened(stretches))
  {
    hide NoneOpensAny, OrderedTable, Entries, OrderedEntries, Apart;
    if stretches == [] {
      NothingIsOrdered();
    } else {
      StretchesOrdered(stretches[1..]);
      ApartFromAll(stretches[0], stretches[1..]);
      PutBefore(stretches[0], Flattened(stretches[1..]));
    }
  }

  lemma NothingIsOrdered()
    ensures OrderedEntries([])
  {
  }

  /** No entry of the whole table opens a later one, equal entries included. */
  lemma TableOrdered()
    ensures OrderedEntries(ENTRIES)
  {
    hide NoneOpensAny, OrderedTable, Entries, Flattened, OrderedEntries;
    EarlyStretchesOrdered();
    LateStretchesOrdered();
    FirstApartEarly();
    FirstApartLate();
    SecondApartEarly();
    SecondApartLate();
    ThirdApart();
    FourthApart();
    StretchesOrdered(STRETCHES);
  }

  lemma BelowEnterprises(a: seq<nat>, b: seq<nat>)
    ensures Segments(Print(ENTERPRISES + a)) <= Segments(Print(ENTERPRISES + b)) <==> a <= b
  {
    SegmentsOfPrinted(ENTERPRISES + a);
    SegmentsOfPrinted(ENTERPRISES + b);
    PrintedPrefix(ENTERPRISES + a, ENTERPRISES + b);
    assert (ENTERPRISES + a)[|ENTERPRISES|..] == a && (ENTERPRISES + b)[|ENTERPRISES|..] == b;
    if ENTERPRISES + a <= ENTERPRISES + b {
      forall i | 0 <= i < |a| ensures a[i] == b[i] {
        assert (ENTERPRISES + a)[|ENTERPRISES| + i] == (ENTERPRISES + b)[|ENTERPRISES| + i];
      }
    }
  }

  /** In the classifier's own table the first matching rule is always the longest matching prefix. */
  lemma ClassifierTableIsOrdered(oid: string)
    ensures SpecificFirst(ClassifierRules()) && DistinctPrefixes(ClassifierRules())
    ensures FirstIsLongest(ClassifierRules(), oid)
  {
    TableOrdered();
    var rules := ClassifierRules();
    forall i, j | 0 <= i < j < |rules|
      ensures !(Segments(rules[i].prefix) <= Segments(rules[j].prefix))
    {
      BelowEnterprises(ENTRIES[i].0, ENTRIES[j].0);
    }
    OrderedFirstIsLongest(rules, oid);
  }
}
