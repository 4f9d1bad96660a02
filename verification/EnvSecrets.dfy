/**
 * The secrets file kept equal to the runtime (src/lib/env-secrets.ts): a line editor, a line
 * reader and the loop that aligns two secrets between the process environment and the file.
 */
module EnvSecrets {
  import opened Sequences

  const ENCRYPTION_KEY := "ENCRYPTION_KEY"
  const AUTH_SECRET := "AUTH_SECRET"
  const NEXTAUTH_SECRET := "NEXTAUTH_SECRET"

  // ---------- lines ----------

  /** The length of the first line, its terminator excluded. */
  function LineLength(s: string): (n: nat)
    ensures n <= |s|
  {
    if s == "" || IsLineEnd(s[0]) then 0 else 1 + LineLength(s[1..])
  }

  /** The characters up to the first line terminator, and that terminator or the end. */
  lemma {:induction false} LineLengthIs(line: string, rest: string)
    requires SingleLine(line) && (rest == "" || IsLineEnd(rest[0]))
    ensures LineLength(line + rest) == |line|
  {
    if line == "" {
      assert line + rest == rest;
    } else {
      LineLengthIs(line[1..], rest);
      assert (line + rest)[1..] == line[1..] + rest;
    }
  }

  lemma {:induction false} LineLengthShape(s: string)
    ensures SingleLine(s[..LineLength(s)])
    ensures LineLength(s) < |s| ==> IsLineEnd(s[LineLength(s)])
  {
    if s != "" && !IsLineEnd(s[0]) {
      LineLengthShape(s[1..]);
      var n := LineLength(s);
      assert s[..n] == [s[0]] + s[1..][..n - 1];
    }
  }

  predicate SingleLine(s: string) {
    forall i :: 0 <= i < |s| ==> !IsLineEnd(s[i])
  }

  /** A variable name: none of the characters that structure the file. */
  predicate KeyName(key: string) {
    key != "" && forall i :: 0 <= i < |key| ==> key[i] != '=' && key[i] != '$' && !IsSpace(key[i])
  }

  predicate Assigns(line: string, key: string) {
    key + "=" <= line
  }

  // ---------- the reader ----------

  /** `^KEY=(.+)$` in multi-line mode: the first non-empty assignment, trimmed. */
  function Read(content: string, key: string): Option<string>
    decreases |content|
  {
    var n := LineLength(content);
    var line, rest := content[..n], content[n..];
    if Assigns(line, key) && |line| > |key| + 1 then Some(Trim(line[|key| + 1..]))
    else if rest == "" then None
    else Read(rest[1..], key)
  }

  /** The value the loop works with: an empty one counts as absent. */
  function Value(content: string, key: string): Option<string> {
    var r := Read(content, key);
    if r == Some("") then None else r
  }

  // ---------- the editor ----------

  /** `^KEY=.*$` in multi-line mode matches somewhere. */
  predicate HasLine(content: string, key: string)
    decreases |content|
  {
    var n := LineLength(content);
    var line, rest := content[..n], content[n..];
    Assigns(line, key) || (rest != "" && HasLine(rest[1..], key))
  }

  /** JavaScript's replacement template, for a pattern without groups. */
  function Expand(template: string, matched: string, before: string, after: string): string {
    if |template| < 2 then template
    else if template[0] == '$' && template[1] == '$' then "$" + Expand(template[2..], matched, before, after)
    else if template[0] == '$' && template[1] == '&' then matched + Expand(template[2..], matched, before, after)
    else if template[0] == '$' && template[1] == '`' then before + Expand(template[2..], matched, before, after)
    else if template[0] == '$' && template[1] == '\'' then after + Expand(template[2..], matched, before, after)
    else [template[0]] + Expand(template[1..], matched, before, after)
  }

  /** The first matching line replaced; `before` is the text already passed. */
  function Replace(content: string, key: string, line: string, before: string): string
    decreases |content|
  {
    var n := LineLength(content);
    if Assigns(content[..n], key) then
      Expand(line, content[..n], before, content[n..]) + content[n..]
    else if n == |content| then content
    else content[..n + 1] + Replace(content[n + 1..], key, line, before + content[..n + 1])
  }

  function Upsert(content: string, key: string, value: string): string {
    var line := key + "=" + value;
    if HasLine(content, key) then Replace(content, key, line, "")
    else
      var trimmed := TrimEnd(content);
      if trimmed != "" then trimmed + "\n" + line + "\n" else line + "\n"
  }

  /** Leading newlines, dropped when the file is written. */
  function StripNewlines(s: string): string {
    if s != "" && s[0] == '\n' then StripNewlines(s[1..]) else s
  }

  predicate DollarPair(a: char, b: char) {
    a == '$' && (b == '$' || b == '&' || b == '`' || b == '\'')
  }

  /** No pair of characters that a replacement template would interpret. */
  predicate DollarSafe(s: string) {
    forall i :: 0 <= i < |s| - 1 ==> !DollarPair(s[i], s[i + 1])
  }

  /** A value the editor writes literally, whatever the file. */
  predicate Writable(value: string) {
    SingleLine(value) && DollarSafe(value)
  }

  /** A value the editor writes literally to this file: only an existing line makes it a template. */
  predicate WritableTo(content: string, key: string, value: string) {
    SingleLine(value) && (HasLine(content, key) ==> DollarSafe(value))
  }

  /** The template reaches a pair that pastes the text around the matched line. */
  predicate Pastes(template: string) {
    |template| >= 2 &&
    if template[0] == '$' && (template[1] == '`' || template[1] == '\'') then true
    else if template[0] == '$' && (template[1] == '$' || template[1] == '&') then Pastes(template[2..])
    else Pastes(template[1..])
  }

  /** A value that stays on one line in this file, whether or not its pairs are interpreted. */
  predicate StaysOnLine(content: string, key: string, value: string) {
    SingleLine(value) && (HasLine(content, key) ==> !Pastes(value))
  }

  lemma {:induction false} SafeNeverPastes(template: string)
    requires DollarSafe(template)
    ensures !Pastes(template)
  {
    if |template| >= 2 {
      assert !DollarPair(template[0], template[1]);
      DollarSafeTail(template);
      SafeNeverPastes(template[1..]);
    }
  }

  /** Without such a pair the text around the line has no part in the result. */
  lemma {:induction false} ExpandInside(template: string, matched: string, before: string, after: string)
    requires !Pastes(template)
    ensures Expand(template, matched, before, after) == Expand(template, matched, "", "")
  {
    if |template| >= 2 {
      if DollarPair(template[0], template[1]) {
        ExpandInside(template[2..], matched, before, after);
      } else {
        ExpandInside(template[1..], matched, before, after);
      }
    }
  }

  lemma {:induction false} PastesPrefix(prefix: string, template: string)
    requires forall i :: 0 <= i < |prefix| ==> prefix[i] != '$'
    ensures Pastes(prefix + template) <==> Pastes(template)
  {
    if prefix == "" {
      assert prefix + template == template;
    } else {
      PastesPrefix(prefix[1..], template);
      assert (prefix + template)[1..] == prefix[1..] + template;
      if |prefix + template| < 2 {
        assert template == "";
      }
    }
  }

  lemma DollarSafeTail(s: string)
    requires DollarSafe(s) && s != ""
    ensures DollarSafe(s[1..])
  {
    forall i | 0 <= i < |s[1..]| - 1 ensures !DollarPair(s[1..][i], s[1..][i + 1]) {
      assert !DollarPair(s[i + 1], s[i + 2]);
    }
  }

  lemma {:induction false} ExpandLiteral(template: string, matched: string, before: string, after: string)
    requires DollarSafe(template)
    ensures Expand(template, matched, before, after) == template
  {
    if |template| >= 2 {
      assert !DollarPair(template[0], template[1]);
      DollarSafeTail(template);
      ExpandLiteral(template[1..], matched, before, after);
    }
  }

  lemma LineIsSingle(key: string, value: string)
    requires KeyName(key) && SingleLine(value)
    ensures SingleLine(key + "=" + value) && Assigns(key + "=" + value, key)
  {
    var line := key + "=" + value;
    assert line == (key + "=") + value;
  }

  lemma AssignsMeans(line: string, key: string)
    ensures Assigns(line, key) <==> |line| > |key| && line[..|key|] == key && line[|key|] == '='
  {
    if |line| > |key| && line[..|key|] == key && line[|key|] == '=' {
      assert line[..|key| + 1] == key + "=";
    }
    if Assigns(line, key) {
      assert line[..|key|] == (key + "=")[..|key|] == key;
    }
  }

  /** Lines of different variables never look alike. */
  lemma OtherLine(line: string, key: string, other: string)
    requires KeyName(key) && KeyName(other) && key != other && Assigns(line, key)
    ensures !Assigns(line, other)
  {
    AssignsMeans(line, key);
    AssignsMeans(line, other);
    if |other| < |key| {
      assert line[|other|] == key[|other|];
    } else if |key| < |other| {
      assert |line| > |other| && line[..|other|] == other ==> other[|key|] == line[|key|];
    }
  }

  // ---------- reading line by line ----------

  /** Where the first line of a text ends and what follows it. */
  lemma FirstLine(line: string, rest: string)
    requires SingleLine(line) && (rest == "" || IsLineEnd(rest[0]))
    ensures LineLength(line + rest) == |line|
    ensures (line + rest)[..|line|] == line && (line + rest)[|line|..] == rest
  {
    LineLengthIs(line, rest);
  }

  lemma ReadLine(line: string, rest: string, key: string)
    requires SingleLine(line) && (rest == "" || IsLineEnd(rest[0]))
    ensures Read(line + rest, key) ==
            if Assigns(line, key) && |line| > |key| + 1 then Some(Trim(line[|key| + 1..]))
            else if rest == "" then None
            else Read(rest[1..], key)
    ensures HasLine(line + rest, key) <==> Assigns(line, key) || (rest != "" && HasLine(rest[1..], key))
  {
    hide LineLength, Trim, IsLineEnd, Assigns, SingleLine;
    FirstLine(line, rest);
  }

  /** The same, with the line and its terminator in front of the rest. */
  lemma ReadNext(line: string, end: char, rest: string, key: string)
    requires SingleLine(line) && IsLineEnd(end)
    ensures Read(line + ([end] + rest), key) ==
            if Assigns(line, key) && |line| > |key| + 1 then Some(Trim(line[|key| + 1..])) else Read(rest, key)
    ensures HasLine(line + ([end] + rest), key) <==> Assigns(line, key) || HasLine(rest, key)
  {
    hide Read, HasLine, Assigns, Trim, SingleLine;
    ReadLine(line, [end] + rest, key);
    assert ([end] + rest)[1..] == rest;
  }

  /** What is read from two texts, one below the other. */
  predicate ReadsInTurn(a: string, b: string, key: string) {
    && Read(a + "\n" + b, key) == (if Read(a, key).Some? then Read(a, key) else Read(b, key))
    && (HasLine(a + "\n" + b, key) <==> HasLine(a, key) || HasLine(b, key))
  }

  lemma ReadsInTurnOneLine(line: string, b: string, key: string)
    requires SingleLine(line)
    ensures ReadsInTurn(line, b, key)
  {
    hide Read, HasLine, Assigns, Trim, SingleLine;
    assert line + "" == line;
    assert line + "\n" + b == line + (['\n'] + b);
    ReadLine(line, "", key);
    ReadNext(line, '\n', b, key);
  }

  lemma ReadsInTurnStep(line: string, end: char, tail: string, b: string, key: string)
    requires SingleLine(line) && IsLineEnd(end) && ReadsInTurn(tail, b, key)
    ensures ReadsInTurn(line + ([end] + tail), b, key)
  {
    hide Read, HasLine, Assigns, Trim, SingleLine, IsLineEnd;
    ReadNext(line, end, tail, key);
    ReadNext(line, end, tail + "\n" + b, key);
    assert line + ([end] + tail) + "\n" + b == line + ([end] + (tail + "\n" + b));
  }

  /** Reading a text that continues on a new line. */
  lemma {:induction false} ReadAppended(a: string, b: string, key: string)
    ensures ReadsInTurn(a, b, key)
    decreases |a|
  {
    var n := LineLength(a);
    LineLengthShape(a);
    if n == |a| {
      assert a[..n] == a;
      ReadsInTurnOneLine(a, b, key);
    } else {
      ReadAppended(a[n + 1..], b, key);
      ReadsInTurnStep(a[..n], a[n], a[n + 1..], b, key);
      assert a == a[..n] + ([a[n]] + a[n + 1..]);
    }
  }

  lemma {:induction false} StripKeepsReading(s: string, key: string)
    requires KeyName(key)
    ensures Read(StripNewlines(s), key) == Read(s, key)
  {
    if s != "" && s[0] == '\n' {
      StripKeepsReading(s[1..], key);
      ReadLine("", s, key);
      assert "" + s == s;
    }
  }

  // ---------- white space at the end ----------

  lemma SpaceIsNoAssignment(line: string, key: string)
    requires KeyName(key) && (line == "" || IsSpace(line[0]))
    ensures !Assigns(line, key)
  {
    assert (key + "=")[0] == key[0];
  }

  /** White space behind a text shorter than the assignment does not complete it. */
  lemma SpaceCompletesNothing(line: string, w: string, key: string)
    requires KeyName(key) && |line| <= |key| && AllSpace(w)
    ensures !Assigns(line + w, key)
  {
    assert !IsSpace((key + "=")[|line|]);
    if w != "" {
      assert (line + w)[|line|] == w[0];
    }
  }

  lemma {:induction false} NothingInSpace(s: string, key: string)
    requires KeyName(key) && AllSpace(s)
    ensures Read(s, key) == None && !HasLine(s, key)
    decreases |s|
  {
    var n := LineLength(s);
    SpaceIsNoAssignment(s[..n], key);
    if n < |s| {
      NothingInSpace(s[n + 1..], key);
    }
  }

  /** White space behind a line changes neither whether it assigns nor the trimmed value. */
  lemma LineIgnoresSpace(line: string, w: string, key: string)
    requires KeyName(key) && AllSpace(w)
    ensures Assigns(line + w, key) <==> Assigns(line, key)
    ensures Assigns(line, key) ==> Trim((line + w)[|key| + 1..]) == Trim(line[|key| + 1..])
  {
    hide Trim, IsSpace;
    if |line| <= |key| {
      SpaceCompletesNothing(line, w, key);
    } else {
      assert (line + w)[..|key| + 1] == line[..|key| + 1];
      assert (line + w)[|key| + 1..] == line[|key| + 1..] + w;
      TrimAppended(line[|key| + 1..], w);
    }
  }

  /** The one line that white space at the end can change. */
  lemma LastLineIgnoresSpace(line: string, w: string, key: string)
    requires KeyName(key) && SingleLine(line) && AllSpace(w)
    ensures Value(line + w, key) == Value(line, key)
    ensures HasLine(line + w, key) <==> HasLine(line, key)
  {
    hide Trim, IsSpace, IsLineEnd, KeyName, Assigns, Read, HasLine, AllSpace;
    var n := LineLength(w);
    LineLengthShape(w);
    var longer, rest := line + w[..n], w[n..];
    assert line + w == longer + rest;
    assert line + "" == line;
    SpaceParts(w, n);
    ReadLine(line, "", key);
    ReadLine(longer, rest, key);
    LineIgnoresSpace(line, w[..n], key);
    TrimNothing();
    if rest != "" {
      NothingInSpace(rest[1..], key);
    }
    if Assigns(line, key) {
      AssignmentIsLonger(line, key);
      if |line| == |key| + 1 {
        assert line[|key| + 1..] == "";
      }
    }
  }

  lemma AssignmentIsLonger(line: string, key: string)
    requires Assigns(line, key)
    ensures |line| >= |key| + 1
  {
  }

  lemma TrimNothing()
    ensures Trim("") == ""
  {
  }

  lemma SpaceParts(w: string, n: nat)
    requires AllSpace(w) && n <= |w|
    ensures AllSpace(w[..n]) && (n < |w| ==> AllSpace(w[n..][1..]))
    ensures SingleLine(w[..n]) ==> forall line :: SingleLine(line) ==> SingleLine(line + w[..n])
    ensures n < |w| ==> w[n..] != "" && w[n..][0] == w[n]
  {
    hide IsSpace, IsLineEnd;
  }

  /** White space at the end of the file never changes a value. */
  lemma {:induction false} TrailingSpaceIgnored(t: string, w: string, key: string)
    requires KeyName(key) && AllSpace(w)
    ensures Value(t + w, key) == Value(t, key)
    ensures HasLine(t + w, key) <==> HasLine(t, key)
    decreases |t|
  {
    hide HasLine, KeyName, AllSpace, Read, Assigns, Trim, IsLineEnd;
    var n := LineLength(t);
    LineLengthShape(t);
    if n == |t| {
      assert t[..n] == t;
      LastLineIgnoresSpace(t, w, key);
    } else {
      assert t == t[..n] + t[n..];
      assert t + w == t[..n] + (t[n..] + w);
      ReadLine(t[..n], t[n..], key);
      ReadLine(t[..n], t[n..] + w, key);
      assert t[n..][1..] == t[n + 1..];
      assert (t[n..] + w)[1..] == t[n + 1..] + w;
      TrailingSpaceIgnored(t[n + 1..], w, key);
    }
  }

  lemma TrimmedContent(content: string, key: string)
    requires KeyName(key)
    ensures Value(TrimEnd(content), key) == Value(content, key)
    ensures HasLine(TrimEnd(content), key) <==> HasLine(content, key)
  {
    TrimEndShape(content);
    var t := TrimEnd(content);
    assert content == t + content[|t|..];
    TrailingSpaceIgnored(t, content[|t|..], key);
  }

  lemma {:induction false} NoLineNoValue(content: string, key: string)
    requires !HasLine(content, key)
    ensures Read(content, key) == None
    decreases |content|
  {
    var n := LineLength(content);
    if n < |content| {
      NoLineNoValue(content[n + 1..], key);
    }
  }

  // ---------- what an edit does to what is read ----------

  lemma ExpandPlain(c: char, rest: string, matched: string)
    requires c != '$'
    ensures Expand([c] + rest, matched, "", "") == [c] + Expand(rest, matched, "", "")
  {
    assert ([c] + rest)[1..] == rest;
  }

  /** Plain text in front of the template passes through. */
  lemma {:induction false} ExpandPrefix(prefix: string, template: string, matched: string)
    requires forall i :: 0 <= i < |prefix| ==> prefix[i] != '$'
    ensures Expand(prefix + template, matched, "", "") == prefix + Expand(template, matched, "", "")
  {
    hide Expand;
    if prefix == "" {
      assert prefix + template == template;
    } else {
      ExpandPrefix(prefix[1..], template, matched);
      ExpandPlain(prefix[0], prefix[1..] + template, matched);
      assert prefix + template == [prefix[0]] + (prefix[1..] + template);
    }
  }

  lemma {:induction false} ExpandSingleLine(template: string, matched: string)
    requires SingleLine(template) && SingleLine(matched)
    ensures SingleLine(Expand(template, matched, "", ""))
  {
    if |template| >= 2 {
      ExpandSingleLine(template[1..], matched);
      ExpandSingleLine(template[2..], matched);
    }
  }

  lemma {:induction false} ExpandNotEmpty(template: string, matched: string)
    requires template != "" && matched != "" && !Pastes(template)
    ensures Expand(template, matched, "", "") != ""
  {
  }

  /** The line written over a matched one: it assigns the expanded value. */
  lemma ExpandedLine(key: string, value: string, matched: string)
    requires KeyName(key) && SingleLine(value) && SingleLine(matched)
    ensures var line := Expand(key + "=" + value, matched, "", "");
            line == key + "=" + Expand(value, matched, "", "") && SingleLine(line) && Assigns(line, key)
  {
    hide Expand;
    assert key + "=" + value == (key + "=") + value;
    ExpandPrefix(key + "=", value, matched);
    ExpandSingleLine(value, matched);
    LineIsSingle(key, Expand(value, matched, "", ""));
  }

  /** The line that is replaced. */
  function FirstMatch(content: string, key: string): string
    requires HasLine(content, key)
    decreases |content|
  {
    var n := LineLength(content);
    if Assigns(content[..n], key) then content[..n] else FirstMatch(content[n..][1..], key)
  }

  lemma {:induction false} FirstMatchShape(content: string, key: string)
    requires HasLine(content, key)
    ensures SingleLine(FirstMatch(content, key)) && Assigns(FirstMatch(content, key), key)
    decreases |content|
  {
    LineLengthShape(content);
    var n := LineLength(content);
    if !Assigns(content[..n], key) {
      FirstMatchShape(content[n..][1..], key);
    }
  }

  lemma ReplaceHere(content: string, key: string, value: string, before: string)
    requires KeyName(key) && Assigns(content[..LineLength(content)], key) && !Pastes(value)
    ensures var n := LineLength(content);
            Replace(content, key, key + "=" + value, before)
            == Expand(key + "=" + value, content[..n], "", "") + content[n..]
  {
    var n := LineLength(content);
    assert key + "=" + value == (key + "=") + value;
    PastesPrefix(key + "=", value);
    ExpandInside(key + "=" + value, content[..n], before, content[n..]);
  }

  lemma ReplaceLater(content: string, key: string, line: string, before: string)
    requires !Assigns(content[..LineLength(content)], key) && LineLength(content) < |content|
    ensures var n := LineLength(content);
            Replace(content, key, line, before)
            == content[..n] + ([content[n]] + Replace(content[n + 1..], key, line, before + content[..n + 1]))
  {
    hide Assigns, Expand;
    var n := LineLength(content);
    var rest := Replace(content[n + 1..], key, line, before + content[..n + 1]);
    assert content[..n + 1] == content[..n] + [content[n]];
    assert Replace(content, key, line, before) == content[..n + 1] + rest;
  }

  /** What is read for the replaced line is the expansion of the value. */
  lemma {:induction false} ReplaceReads(content: string, key: string, value: string, before: string)
    requires KeyName(key) && HasLine(content, key) && SingleLine(value) && !Pastes(value) && value != ""
    ensures Read(Replace(content, key, key + "=" + value, before), key)
            == Some(Trim(Expand(value, FirstMatch(content, key), "", "")))
    decreases |content|
  {
    hide Read, Replace, Trim, IsLineEnd, Expand, Pastes, KeyName, SingleLine;
    var n := LineLength(content);
    LineLengthShape(content);
    if Assigns(content[..n], key) {
      ReplaceHere(content, key, value, before);
      ExpandedLine(key, value, content[..n]);
      ExpandNotEmpty(value, content[..n]);
      ReadAssignment(key, Expand(value, content[..n], "", ""), content[n..]);
    } else {
      var tail := Replace(content[n + 1..], key, key + "=" + value, before + content[..n + 1]);
      assert content[n..][1..] == content[n + 1..];
      ReplaceReads(content[n + 1..], key, value, before + content[..n + 1]);
      ReplaceLater(content, key, key + "=" + value, before);
      ReadLine(content[..n], [content[n]] + tail, key);
      assert ([content[n]] + tail)[1..] == tail;
    }
  }

  /** A text that begins with an assignment. */
  lemma ReadAssignment(key: string, value: string, rest: string)
    requires SingleLine(key + "=" + value) && value != "" && (rest == "" || IsLineEnd(rest[0]))
    ensures Read(key + "=" + value + rest, key) == Some(Trim(value))
  {
    hide Read, Trim, IsLineEnd;
    var line := key + "=" + value;
    assert line[..|key| + 1] == key + "=";
    assert line[|key| + 1..] == value;
    ReadLine(line, rest, key);
  }

  lemma {:induction false} ReplaceKeepsOther(content: string, key: string, value: string, before: string, other: string)
    requires KeyName(key) && KeyName(other) && key != other && SingleLine(value) && !Pastes(value)
    ensures Read(Replace(content, key, key + "=" + value, before), other) == Read(content, other)
    ensures HasLine(Replace(content, key, key + "=" + value, before), other) <==> HasLine(content, other)
    decreases |content|
  {
    hide Read, HasLine, Replace, Trim, IsLineEnd, Assigns, Expand, Pastes, KeyName, SingleLine;
    var n := LineLength(content);
    LineLengthShape(content);
    var first, rest := content[..n], content[n..];
    assert content == first + rest;
    ReadLine(first, rest, other);
    if Assigns(first, key) {
      var line := Expand(key + "=" + value, first, "", "");
      ReplaceHere(content, key, value, before);
      ExpandedLine(key, value, first);
      OtherLine(first, key, other);
      OtherLine(line, key, other);
      ReadLine(line, rest, other);
    } else if n == |content| {
      ReplaceNothing(content, key, key + "=" + value, before);
    } else {
      var tail := Replace(content[n + 1..], key, key + "=" + value, before + content[..n + 1]);
      ReplaceKeepsOther(content[n + 1..], key, value, before + content[..n + 1], other);
      ReplaceLater(content, key, key + "=" + value, before);
      ReadLine(first, [content[n]] + tail, other);
      assert ([content[n]] + tail)[1..] == tail && rest[1..] == content[n + 1..];
    }
  }

  lemma ReplaceNothing(content: string, key: string, line: string, before: string)
    requires !Assigns(content[..LineLength(content)], key) && LineLength(content) == |content|
    ensures Replace(content, key, line, before) == content
  {
  }

  /** A value written for a variable is what is read for it, duplicates and empty lines included. */
  lemma UpsertReads(content: string, key: string, value: string)
    requires KeyName(key) && WritableTo(content, key, value) && value != "" && Trimmed(value)
    ensures Read(Upsert(content, key, value), key) == Some(value)
  {
    var line := key + "=" + value;
    LineIsSingle(key, value);
    assert line[|key| + 1..] == value;
    TrimShape(value);
    if HasLine(content, key) {
      SafeNeverPastes(value);
      ReplaceReads(content, key, value, "");
      ExpandLiteral(value, FirstMatch(content, key), "", "");
    } else {
      var t := TrimEnd(content);
      TrimmedContent(content, key);
      ReadLine(line, "\n", key);
      if t != "" {
        NoLineNoValue(t, key);
        ReadAppended(t, line + "\n", key);
        assert t + "\n" + line + "\n" == t + "\n" + (line + "\n");
      }
    }
  }

  /** Writing one variable never changes the value of another, nor whether it has a line. */
  lemma UpsertKeepsOther(content: string, key: string, value: string, other: string)
    requires KeyName(key) && KeyName(other) && key != other && StaysOnLine(content, key, value)
    ensures Value(Upsert(content, key, value), other) == Value(content, other)
    ensures HasLine(Upsert(content, key, value), other) <==> HasLine(content, other)
  {
    var line := key + "=" + value;
    LineIsSingle(key, value);
    if HasLine(content, key) {
      ReplaceKeepsOther(content, key, value, "", other);
    } else {
      var t := TrimEnd(content);
      TrimmedContent(content, other);
      OtherLine(line, key, other);
      ReadLine(line, "\n", other);
      assert "\n"[1..] == "";
      if t != "" {
        ReadAppended(t, line + "\n", other);
        assert t + "\n" + line + "\n" == t + "\n" + (line + "\n");
      }
    }
  }

  // ---------- which values survive ----------

  lemma {:induction false} TrimContains(a: string, core: string, b: string)
    requires core != "" && !IsSpace(core[0]) && !IsSpace(core[|core| - 1])
    ensures |Trim(a + core + b)| >= |core|
  {
    var s := a + core + b;
    TrimStartShape(s);
    var t := TrimStart(s);
    assert s[|a|] == core[0] && s[|a| + |core| - 1] == core[|core| - 1];
    assert |s| - |t| <= |a|;
    TrimEndShape(t);
    assert t == s[|s| - |t|..];
    assert t[|a| + |core| - 1 - (|s| - |t|)] == core[|core| - 1];
  }

  ghost predicate Holds(s: string, part: string) {
    exists a, b :: s == a + part + b
  }

  lemma HoldsBehind(front: string, s: string, part: string)
    requires Holds(s, part)
    ensures Holds(front + s, part)
  {
    var a, b :| s == a + part + b;
    assert front + s == (front + a) + part + b;
  }

  /** An interpreted template either grows by a whole copy of the matched line or shrinks. */
  lemma {:induction false} ExpandSize(template: string, matched: string)
    ensures var e := Expand(template, matched, "", "");
            || Holds(e, matched)
            || (|e| <= |template| && (!DollarSafe(template) ==> |e| < |template|))
  {
    hide Holds, DollarSafe;
    if |template| < 2 {
      ShortIsSafe(template);
    } else if DollarPair(template[0], template[1]) {
      var tail := Expand(template[2..], matched, "", "");
      ExpandSize(template[2..], matched);
      if template[1] == '&' {
        HoldsItself(matched, tail);
      } else if Holds(tail, matched) {
        HoldsBehind(if template[1] == '$' then "$" else "", tail, matched);
        assert "" + tail == tail;
      }
    } else {
      ExpandSize(template[1..], matched);
      UnsafeTail(template);
      if Holds(Expand(template[1..], matched, "", ""), matched) {
        HoldsBehind([template[0]], Expand(template[1..], matched, "", ""), matched);
      }
    }
  }

  lemma ShortIsSafe(template: string)
    requires |template| < 2
    ensures DollarSafe(template)
  {
  }

  lemma HoldsItself(matched: string, tail: string)
    ensures Holds(matched + tail, matched)
  {
    assert matched + tail == "" + matched + tail;
  }

  lemma UnsafeTail(template: string)
    requires |template| >= 2 && !DollarPair(template[0], template[1])
    ensures DollarSafe(template[1..]) ==> DollarSafe(template)
  {
    if DollarSafe(template[1..]) {
      forall i | 0 <= i < |template| - 1 ensures !DollarPair(template[i], template[i + 1]) {
        assert i > 0 ==> !DollarPair(template[1..][i - 1], template[1..][i]);
      }
    }
  }

  /** A file on which an interpreted value does not come back: one existing line, longer than the value. */
  lemma InterpretedValueLost(key: string, value: string, previous: string)
    requires KeyName(key) && SingleLine(value) && !DollarSafe(value)
    requires |previous| > |value| && forall i :: 0 <= i < |previous| ==> previous[i] == 'x'
    ensures Read(Upsert(key + "=" + previous, key, value), key) != Some(value)
  {
    var content, assignment := key + "=" + previous, key + "=";
    var expanded := Expand(value, content, "", "");
    ReadLine(content, "", key);
    LineLengthIs(content, "");
    assert content + "" == content && content[..|content|] == content && content[|content|..] == "";
    assert assignment + value == key + "=" + value;
    ExpandPrefix(assignment, value, content);
    ExpandSingleLine(value, content);
    var result := assignment + expanded;
    assert Upsert(content, key, value) == result + "";
    ReadLine(result, "", key);
    assert result[|key| + 1..] == expanded;
    ExpandSize(value, content);
    if Holds(expanded, content) {
      var a, b :| expanded == a + content + b;
      TrimContains(a, content, b);
    } else {
      TrimShape(expanded);
    }
  }

  /** Nothing read ever holds a line terminator. */
  lemma {:induction false} ReadIsSingleLine(content: string, key: string)
    ensures Read(content, key).Some? ==> SingleLine(Read(content, key).value)
    decreases |content|
  {
    var n := LineLength(content);
    LineLengthShape(content);
    if Assigns(content[..n], key) && n > |key| + 1 {
      var line, given := content[..n], content[|key| + 1..n];
      TrimShape(given);
      forall c | c in given ensures !IsLineEnd(c) {
        var j :| 0 <= j < |given| && given[j] == c;
        assert line[|key| + 1 + j] == c;
      }
    } else if n < |content| {
      ReadIsSingleLine(content[n + 1..], key);
    }
  }

  /** In a file without a line for the variable, exactly the single-line values are read back. */
  lemma InsertedReadsBackIff(content: string, key: string, value: string)
    requires KeyName(key) && value != "" && Trimmed(value) && !HasLine(content, key)
    ensures Read(Upsert(content, key, value), key) == Some(value) <==> SingleLine(value)
  {
    if SingleLine(value) {
      UpsertReads(content, key, value);
    } else {
      ReadIsSingleLine(Upsert(content, key, value), key);
    }
  }

  /**
   * From every file that has a line for the variable, exactly the single-line values free of `$`
   * pairs are read back (for values as the loop has them: trimmed and not empty).
   */
  lemma ReplacedReadsBackIff(key: string, value: string)
    requires KeyName(key) && value != "" && Trimmed(value)
    ensures (forall content :: HasLine(content, key) ==> Read(Upsert(content, key, value), key) == Some(value))
            <==> Writable(value)
  {
    if Writable(value) {
      forall content | HasLine(content, key) ensures Read(Upsert(content, key, value), key) == Some(value) {
        UpsertReads(content, key, value);
      }
    } else {
      var previous := seq(|value| + 1, i => 'x');
      var content := key + "=" + previous;
      AssignmentHasLine(key, previous);
      if SingleLine(value) {
        InterpretedValueLost(key, value, previous);
      } else {
        ReadIsSingleLine(Upsert(content, key, value), key);
      }
    }
  }

  function Dollars(k: nat): string {
    seq(k, i => '$')
  }

  lemma DollarsMore(k: nat, t: string)
    ensures Dollars(k + 1) + t == "$" + (Dollars(k) + t) == Dollars(k) + ("$" + t)
  {
  }

  lemma PrefixTail(c: char, s: string, t: string)
    ensures [c] + s <= [c] + t <==> s <= t
  {
    if [c] + s <= [c] + t {
      assert ([c] + s)[1..] == s && ([c] + t)[1..] == t;
      assert s == t[..|s|];
    }
  }

  lemma OtherHead(s: string, t: string)
    requires s != "" && t != "" && s[0] != t[0]
    ensures !(s <= t)
  {
  }

  /** Without pasted text an expansion never catches up with `$` characters it has fallen behind. */
  lemma {:induction false} ExpandNeverCatchesUp(template: string, matched: string, k: nat)
    requires !Pastes(template) && k > 0 && matched != "" && matched[0] != '$'
    ensures !(Dollars(k) + template <= Expand(template, matched, "", ""))
  {
    hide Dollars;
    DollarsMore(k - 1, template);
    if |template| < 2 {
      assert |Dollars(k)| == k by { DollarsLength(k); }
    } else if template[0] == '$' && template[1] == '$' {
      var rest := template[2..];
      ExpandNeverCatchesUp(rest, matched, k + 1);
      assert template == "$" + ("$" + rest);
      DollarsMore(k, "$" + rest);
      DollarsMore(k, rest);
      PrefixTail('$', Dollars(k + 1) + rest, Expand(rest, matched, "", ""));
    } else if template[0] == '$' && template[1] == '&' {
      OtherHead(Dollars(k) + template, Expand(template, matched, "", ""));
    } else if template[0] == '$' {
      var rest := template[1..];
      ExpandNeverCatchesUp(rest, matched, k);
      assert template == "$" + rest;
      DollarsMore(k, rest);
      PrefixTail('$', Dollars(k) + rest, Expand(rest, matched, "", ""));
    } else {
      OtherHead(Dollars(k) + template, Expand(template, matched, "", ""));
    }
  }

  lemma DollarsLength(k: nat)
    ensures |Dollars(k)| == k
  {
  }

  /** An interpreted value without pasted text is not even the beginning of its expansion. */
  lemma {:induction false} ExpandNeverReturns(template: string, matched: string)
    requires !DollarSafe(template) && !Pastes(template) && matched != "" && matched[0] != '$'
    ensures !(template <= Expand(template, matched, "", ""))
  {
    hide DollarSafe;
    if |template| < 2 {
      ShortIsSafe(template);
    } else if template[0] == '$' && template[1] == '$' {
      var rest := template[2..];
      ExpandNeverCatchesUp(rest, matched, 1);
      assert Dollars(1) + rest == "$" + rest;
      assert template == "$" + ("$" + rest);
      PrefixTail('$', "$" + rest, Expand(rest, matched, "", ""));
    } else if template[0] == '$' && template[1] == '&' {
      OtherHead(template, Expand(template, matched, "", ""));
    } else {
      UnsafeTail(template);
      ExpandNeverReturns(template[1..], matched);
      assert template == [template[0]] + template[1..];
      PrefixTail(template[0], template[1..], Expand(template[1..], matched, "", ""));
    }
  }

  /** A text that does not start with white space is only cut at its end. */
  lemma TrimIsPrefix(s: string)
    requires s == "" || !IsSpace(s[0])
    ensures Trim(s) <= s
  {
    TrimStartShape(s);
    TrimEndShape(s);
  }

  lemma ExpandHead(template: string, matched: string)
    requires template != "" && !IsSpace(template[0]) && matched != "" && !IsSpace(matched[0]) && !Pastes(template)
    ensures Expand(template, matched, "", "") != "" && !IsSpace(Expand(template, matched, "", "")[0])
  {
  }

  /**
   * In every single file that has a line for the variable, a value that reaches no pair pasting the
   * text around that line is read back exactly when it is single-line and free of `$` pairs.
   */
  lemma ReplacedReadsBackInFile(content: string, key: string, value: string)
    requires KeyName(key) && value != "" && Trimmed(value) && HasLine(content, key) && !Pastes(value)
    ensures Read(Upsert(content, key, value), key) == Some(value) <==> Writable(value)
  {
    hide Read, Upsert, HasLine, Pastes, Expand, Trim, DollarSafe;
    if Writable(value) {
      UpsertReads(content, key, value);
    } else if SingleLine(value) {
      var matched := FirstMatch(content, key);
      FirstMatchShape(content, key);
      MatchHead(matched, key);
      UpsertReplaces(content, key, value);
      ReplaceReads(content, key, value, "");
      TrimmedHead(value);
      ExpandHead(value, matched);
      ExpandNeverReturns(value, matched);
      TrimIsPrefix(Expand(value, matched, "", ""));
    } else {
      ReadIsSingleLine(Upsert(content, key, value), key);
    }
  }

  lemma MatchHead(matched: string, key: string)
    requires KeyName(key) && Assigns(matched, key)
    ensures matched != "" && matched[0] != '$' && !IsSpace(matched[0])
  {
    assert matched[0] == (key + "=")[0] == key[0];
  }

  lemma TrimmedHead(value: string)
    requires value != "" && Trimmed(value)
    ensures !IsSpace(value[0])
  {
  }

  lemma UpsertReplaces(content: string, key: string, value: string)
    requires HasLine(content, key)
    ensures Upsert(content, key, value) == Replace(content, key, key + "=" + value, "")
  {
  }

  lemma AssignmentHasLine(key: string, previous: string)
    requires KeyName(key) && SingleLine(previous)
    ensures HasLine(key + "=" + previous, key)
  {
    LineIsSingle(key, previous);
    ReadLine(key + "=" + previous, "", key);
    assert key + "=" + previous + "" == key + "=" + previous;
  }

  /**
   * From a single such file an interpreted value may come back by chance: here it stands in front of
   * the line, and the pair it holds puts that text into the line.
   */
  lemma InterpretedValueMayReturn(key: string)
    requires KeyName(key)
    ensures !DollarSafe("$`")
    ensures var content := "$`" + (['\n'] + (key + "=x"));
            HasLine(content, key) && Read(Upsert(content, key, "$`"), key) == Some("$`")
  {
    hide Read, HasLine, Replace, Trim, Expand, IsLineEnd;
    var value, entry := "$`", key + "=x";
    var content, line := value + (['\n'] + entry), key + "=" + value;
    var replaced := line + (['\n'] + "");
    assert DollarPair(value[0], value[1]);
    SingleValue();
    AssignmentHasLine(key, "x");
    assert key + "=" + "x" == entry;
    NotAssigned(value, key);
    ReadNext(value, '\n', entry, key);
    ReplacedBelow(value, entry, key, line);
    ReplacedByPrefix(key, value, value + "\n");
    assert key + "=" + (value + "\n") == replaced;
    ReadNext(value, '\n', replaced, key);
    LineIsSingle(key, value);
    ReadNext(line, '\n', "", key);
    assert line[|key| + 1..] == value;
    TrimShape(value);
  }

  lemma SingleValue()
    ensures SingleLine("$`") && Trimmed("$`") && SingleLine("x") && IsLineEnd('\n')
  {
  }

  /** The replacement below a line of something else. */
  lemma ReplacedBelow(first: string, rest: string, key: string, line: string)
    requires SingleLine(first) && !Assigns(first, key)
    ensures Replace(first + (['\n'] + rest), key, line, "") == first + (['\n'] + Replace(rest, key, line, first + "\n"))
  {
    var content := first + (['\n'] + rest);
    LineLengthIs(first, ['\n'] + rest);
    var n := |first|;
    assert content[..n] == first && content[n] == '\n' && content[n + 1..] == rest;
    assert "" + content[..n + 1] == first + "\n";
    ReplaceLater(content, key, line, "");
  }

  lemma NotAssigned(line: string, key: string)
    requires KeyName(key) && line == "$`"
    ensures !Assigns(line, key)
  {
    AssignsMeans(line, key);
    assert |key| == 1 ==> line[1] != '=';
  }

  /** The template whose value is the pair for the text before, on a file that is the one line. */
  lemma ReplacedByPrefix(key: string, value: string, before: string)
    requires KeyName(key) && value == "$`"
    ensures Replace(key + "=x", key, key + "=" + value, before) == key + "=" + before
  {
    hide Expand;
    var entry := key + "=x";
    LineIsSingle(key, "x");
    LineLengthIs(entry, "");
    assert entry + "" == entry && entry[..|entry|] == entry && entry[|entry|..] == "";
    ExpandsToPrefix(key + "=", entry, before);
    assert key + "=" + value == (key + "=") + "$`";
  }

  lemma {:induction false} ExpandsToPrefix(plain: string, matched: string, before: string)
    requires forall i :: 0 <= i < |plain| ==> plain[i] != '$'
    ensures Expand(plain + "$`", matched, before, "") == plain + before
  {
    if plain == "" {
      assert plain + "$`" == "$`" && "$`"[2..] == "";
      assert Expand("", matched, before, "") == "";
    } else {
      ExpandsToPrefix(plain[1..], matched, before);
      assert (plain + "$`")[1..] == plain[1..] + "$`";
      assert plain == [plain[0]] + plain[1..];
    }
  }

  // ---------- the loop ----------

  const NAMES: seq<string> := [ENCRYPTION_KEY, AUTH_SECRET]

  lemma NamesAreKeys()
    ensures KeyName(ENCRYPTION_KEY) && KeyName(AUTH_SECRET) && ENCRYPTION_KEY != AUTH_SECRET
  {
    assert ENCRYPTION_KEY[0] != AUTH_SECRET[0];
  }

  /** The runtime value of a variable: trimmed, and absent when nothing is left. */
  function Runtime(env: map<string, string>, name: string): Option<string> {
    if name in env && Trim(env[name]) != "" then Some(Trim(env[name])) else None
  }

  /** The compose file may use the other name of the authentication secret. */
  function NormalizedEnv(env: map<string, string>): map<string, string> {
    var first := if Runtime(env, AUTH_SECRET).None? && Runtime(env, NEXTAUTH_SECRET).Some?
                 then env[AUTH_SECRET := Runtime(env, NEXTAUTH_SECRET).value] else env;
    if Runtime(first, NEXTAUTH_SECRET).None? && Runtime(first, AUTH_SECRET).Some?
    then first[NEXTAUTH_SECRET := first[AUTH_SECRET]] else first
  }

  /** The value a secret must end with: runtime first, then the file, then a generated one. */
  function Target(env: map<string, string>, content: string, name: string, generated: string): (value: string)
    ensures Runtime(env, name).Some? ==> Some(value) == Runtime(env, name)
    ensures Runtime(env, name).None? && Value(content, name).Some? ==> Some(value) == Value(content, name)
    ensures Runtime(env, name).None? && Value(content, name).None? ==> value == generated
  {
    if Runtime(env, name).Some? then Runtime(env, name).value
    else if Value(content, name).Some? then Value(content, name).value
    else generated
  }

  function Content(file: Option<string>): string {
    if file.Some? then file.value else ""
  }

  /** A runtime value, if set, is on one line. */
  predicate OneLine(env: map<string, string>, name: string) {
    Runtime(env, name).Some? ==> SingleLine(Runtime(env, name).value)
  }

  /** A runtime value that replaces an existing line holds no `$` pair. */
  predicate NotATemplate(env: map<string, string>, content: string, name: string) {
    Runtime(env, name).Some? && Runtime(env, name) != Value(content, name) && HasLine(content, name) ==>
      DollarSafe(Runtime(env, name).value)
  }

  /** A runtime value that replaces an existing line pastes no text from around it. */
  predicate NotAPaste(env: map<string, string>, content: string, name: string) {
    Runtime(env, name).Some? && Runtime(env, name) != Value(content, name) && HasLine(content, name) ==>
      !Pastes(Runtime(env, name).value)
  }

  /** A runtime value that must be written can be written to this file. */
  predicate Alignable(env: map<string, string>, content: string, name: string) {
    OneLine(env, name) && NotATemplate(env, content, name)
  }

  /** What `randomBytes(32).toString("hex")` gives. */
  predicate Hexadecimal(s: string) {
    |s| == 64 && forall i :: 0 <= i < |s| ==> '0' <= s[i] <= '9' || 'a' <= s[i] <= 'f'
  }

  lemma HexadecimalIsWritable(s: string)
    requires Hexadecimal(s)
    ensures Writable(s) && Trimmed(s) && Trim(s) == s && s != ""
  {
    forall i | 0 <= i < |s| - 1 ensures !DollarPair(s[i], s[i + 1]) { }
    TrimShape(s);
  }

  /** Runtime and file hold the same value for the secret. */
  predicate AlignedOn(env: map<string, string>, content: string, name: string) {
    Runtime(env, name).Some? && Value(content, name) == Runtime(env, name)
  }

  /** Runtime and file agree on both secrets. */
  predicate Aligned(env: map<string, string>, file: Option<string>) {
    && AlignedOn(env, Content(file), ENCRYPTION_KEY)
    && AlignedOn(env, Content(file), AUTH_SECRET)
  }

  lemma ReadIsTrimmed(content: string, key: string)
    ensures Read(content, key).Some? ==>
              Trimmed(Read(content, key).value) && Trim(Read(content, key).value) == Read(content, key).value
    decreases |content|
  {
    var n := LineLength(content);
    if Assigns(content[..n], key) && n > |key| + 1 {
      TrimShape(content[|key| + 1..n]);
      TrimShape(Trim(content[|key| + 1..n]));
    } else if n < |content| {
      ReadIsTrimmed(content[n + 1..], key);
    }
  }

  /** One turn of the loop: the new runtime value and the new text. */
  function Settle(env: map<string, string>, content: string, name: string, generated: string): (string, string) {
    var runtime, filed := Runtime(env, name), Value(content, name);
    if runtime.Some? then
      (env[name], if filed == runtime then content else Upsert(content, name, runtime.value))
    else if filed.Some? then (filed.value, content)
    else (generated, Upsert(content, name, generated))
  }

  /** A turn leaves the other secret alone. */
  lemma SettleKeepsOther(env: map<string, string>, content: string, name: string, generated: string, other: string)
    requires KeyName(name) && KeyName(other) && name != other && Hexadecimal(generated)
    requires OneLine(env, name) && NotAPaste(env, content, name)
    ensures var (v, text) := Settle(env, content, name, generated);
            && Runtime(env[name := v], other) == Runtime(env, other)
            && Value(text, other) == Value(content, other)
            && (HasLine(text, other) <==> HasLine(content, other))
  {
    hide Value, HasLine, Upsert, Trim, SingleLine, Pastes, KeyName;
    var runtime, filed := Runtime(env, name), Value(content, name);
    if runtime.Some? {
      if filed != runtime {
        UpsertKeepsOther(content, name, runtime.value, other);
      }
    } else if filed.None? {
      HexadecimalIsWritable(generated);
      SafeNeverPastes(generated);
      UpsertKeepsOther(content, name, generated, other);
    }
  }

  /** A turn aligns its own secret on the target. */
  lemma SettleOwn(env: map<string, string>, content: string, name: string, generated: string)
    requires KeyName(name) && Hexadecimal(generated) && Alignable(env, content, name)
    ensures var (v, text) := Settle(env, content, name, generated);
            && Runtime(env[name := v], name) == Some(Target(env, content, name, generated))
            && Value(text, name) == Some(Target(env, content, name, generated))
  {
    var runtime, filed := Runtime(env, name), Value(content, name);
    HexadecimalIsWritable(generated);
    ReadIsTrimmed(content, name);
    if runtime.Some? {
      TrimShape(env[name]);
      assert env[name := env[name]] == env;
      if filed != runtime {
        UpsertReads(content, name, runtime.value);
      }
    } else if filed.None? {
      UpsertReads(content, name, generated);
    }
  }

  lemma AlignableNeverPastes(env: map<string, string>, content: string, name: string)
    requires NotATemplate(env, content, name)
    ensures NotAPaste(env, content, name)
  {
    hide Value, HasLine, DollarSafe, Pastes, Trim;
    if Runtime(env, name).Some? && Runtime(env, name) != Value(content, name) && HasLine(content, name) {
      SafeNeverPastes(Runtime(env, name).value);
    }
  }

  /** A turn aligns its own secret on the target and leaves the other one alone. */
  lemma SettleAligns(env: map<string, string>, content: string, name: string, generated: string, other: string)
    requires KeyName(name) && KeyName(other) && name != other && Hexadecimal(generated)
    requires Alignable(env, content, name)
    ensures var (v, text) := Settle(env, content, name, generated);
            && Runtime(env[name := v], name) == Some(Target(env, content, name, generated))
            && Value(text, name) == Some(Target(env, content, name, generated))
            && Runtime(env[name := v], other) == Runtime(env, other)
            && Value(text, other) == Value(content, other)
            && (HasLine(text, other) <==> HasLine(content, other))
  {
    hide Settle, Runtime, Value, HasLine, KeyName, Hexadecimal, Target, NotAPaste, OneLine, NotATemplate;
    SettleOwn(env, content, name, generated);
    AlignableNeverPastes(env, content, name);
    SettleKeepsOther(env, content, name, generated, other);
  }

  /** A turn on a value with interpreted pairs that paste nothing leaves its own secret apart. */
  lemma SettleMisses(env: map<string, string>, content: string, name: string, generated: string)
    requires KeyName(name) && OneLine(env, name)
    requires NotAPaste(env, content, name) && !NotATemplate(env, content, name)
    ensures var (v, text) := Settle(env, content, name, generated);
            && Runtime(env[name := v], name) == Runtime(env, name)
            && Value(text, name) != Runtime(env, name)
  {
    hide Read, HasLine, Upsert, Trim, SingleLine, Pastes, DollarSafe, KeyName;
    var runtime := Runtime(env, name);
    assert env[name := env[name]] == env;
    TrimShape(env[name]);
    ReplacedReadsBackInFile(content, name, runtime.value);
  }

  /** The environment and the text of the file, as the loop changes them. */
  datatype Turned = Turned(env: map<string, string>, text: string)

  function Turn(t: Turned, name: string, generated: string): Turned {
    var (v, text) := Settle(t.env, t.text, name, generated);
    Turned(t.env[name := v], text)
  }

  function Turns(t: Turned, generated: seq<string>, n: nat): Turned
    requires n <= |NAMES| <= |generated|
  {
    if n == 0 then t else Turn(Turns(t, generated, n - 1), NAMES[n - 1], generated[n - 1])
  }

  /** The process environment and the secrets file. */
  class Host {
    var env: map<string, string>
    var file: Option<string>

    /** One turn of the loop: the file's new text, and whether it has to be written. */
    method SettleOne(name: string, generated: string, content: string) returns (text: string, changed: bool)
      modifies this`env
      ensures Turned(env, text) == Turn(Turned(old(env), content), name, generated)
      ensures !changed ==> text == content
      ensures Runtime(old(env), name).Some? ==> env == old(env)
      ensures Runtime(old(env), name).None? && Value(content, name).Some? ==>
                env == old(env)[name := Value(content, name).value] && text == content
      ensures Runtime(old(env), name).None? && Value(content, name).None? ==>
                env == old(env)[name := generated] && text == Upsert(content, name, generated)
      ensures AlignedOn(old(env), content, name) ==> !changed && env == old(env)
    {
      hide Upsert, Value;
      text, changed := content, false;
      var runtime := if name in env && Trim(env[name]) != "" then Some(Trim(env[name])) else None;
      var fileValue := Value(content, name);
      if runtime.Some? {
        assert env[name := env[name]] == env;
        if fileValue != runtime {
          text := Upsert(content, name, runtime.value);
          changed := true;
        }
      } else if fileValue.Some? {
        env := env[name := fileValue.value];
      } else {
        env := env[name := generated];
        text := Upsert(content, name, generated);
        changed := true;
      }
    }

    /** The loop over the two names. */
    method SettleBoth(generated: seq<string>, content: string) returns (text: string, dirty: bool)
      requires |generated| == 2
      modifies this`env
      ensures Turned(env, text) == Turns(Turned(old(env), content), generated, 2)
      ensures !dirty ==> text == content
      ensures AlignedOn(old(env), content, ENCRYPTION_KEY) && AlignedOn(old(env), content, AUTH_SECRET) ==> !dirty
    {
      hide Turn, AlignedOn;
      ghost var start := Turned(env, content);
      text, dirty := content, false;
      for i := 0 to |NAMES|
        invariant Turned(env, text) == Turns(start, generated, i)
        invariant AlignedOn(start.env, content, ENCRYPTION_KEY) && AlignedOn(start.env, content, AUTH_SECRET) ==>
                    !dirty && env == start.env
        invariant !dirty ==> text == content
      {
        var changed;
        text, changed := SettleOne(NAMES[i], generated[i], text);
        dirty := dirty || changed;
      }
    }

    /**
     * `ensureEnvSecrets`: after it, for both secrets, the value read from the file is the trimmed
     * runtime value; the runtime wins when set, the file when only it is set, a generated value
     * otherwise; on an aligned host nothing is written.
     */
    method EnsureSecrets(generated: seq<string>) returns (wrote: bool)
      requires |generated| == 2 && Hexadecimal(generated[0]) && Hexadecimal(generated[1])
      modifies this
      ensures !wrote ==> file == old(file)
      ensures wrote ==> file.Some? && !("\n" <= file.value)
      ensures var start, text := NormalizedEnv(old(env)), Content(old(file));
              OneLine(start, ENCRYPTION_KEY) && NotAPaste(start, text, ENCRYPTION_KEY)
              && OneLine(start, AUTH_SECRET) && NotAPaste(start, text, AUTH_SECRET) ==>
                forall other :: KeyName(other) && other !in NAMES ==> Value(Content(file), other) == Value(text, other)
      ensures Aligned(old(env), old(file)) ==> !wrote
      ensures var start, text := NormalizedEnv(old(env)), Content(old(file));
              Alignable(start, text, ENCRYPTION_KEY) && Alignable(start, text, AUTH_SECRET) ==>
                && Aligned(env, file)
                && Runtime(env, ENCRYPTION_KEY) == Some(Target(start, text, ENCRYPTION_KEY, generated[0]))
                && Runtime(env, AUTH_SECRET) == Some(Target(start, text, AUTH_SECRET, generated[1]))
      ensures var start, text := NormalizedEnv(old(env)), Content(old(file));
              NotAPaste(start, text, ENCRYPTION_KEY) && NotAPaste(start, text, AUTH_SECRET) ==>
                (Aligned(env, file) <==> Alignable(start, text, ENCRYPTION_KEY) && Alignable(start, text, AUTH_SECRET))
      ensures forall name :: name in NAMES && Runtime(NormalizedEnv(old(env)), name).Some? ==>
                name in NormalizedEnv(old(env)) && name in env && env[name] == NormalizedEnv(old(env))[name]
    {
      hide *;
      ghost var envBefore, fileBefore := env, file;
      NormalizeAliases();
      var dirty;
      var content := if file.Some? then file.value else "";
      ContentIs(file);
      content, dirty := SettleBoth(generated, content);
      if dirty {
        file := Some(StripNewlines(content));
      }
      wrote := dirty;
      AlignedMeans(NormalizedEnv(envBefore), fileBefore);
      Closes(envBefore, fileBefore, generated, Turned(env, content), dirty, file);
      ClosesIff(envBefore, fileBefore, generated, Turned(env, content), dirty, file);
      ClosesOthers(envBefore, fileBefore, generated, Turned(env, content), dirty, file);
    }

    method NormalizeAliases()
      modifies this`env
      ensures env == NormalizedEnv(old(env))
    {
      if Runtime(env, AUTH_SECRET).None? {
        var next := Runtime(env, NEXTAUTH_SECRET);
        if next.Some? {
          env := env[AUTH_SECRET := next.value];
        }
      }
      if Runtime(env, NEXTAUTH_SECRET).None? && Runtime(env, AUTH_SECRET).Some? {
        env := env[NEXTAUTH_SECRET := env[AUTH_SECRET]];
      }
    }
  }

  /** After the aliases each name has a runtime value exactly when one of them had; set ones stay. */
  lemma AliasesFill(env: map<string, string>)
    ensures var after := NormalizedEnv(env);
            var some := Runtime(env, AUTH_SECRET).Some? || Runtime(env, NEXTAUTH_SECRET).Some?;
            && (Runtime(after, AUTH_SECRET).Some? <==> some) && (Runtime(after, NEXTAUTH_SECRET).Some? <==> some)
            && (Runtime(env, AUTH_SECRET).Some? ==> Runtime(after, AUTH_SECRET) == Runtime(env, AUTH_SECRET))
            && (Runtime(env, NEXTAUTH_SECRET).Some? ==>
                  Runtime(after, NEXTAUTH_SECRET) == Runtime(env, NEXTAUTH_SECRET))
    ensures NormalizedEnv(NormalizedEnv(env)) == NormalizedEnv(env)
  {
    assert NEXTAUTH_SECRET[0] != AUTH_SECRET[0];
    if NEXTAUTH_SECRET in env {
      TrimShape(env[NEXTAUTH_SECRET]);
      TrimShape(Trim(env[NEXTAUTH_SECRET]));
    }
  }

  lemma AlignedStaysAligned(env: map<string, string>, file: Option<string>)
    ensures Aligned(env, file) ==> Aligned(NormalizedEnv(env), file)
  {
    assert NEXTAUTH_SECRET[0] != AUTH_SECRET[0] && NEXTAUTH_SECRET[0] != ENCRYPTION_KEY[0];
    NamesAreKeys();
  }

  lemma ContentIs(file: Option<string>)
    ensures Content(file) == if file.Some? then file.value else ""
  {
  }

  lemma AlignedMeans(env: map<string, string>, file: Option<string>)
    ensures Aligned(env, file) ==>
              AlignedOn(env, Content(file), ENCRYPTION_KEY) && AlignedOn(env, Content(file), AUTH_SECRET)
  {
    hide AlignedOn;
  }

  /** The end of `ensureEnvSecrets`: what holds of the environment and of the file it leaves. */
  lemma Closes(env: map<string, string>, file: Option<string>, generated: seq<string>, last: Turned, dirty: bool,
               written: Option<string>)
    requires |generated| == 2 && Hexadecimal(generated[0]) && Hexadecimal(generated[1])
    requires last == Turns(Turned(NormalizedEnv(env), Content(file)), generated, 2)
    requires written == (if dirty then Some(StripNewlines(last.text)) else file)
    requires !dirty ==> last.text == Content(file)
    requires Aligned(NormalizedEnv(env), file) ==> !dirty
    ensures Aligned(env, file) ==> !dirty
    ensures var start, text := NormalizedEnv(env), Content(file);
            Alignable(start, text, ENCRYPTION_KEY) && Alignable(start, text, AUTH_SECRET) ==>
              && Aligned(last.env, written)
              && Runtime(last.env, ENCRYPTION_KEY) == Some(Target(start, text, ENCRYPTION_KEY, generated[0]))
              && Runtime(last.env, AUTH_SECRET) == Some(Target(start, text, AUTH_SECRET, generated[1]))
    ensures forall name :: name in NAMES && Runtime(NormalizedEnv(env), name).Some? ==>
              name in NormalizedEnv(env) && name in last.env && last.env[name] == NormalizedEnv(env)[name]
  {
    hide Turns, AlignedOn, Target, Runtime, Hexadecimal, NormalizedEnv, StripNewlines, Read, OneLine, NotATemplate,
         NotAPaste;
    AlignedStaysAligned(env, file);
    LoopAligns(Turned(NormalizedEnv(env), Content(file)), generated);
    StripKeepsReading(last.text, ENCRYPTION_KEY);
    StripKeepsReading(last.text, AUTH_SECRET);
    AlignedReadsSame(last.env, last.text, written, ENCRYPTION_KEY);
    AlignedReadsSame(last.env, last.text, written, AUTH_SECRET);
  }

  /** And when file and environment agree at that end. */
  lemma ClosesIff(env: map<string, string>, file: Option<string>, generated: seq<string>, last: Turned, dirty: bool,
                  written: Option<string>)
    requires |generated| == 2 && Hexadecimal(generated[0]) && Hexadecimal(generated[1])
    requires last == Turns(Turned(NormalizedEnv(env), Content(file)), generated, 2)
    requires written == (if dirty then Some(StripNewlines(last.text)) else file)
    requires !dirty ==> last.text == Content(file)
    ensures var start, text := NormalizedEnv(env), Content(file);
            NotAPaste(start, text, ENCRYPTION_KEY) && NotAPaste(start, text, AUTH_SECRET) ==>
              (Aligned(last.env, written) <==>
                 Alignable(start, text, ENCRYPTION_KEY) && Alignable(start, text, AUTH_SECRET))
  {
    hide Turns, AlignedOn, Hexadecimal, NormalizedEnv, StripNewlines, Read, Alignable, NotAPaste;
    StripKeepsReading(last.text, ENCRYPTION_KEY);
    StripKeepsReading(last.text, AUTH_SECRET);
    AlignedReadsSame(last.env, last.text, written, ENCRYPTION_KEY);
    AlignedReadsSame(last.env, last.text, written, AUTH_SECRET);
    LoopAlignsIff(Turned(NormalizedEnv(env), Content(file)), generated);
  }

  /** And what it leaves of everything else in the file. */
  lemma ClosesOthers(env: map<string, string>, file: Option<string>, generated: seq<string>, last: Turned, dirty: bool,
                     written: Option<string>)
    requires |generated| == 2 && Hexadecimal(generated[0]) && Hexadecimal(generated[1])
    requires last == Turns(Turned(NormalizedEnv(env), Content(file)), generated, 2)
    requires written == (if dirty then Some(StripNewlines(last.text)) else file)
    requires !dirty ==> last.text == Content(file)
    ensures dirty ==> written.Some? && !("\n" <= written.value)
    ensures var start, text := NormalizedEnv(env), Content(file);
            OneLine(start, ENCRYPTION_KEY) && NotAPaste(start, text, ENCRYPTION_KEY)
            && OneLine(start, AUTH_SECRET) && NotAPaste(start, text, AUTH_SECRET) ==>
              forall other :: KeyName(other) && other !in NAMES ==> Value(Content(written), other) == Value(text, other)
  {
    hide Turns, Hexadecimal, NormalizedEnv, StripNewlines, Read, OneLine, NotAPaste, KeyName;
    var t := Turned(NormalizedEnv(env), Content(file));
    NoNewlineAhead(last.text);
    if OneLine(t.env, ENCRYPTION_KEY) && NotAPaste(t.env, t.text, ENCRYPTION_KEY)
       && OneLine(t.env, AUTH_SECRET) && NotAPaste(t.env, t.text, AUTH_SECRET) {
      forall other | KeyName(other) && other !in NAMES
        ensures Value(Content(written), other) == Value(t.text, other)
      {
        LoopKeepsOther(t, generated, other);
        StripKeepsReading(last.text, other);
      }
    }
  }

  lemma {:induction false} NoNewlineAhead(s: string)
    ensures !("\n" <= StripNewlines(s))
  {
    if s != "" && s[0] == '\n' {
      NoNewlineAhead(s[1..]);
    }
  }

  /** Both turns leave every other variable of the file as it was. */
  lemma LoopKeepsOther(t: Turned, generated: seq<string>, other: string)
    requires |generated| == 2 && Hexadecimal(generated[0]) && Hexadecimal(generated[1])
    requires KeyName(other) && other !in NAMES
    requires OneLine(t.env, ENCRYPTION_KEY) && NotAPaste(t.env, t.text, ENCRYPTION_KEY)
    requires OneLine(t.env, AUTH_SECRET) && NotAPaste(t.env, t.text, AUTH_SECRET)
    ensures Value(Turns(t, generated, 2).text, other) == Value(t.text, other)
  {
    hide Turn, Value, Runtime, Hexadecimal, KeyName, HasLine, OneLine, NotAPaste, NotATemplate, AlignedOn;
    NamesAreKeys();
    var once := Turn(t, ENCRYPTION_KEY, generated[0]);
    assert Turns(t, generated, 1) == once;
    TurnKeepsOther(t, ENCRYPTION_KEY, generated[0], AUTH_SECRET);
    TurnKeepsOther(t, ENCRYPTION_KEY, generated[0], other);
    SameChances(t, once, AUTH_SECRET);
    TurnKeepsOther(once, AUTH_SECRET, generated[1], other);
  }

  /** Only a value on one line is ever aligned: what is read from a file is. */
  lemma AlignedIsOneLine(before: map<string, string>, env: map<string, string>, content: string, name: string)
    requires Runtime(before, name).Some? ==> name in before && name in env && env[name] == before[name]
    ensures AlignedOn(env, content, name) ==> OneLine(before, name)
  {
    ReadIsSingleLine(content, name);
  }

  /** Two texts that read the same are equally aligned. */
  lemma AlignedReadsSame(env: map<string, string>, content: string, file: Option<string>, name: string)
    requires Read(Content(file), name) == Read(content, name)
    ensures AlignedOn(env, Content(file), name) <==> AlignedOn(env, content, name)
  {
  }

  /** A turn keeps a runtime value that is set, and the other variable. */
  lemma TurnKeepsRuntime(t: Turned, name: string, generated: string, other: string)
    requires name != other
    ensures Runtime(t.env, name).Some? ==> name in t.env && Turn(t, name, generated).env == t.env
    ensures var env := Turn(t, name, generated).env; other in t.env ==> other in env && env[other] == t.env[other]
    ensures Runtime(Turn(t, name, generated).env, other) == Runtime(t.env, other)
    ensures Runtime(t.env, other).Some? ==> other in t.env
  {
    hide Value, Upsert;
    if Runtime(t.env, name).Some? {
      assert t.env[name := t.env[name]] == t.env;
    }
  }

  /** Both turns keep the runtime values that are set. */
  lemma LoopKeepsRuntime(t: Turned, generated: seq<string>, name: string)
    requires |generated| == 2 && name in NAMES && Runtime(t.env, name).Some?
    ensures var last := Turns(t, generated, 2).env; name in t.env && name in last && last[name] == t.env[name]
  {
    hide Turn, Runtime;
    NamesAreKeys();
    var once := Turn(t, ENCRYPTION_KEY, generated[0]);
    assert Turns(t, generated, 1) == once;
    TurnKeepsRuntime(t, ENCRYPTION_KEY, generated[0], AUTH_SECRET);
    TurnKeepsRuntime(once, AUTH_SECRET, generated[1], ENCRYPTION_KEY);
  }

  /** A turn aligns its own secret on the target and leaves the other one alone. */
  lemma TurnAligns(t: Turned, name: string, generated: string, other: string)
    requires KeyName(name) && KeyName(other) && name != other && Hexadecimal(generated)
    requires Alignable(t.env, t.text, name)
    ensures var next := Turn(t, name, generated);
            && Runtime(next.env, name) == Some(Target(t.env, t.text, name, generated))
            && Value(next.text, name) == Some(Target(t.env, t.text, name, generated))
            && Runtime(next.env, other) == Runtime(t.env, other)
            && Value(next.text, other) == Value(t.text, other)
            && (HasLine(next.text, other) <==> HasLine(t.text, other))
  {
    hide Settle, Runtime, Value, HasLine, KeyName, Hexadecimal, Alignable, Target;
    SettleAligns(t.env, t.text, name, generated, other);
  }

  /** The two turns of the loop, composed. */
  lemma LoopAligns(t: Turned, generated: seq<string>)
    requires |generated| == 2 && Hexadecimal(generated[0]) && Hexadecimal(generated[1])
    ensures var last := Turns(t, generated, 2);
            Alignable(t.env, t.text, ENCRYPTION_KEY) && Alignable(t.env, t.text, AUTH_SECRET) ==>
              && AlignedOn(last.env, last.text, ENCRYPTION_KEY) && AlignedOn(last.env, last.text, AUTH_SECRET)
              && Runtime(last.env, ENCRYPTION_KEY) == Some(Target(t.env, t.text, ENCRYPTION_KEY, generated[0]))
              && Runtime(last.env, AUTH_SECRET) == Some(Target(t.env, t.text, AUTH_SECRET, generated[1]))
    ensures forall name :: name in NAMES && Runtime(t.env, name).Some? ==>
              name in t.env && name in Turns(t, generated, 2).env && Turns(t, generated, 2).env[name] == t.env[name]
  {
    hide Turn, Value, Runtime, Hexadecimal, KeyName, HasLine, SingleLine, DollarSafe;
    NamesAreKeys();
    var once := Turn(t, ENCRYPTION_KEY, generated[0]);
    assert Turns(t, generated, 1) == once;
    if Alignable(t.env, t.text, ENCRYPTION_KEY) && Alignable(t.env, t.text, AUTH_SECRET) {
      TurnAligns(t, ENCRYPTION_KEY, generated[0], AUTH_SECRET);
      TurnAligns(once, AUTH_SECRET, generated[1], ENCRYPTION_KEY);
    }
    forall name | name in NAMES && Runtime(t.env, name).Some?
      ensures name in t.env && name in Turns(t, generated, 2).env && Turns(t, generated, 2).env[name] == t.env[name]
    {
      LoopKeepsRuntime(t, generated, name);
    }
  }

  /** What the second turn finds of its own secret, and keeps of the first. */
  lemma TurnKeepsOther(t: Turned, name: string, generated: string, other: string)
    requires KeyName(name) && KeyName(other) && name != other && Hexadecimal(generated)
    requires OneLine(t.env, name) && NotAPaste(t.env, t.text, name)
    ensures var next := Turn(t, name, generated);
            && Runtime(next.env, other) == Runtime(t.env, other) && Value(next.text, other) == Value(t.text, other)
            && (HasLine(next.text, other) <==> HasLine(t.text, other))
  {
    hide Settle, Runtime, Value, HasLine, KeyName, Hexadecimal, OneLine, NotAPaste;
    SettleKeepsOther(t.env, t.text, name, generated, other);
  }

  lemma TurnMisses(t: Turned, name: string, generated: string)
    requires KeyName(name) && OneLine(t.env, name) && NotAPaste(t.env, t.text, name)
    requires !NotATemplate(t.env, t.text, name)
    ensures !AlignedOn(Turn(t, name, generated).env, Turn(t, name, generated).text, name)
  {
    hide Settle, Runtime, Value, KeyName, OneLine, NotAPaste, NotATemplate;
    SettleMisses(t.env, t.text, name, generated);
  }

  /** Runtime, value and line of a secret decide what the loop can do with it. */
  lemma SameChances(a: Turned, b: Turned, name: string)
    requires Runtime(a.env, name) == Runtime(b.env, name) && Value(a.text, name) == Value(b.text, name)
    requires HasLine(a.text, name) <==> HasLine(b.text, name)
    ensures AlignedOn(a.env, a.text, name) <==> AlignedOn(b.env, b.text, name)
    ensures OneLine(a.env, name) <==> OneLine(b.env, name)
    ensures NotATemplate(a.env, a.text, name) <==> NotATemplate(b.env, b.text, name)
    ensures NotAPaste(a.env, a.text, name) <==> NotAPaste(b.env, b.text, name)
  {
    hide Runtime, Value, HasLine, DollarSafe, Pastes, SingleLine;
  }

  lemma LoopAlignsOnly(t: Turned, generated: seq<string>)
    requires |generated| == 2 && Hexadecimal(generated[0]) && Hexadecimal(generated[1])
    requires OneLine(t.env, ENCRYPTION_KEY) && OneLine(t.env, AUTH_SECRET)
    requires NotAPaste(t.env, t.text, ENCRYPTION_KEY) && NotAPaste(t.env, t.text, AUTH_SECRET)
    requires !NotATemplate(t.env, t.text, ENCRYPTION_KEY) || !NotATemplate(t.env, t.text, AUTH_SECRET)
    ensures var last := Turns(t, generated, 2);
            !(AlignedOn(last.env, last.text, ENCRYPTION_KEY) && AlignedOn(last.env, last.text, AUTH_SECRET))
  {
    hide Turn, Value, Runtime, Hexadecimal, KeyName, HasLine, OneLine, NotAPaste, NotATemplate, AlignedOn;
    NamesAreKeys();
    var once := Turn(t, ENCRYPTION_KEY, generated[0]);
    var last := Turn(once, AUTH_SECRET, generated[1]);
    assert Turns(t, generated, 1) == once;
    TurnKeepsOther(t, ENCRYPTION_KEY, generated[0], AUTH_SECRET);
    SameChances(t, once, AUTH_SECRET);
    if NotATemplate(t.env, t.text, AUTH_SECRET) {
      TurnMisses(t, ENCRYPTION_KEY, generated[0]);
      TurnKeepsOther(once, AUTH_SECRET, generated[1], ENCRYPTION_KEY);
      SameChances(once, last, ENCRYPTION_KEY);
    } else {
      TurnMisses(once, AUTH_SECRET, generated[1]);
    }
  }

  /**
   * When no runtime value pastes the text around the line it replaces, both turns align both secrets
   * exactly when both runtime values are single-line and those that replace a line free of `$` pairs.
   */
  lemma LoopAlignsIff(t: Turned, generated: seq<string>)
    requires |generated| == 2 && Hexadecimal(generated[0]) && Hexadecimal(generated[1])
    ensures var last := Turns(t, generated, 2);
            NotAPaste(t.env, t.text, ENCRYPTION_KEY) && NotAPaste(t.env, t.text, AUTH_SECRET) ==>
              (AlignedOn(last.env, last.text, ENCRYPTION_KEY) && AlignedOn(last.env, last.text, AUTH_SECRET)
               <==> Alignable(t.env, t.text, ENCRYPTION_KEY) && Alignable(t.env, t.text, AUTH_SECRET))
  {
    hide Turns, Runtime, Hexadecimal, OneLine, NotAPaste, NotATemplate, AlignedOn;
    var last := Turns(t, generated, 2);
    LoopAligns(t, generated);
    AlignedIsOneLine(t.env, last.env, last.text, ENCRYPTION_KEY);
    AlignedIsOneLine(t.env, last.env, last.text, AUTH_SECRET);
    if NotAPaste(t.env, t.text, ENCRYPTION_KEY) && NotAPaste(t.env, t.text, AUTH_SECRET)
       && OneLine(t.env, ENCRYPTION_KEY) && OneLine(t.env, AUTH_SECRET)
       && (!NotATemplate(t.env, t.text, ENCRYPTION_KEY) || !NotATemplate(t.env, t.text, AUTH_SECRET)) {
      LoopAlignsOnly(t, generated);
    }
  }
}
