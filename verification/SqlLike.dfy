/**
 * The "contains" search (src/lib/sql-like.ts): the pattern it prints, read back by
 * SQLite's LIKE operator with a backslash as the ESCAPE character.
 */
module SqlLike {

  const ESCAPE: char := '\\'

  predicate IsWild(c: char) {
    c == ESCAPE || c == '%' || c == '_'
  }

  /** The character replacement of `likeContains`. */
  function Escaped(text: string): string {
    if text == "" then ""
    else (if IsWild(text[0]) then [ESCAPE, text[0]] else [text[0]]) + Escaped(text[1..])
  }

  function LikeContains(text: string): string {
    "%" + Escaped(text) + "%"
  }

  // ---------- the reader: SQLite's LIKE ----------

  function Fold(c: char): char {
    if 'A' <= c <= 'Z' then c - 'A' + 'a' else c
  }

  /**
   * Does the pattern match the whole value? The escape character takes the next pattern
   * character literally; a pattern that ends in a bare escape matches nothing.
   */
  predicate Like(pattern: string, value: string)
    decreases |pattern|, |value|
  {
    if pattern == "" then value == ""
    else if pattern[0] == '%' then
      Like(pattern[1..], value) || (value != "" && Like(pattern, value[1..]))
    else if pattern[0] == '_' then
      value != "" && Like(pattern[1..], value[1..])
    else if pattern[0] == ESCAPE then
      |pattern| >= 2 && value != "" && Fold(pattern[1]) == Fold(value[0]) && Like(pattern[2..], value[1..])
    else
      value != "" && Fold(pattern[0]) == Fold(value[0]) && Like(pattern[1..], value[1..])
  }

  /** Every escape character is followed by the character it escapes. */
  predicate NoDanglingEscape(pattern: string) {
    pattern == "" ||
    (if pattern[0] == ESCAPE then |pattern| >= 2 && NoDanglingEscape(pattern[2..]) else NoDanglingEscape(pattern[1..]))
  }

  // ---------- the meaning: substring up to ASCII case ----------

  predicate SameFolded(a: string, b: string) {
    |a| == |b| && forall i :: 0 <= i < |a| ==> Fold(a[i]) == Fold(b[i])
  }

  ghost predicate OccursIn(text: string, value: string) {
    exists i {:trigger value[i..]} :: 0 <= i <= |value| - |text| && SameFolded(value[i..][..|text|], text)
  }

  /** `%` matches any stretch of the value. */
  lemma {:induction false} PercentSkips(pattern: string, value: string)
    requires pattern != "" && pattern[0] == '%'
    ensures Like(pattern, value) <==>
              exists i {:trigger value[i..]} :: 0 <= i <= |value| && Like(pattern[1..], value[i..])
    decreases |value|
  {
    assert value[0..] == value;
    if value != "" {
      PercentSkips(pattern, value[1..]);
      forall i | 0 <= i <= |value| - 1 ensures value[1..][i..] == value[i + 1..] { }
      forall i | 1 <= i <= |value| ensures value[i..] == value[1..][i - 1..] { }
    }
  }

  /** An escaped text followed by `%` matches exactly the values that begin with the text. */
  lemma {:induction false} EscapedMatchesPrefix(text: string, value: string)
    ensures Like(Escaped(text) + "%", value) <==>
              |text| <= |value| && SameFolded(value[..|text|], text)
  {
    if text == "" {
      assert Escaped(text) + "%" == "%";
      AnyMatches(value);
    } else {
      var head := if IsWild(text[0]) then [ESCAPE, text[0]] else [text[0]];
      var tail := Escaped(text[1..]) + "%";
      assert Escaped(text) + "%" == head + tail;
      assert (head + tail)[|head|..] == tail;
      if value != "" {
        EscapedMatchesPrefix(text[1..], value[1..]);
        if |text| <= |value| {
          assert value[..|text|] == [value[0]] + value[1..][..|text| - 1];
        }
      }
    }
  }

  lemma {:induction false} AnyMatches(value: string)
    ensures Like("%", value)
  {
    if value != "" {
      AnyMatches(value[1..]);
    } else {
      assert "%"[1..] == "";
    }
  }

  /**
   * For every text and column value, the pattern matches exactly when the text occurs in the
   * value as a contiguous substring, up to ASCII case.
   */
  lemma LikeContainsIsSubstring(text: string, value: string)
    ensures Like(LikeContains(text), value) <==> OccursIn(text, value)
  {
    var pattern := LikeContains(text);
    assert pattern[1..] == Escaped(text) + "%";
    PercentSkips(pattern, value);
    forall i | 0 <= i <= |value|
      ensures Like(pattern[1..], value[i..]) <==> |text| <= |value| - i && SameFolded(value[i..][..|text|], text)
    {
      EscapedMatchesPrefix(text, value[i..]);
    }
  }

  lemma {:induction false} EscapedThenPercentClosed(text: string)
    ensures NoDanglingEscape(Escaped(text) + "%")
  {
    if text == "" {
      assert Escaped(text) + "%" == "%";
      assert "%"[1..] == "";
    } else {
      EscapedThenPercentClosed(text[1..]);
      var head := if IsWild(text[0]) then [ESCAPE, text[0]] else [text[0]];
      var tail := Escaped(text[1..]) + "%";
      assert Escaped(text) + "%" == head + tail;
      assert (head + tail)[|head|..] == tail;
    }
  }

  /** The printed pattern never ends inside an escape. */
  lemma PatternWellFormed(text: string)
    ensures NoDanglingEscape(LikeContains(text))
  {
    EscapedThenPercentClosed(text);
    assert LikeContains(text)[1..] == Escaped(text) + "%";
  }

  /** Without the escaping the wildcards of the text would match other values. */
  lemma EscapingIsNeeded()
    ensures Like("%" + "_" + "%", "x") && !Like(LikeContains("_"), "x")
  {
    LikeContainsIsSubstring("_", "x");
    AnyMatches("");
    var bare := "%" + "_" + "%";
    assert bare[1..][1..] == "%" && "x"[1..] == "";
    assert Like(bare[1..], "x");
    forall i | 0 <= i <= 0 ensures !SameFolded("x"[i..][..1], "_") {
      assert "x"[0..][..1][0] == 'x';
    }
  }
}
