/** LIKE patterns built from user text match that text literally. */
module Like {

  // ----- the code: three sequential replacements -----

  /** Replace every occurrence of one character by a string. */
  function Replace(s: string, c: char, to: string): string {
    if s == "" then "" else (if s[0] == c then to else [s[0]]) + Replace(s[1..], c, to)
  }

  function EscapeLike(s: string): string {
    Replace(Replace(Replace(s, '\\', "\\\\"), '%', "\\%"), '_', "\\_")
  }

  // ----- one replacement per character -----

  function EscapeChar(c: char): string {
    if c == '\\' || c == '%' || c == '_' then ['\\', c] else [c]
  }

  function EscapeEach(s: string): string {
    if s == "" then "" else EscapeChar(s[0]) + EscapeEach(s[1..])
  }

  lemma {:induction false} ReplaceConcat(a: string, b: string, c: char, to: string)
    ensures Replace(a + b, c, to) == Replace(a, c, to) + Replace(b, c, to)
  {
    if a == "" {
      assert a + b == b;
    } else {
      var ab, rest := a + b, a[1..];
      assert ab[0] == a[0] && ab[1..] == rest + b;
      ReplaceConcat(rest, b, c, to);
      var head := if a[0] == c then to else [a[0]];
      assert Replace(ab, c, to) == head + Replace(rest + b, c, to);
      assert head + (Replace(rest, c, to) + Replace(b, c, to)) == head + Replace(rest, c, to) + Replace(b, c, to);
    }
  }

  lemma ReplaceOne(x: char, c: char, to: string)
    ensures Replace([x], c, to) == if x == c then to else [x]
  {
    assert [x][1..] == "";
  }

  /** No later replacement touches what an earlier one inserted. */
  lemma EscapeOne(x: char)
    ensures EscapeLike([x]) == EscapeChar(x)
  {
    ReplaceOne(x, '\\', "\\\\");
    ReplaceOne(x, '%', "\\%");
    ReplaceOne(x, '_', "\\_");
    ReplacePair('\\', '\\', '%', "\\%");
    ReplacePair('\\', '\\', '_', "\\_");
    ReplacePair('\\', '%', '_', "\\_");
  }

  lemma ReplacePair(x: char, y: char, c: char, to: string)
    requires x != c && y != c
    ensures Replace([x, y], c, to) == [x, y]
  {
    assert [x, y] == [x] + [y];
    ReplaceConcat([x], [y], c, to);
    ReplaceOne(x, c, to);
    ReplaceOne(y, c, to);
  }

  /** The sequential replacements equal one simultaneous per-character map. */
  lemma {:induction false} EscapeIsCharwise(s: string)
    ensures EscapeLike(s) == EscapeEach(s)
  {
    if s != "" {
      assert s == [s[0]] + s[1..];
      var a, b := [s[0]], s[1..];
      ReplaceConcat(a, b, '\\', "\\\\");
      var a1, b1 := Replace(a, '\\', "\\\\"), Replace(b, '\\', "\\\\");
      ReplaceConcat(a1, b1, '%', "\\%");
      ReplaceConcat(Replace(a1, '%', "\\%"), Replace(b1, '%', "\\%"), '_', "\\_");
      EscapeOne(s[0]);
      EscapeIsCharwise(b);
    }
  }

  // ----- reference semantics of LIKE ... ESCAPE '\' -----

  /** LIKE ignores the case of ASCII letters. */
  function Fold(c: char): char {
    if 'A' <= c <= 'Z' then ((c as int) + 32) as char else c
  }

  predicate SameText(a: string, b: string) {
    |a| == |b| && forall i :: 0 <= i < |a| ==> Fold(a[i]) == Fold(b[i])
  }

  ghost predicate Matches(pattern: string, text: string)
    decreases |pattern|
  {
    if pattern == "" then text == ""
    else if pattern[0] == '%' then exists k :: 0 <= k <= |text| && Matches(pattern[1..], text[k..])
    else if pattern[0] == '_' then text != "" && Matches(pattern[1..], text[1..])
    else if pattern[0] == '\\' then
      |pattern| > 1 && text != "" && Fold(text[0]) == Fold(pattern[1]) && Matches(pattern[2..], text[1..])
    else text != "" && Fold(text[0]) == Fold(pattern[0]) && Matches(pattern[1..], text[1..])
  }

  /** An escaped character matches exactly that character. */
  lemma CharMatches(c: char, rest: string, text: string)
    ensures Matches(EscapeChar(c) + rest, text) <==> text != "" && Fold(text[0]) == Fold(c) && Matches(rest, text[1..])
  {
    var pattern := EscapeChar(c) + rest;
    if |EscapeChar(c)| == 2 {
      assert pattern[2..] == rest;
    } else {
      assert pattern[1..] == rest;
    }
  }

  /** Escaped text matches itself and hands the remainder on. */
  lemma {:induction false} TextMatches(s: string, rest: string, text: string)
    ensures Matches(EscapeEach(s) + rest, text) <==>
              |s| <= |text| && SameText(s, text[..|s|]) && Matches(rest, text[|s|..])
  {
    if s == "" {
      assert EscapeEach(s) + rest == rest && text[0..] == text;
    } else {
      var tail := EscapeEach(s[1..]) + rest;
      assert EscapeEach(s) + rest == EscapeChar(s[0]) + tail;
      CharMatches(s[0], tail, text);
      if text != "" {
        TextMatches(s[1..], rest, text[1..]);
        if |s| <= |text| {
          assert text[1..][|s| - 1..] == text[|s|..];
          assert text[1..][..|s| - 1] == text[..|s|][1..];
          SameCons(s, text[..|s|]);
        }
      }
    }
  }

  lemma SameCons(a: string, b: string)
    requires a != "" && b != ""
    ensures SameText(a, b) <==> Fold(a[0]) == Fold(b[0]) && SameText(a[1..], b[1..])
  {
    if Fold(a[0]) == Fold(b[0]) && SameText(a[1..], b[1..]) {
      forall i | 0 <= i < |a| ensures Fold(a[i]) == Fold(b[i]) {
        if i > 0 { assert a[1..][i - 1] == a[i] && b[1..][i - 1] == b[i]; }
      }
    }
    if SameText(a, b) {
      forall i | 0 <= i < |a[1..]| ensures Fold(a[1..][i]) == Fold(b[1..][i]) {
        assert Fold(a[i + 1]) == Fold(b[i + 1]);
      }
    }
  }

  lemma AnythingMatches(text: string)
    ensures Matches("%", text)
  {
    assert "%"[1..] == "" && text[|text|..] == "";
    assert Matches("", text[|text|..]);
  }

  /** The prefix pattern matches exactly the texts that start with the query. */
  lemma PrefixPattern(s: string, text: string)
    ensures Matches(EscapeLike(s) + "%", text) <==> |s| <= |text| && SameText(s, text[..|s|])
  {
    EscapeIsCharwise(s);
    TextMatches(s, "%", text);
    if |s| <= |text| { AnythingMatches(text[|s|..]); }
  }

  ghost predicate OccursAt(s: string, text: string, k: int) {
    0 <= k && k + |s| <= |text| && SameText(s, text[k..][..|s|])
  }

  /** The substring pattern matches exactly the texts in which the query occurs. */
  lemma SubstringPattern(s: string, text: string)
    ensures Matches("%" + EscapeLike(s) + "%", text) <==> exists k :: OccursAt(s, text, k)
  {
    var pattern := "%" + EscapeLike(s) + "%";
    assert pattern[1..] == EscapeLike(s) + "%";
    forall k | 0 <= k <= |text| ensures Matches(pattern[1..], text[k..]) <==> OccursAt(s, text, k) {
      PrefixPattern(s, text[k..]);
    }
    if k :| OccursAt(s, text, k) {
      assert Matches(pattern[1..], text[k..]);
    }
  }
}
