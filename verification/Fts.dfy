/** Full-text search expressions built from raw user input, and a reader for them. */
module Fts {
  import opened Options
  import opened Strings

  /** Unicode character classes, supplied by the language's library. */
  datatype CharClasses = CharClasses(alnum: char -> bool, space: char -> bool)

  predicate AsciiAlnum(c: char) {
    'a' <= c <= 'z' || 'A' <= c <= 'Z' || '0' <= c <= '9'
  }

  predicate Wordy(cc: CharClasses, c: char) {
    cc.alnum(c) || c == '\'' || c == '-'
  }

  // ----- splitting -----

  /** Pieces of `s` between separator characters, empty ones included. */
  function Split(s: string, separates: char -> bool): (r: seq<string>)
    ensures r != []
  {
    if s == "" then [""]
    else
      var rest := Split(s[1..], separates);
      if separates(s[0]) then [""] + rest else [[s[0]] + rest[0]] + rest[1..]
  }

  function NonEmpty(pieces: seq<string>): seq<string> {
    if pieces == [] then []
    else
      var last := pieces[|pieces| - 1];
      NonEmpty(pieces[..|pieces| - 1]) + if last == "" then [] else [last]
  }

  function SplitWhitespace(cc: CharClasses, s: string): seq<string> {
    NonEmpty(Split(s, cc.space))
  }

  /** Anything that cannot be part of a word. */
  function Separator(cc: CharClasses): char -> bool {
    c => !Wordy(cc, c)
  }

  function SubSplit(cc: CharClasses, s: string): seq<string> {
    NonEmpty(Split(s, Separator(cc)))
  }

  ghost predicate Clean(piece: string, separates: char -> bool) {
    forall i :: 0 <= i < |piece| ==> !separates(piece[i])
  }

  /** A stretch of a string. */
  datatype Span = Span(from: nat, to: nat) {
    predicate In(s: string) {
      from <= to <= |s|
    }

    function Text(s: string): string
      requires In(s)
    {
      s[from..to]
    }
  }

  /** A maximal run of characters that are not separators. */
  ghost predicate MaximalRun(s: string, separates: char -> bool, span: Span) {
    && span.In(s) && span.from < span.to && Clean(span.Text(s), separates)
    && (span.from == 0 || separates(s[span.from - 1]))
    && (span.to == |s| || separates(s[span.to]))
  }

  /** The words are the maximal runs, all of them, from left to right. */
  ghost predicate AreRuns(s: string, separates: char -> bool, words: seq<string>, spans: seq<Span>) {
    && |spans| == |words|
    && (forall k :: 0 <= k < |spans| ==> MaximalRun(s, separates, spans[k]) && words[k] == spans[k].Text(s))
    && (forall k, m :: 0 <= k < m < |spans| ==> spans[k].to < spans[m].from)
    && (forall i :: 0 <= i < |s| && !separates(s[i]) ==> Covers(spans, i))
  }

  ghost predicate Covers(spans: seq<Span>, i: nat) {
    exists k :: 0 <= k < |spans| && spans[k].from <= i < spans[k].to
  }

  /** The pieces lie side by side with one separator between neighbours. */
  ghost predicate Tiles(s: string, separates: char -> bool, pieces: seq<string>, spans: seq<Span>) {
    && |spans| == |pieces| > 0 && spans[0].from == 0 && spans[|spans| - 1].to == |s|
    && (forall k :: 0 <= k < |spans| ==> PieceAt(s, separates, pieces[k], spans[k]))
    && (forall k, m :: 0 <= k && m == k + 1 < |spans| ==> Beside(s, separates, spans[k], spans[m]))
  }

  ghost predicate PieceAt(s: string, separates: char -> bool, piece: string, span: Span) {
    span.In(s) && piece == span.Text(s) && Clean(piece, separates)
  }

  ghost predicate Beside(s: string, separates: char -> bool, a: Span, b: Span) {
    a.to < |s| && separates(s[a.to]) && b.from == a.to + 1
  }

  function Shift(span: Span): Span {
    Span(span.from + 1, span.to + 1)
  }

  lemma ShiftPiece(s: string, separates: char -> bool, piece: string, span: Span)
    requires s != "" && PieceAt(s[1..], separates, piece, span)
    ensures PieceAt(s, separates, piece, Shift(span))
  {
    assert s[1..][span.from..span.to] == s[span.from + 1..span.to + 1];
  }

  lemma ShiftBeside(s: string, separates: char -> bool, a: Span, b: Span)
    requires s != "" && Beside(s[1..], separates, a, b)
    ensures Beside(s, separates, Shift(a), Shift(b))
  {}

  lemma ShiftTail(s: string, separates: char -> bool, pieces: seq<string>, tail: seq<Span>) returns (moved: seq<Span>)
    requires s != "" && Tiles(s[1..], separates, pieces, tail)
    ensures TilesTail(s, separates, pieces, moved)
  {
    moved := seq(|tail|, k requires 0 <= k < |tail| => Shift(tail[k]));
    hide PieceAt, Beside;
    forall k | 0 <= k < |tail| ensures PieceAt(s, separates, pieces[k], moved[k]) {
      ShiftPiece(s, separates, pieces[k], tail[k]);
    }
    forall k, m | 0 <= k && m == k + 1 < |tail| ensures Beside(s, separates, moved[k], moved[m]) {
      ShiftBeside(s, separates, tail[k], tail[m]);
    }
  }

  lemma {:induction false} SplitTiles(s: string, separates: char -> bool) returns (spans: seq<Span>)
    ensures Tiles(s, separates, Split(s, separates), spans)
  {
    if s == "" {
      spans := [Span(0, 0)];
    } else {
      var tail := SplitTiles(s[1..], separates);
      var rest := Split(s[1..], separates);
      assert Split(s, separates) == if separates(s[0]) then [""] + rest else [[s[0]] + rest[0]] + rest[1..];
      hide *;
      var moved := ShiftTail(s, separates, rest, tail);
      if separates(s[0]) {
        spans := NewPiece(s, separates, rest, moved);
      } else {
        spans := LongerPiece(s, separates, rest, moved);
      }
    }
  }

  /** Side by side from position 1 on. */
  ghost predicate TilesTail(s: string, separates: char -> bool, pieces: seq<string>, spans: seq<Span>) {
    && s != "" && |spans| == |pieces| > 0 && spans[0].from == 1 && spans[|spans| - 1].to == |s|
    && (forall k :: 0 <= k < |spans| ==> PieceAt(s, separates, pieces[k], spans[k]))
    && (forall k, m :: 0 <= k && m == k + 1 < |spans| ==> Beside(s, separates, spans[k], spans[m]))
  }

  lemma NewPiece(s: string, separates: char -> bool, rest: seq<string>, moved: seq<Span>) returns (spans: seq<Span>)
    requires TilesTail(s, separates, rest, moved) && separates(s[0])
    ensures Tiles(s, separates, [""] + rest, spans)
  {
    spans := [Span(0, 0)] + moved;
    assert PieceAt(s, separates, "", Span(0, 0)) && Beside(s, separates, Span(0, 0), moved[0]);
    hide PieceAt, Beside;
    forall k, m | 0 <= k && m == k + 1 < |spans| ensures Beside(s, separates, spans[k], spans[m]) {
      if k > 0 { assert spans[k] == moved[k - 1] && spans[m] == moved[k]; }
    }
  }

  lemma LongerPiece(s: string, separates: char -> bool, rest: seq<string>, moved: seq<Span>) returns (spans: seq<Span>)
    requires TilesTail(s, separates, rest, moved) && !separates(s[0])
    ensures Tiles(s, separates, [[s[0]] + rest[0]] + rest[1..], spans)
  {
    var first := Span(0, moved[0].to);
    spans := [first] + moved[1..];
    var pieces := [[s[0]] + rest[0]] + rest[1..];
    assert PieceAt(s, separates, pieces[0], first) by {
      assert PieceAt(s, separates, rest[0], moved[0]);
      assert s[0..moved[0].to] == [s[0]] + s[1..moved[0].to];
    }
    forall k | 0 <= k < |spans| ensures PieceAt(s, separates, pieces[k], spans[k]) {
      if k > 0 { assert spans[k] == moved[k] && pieces[k] == rest[k]; }
    }
    forall k, m | 0 <= k && m == k + 1 < |spans| ensures Beside(s, separates, spans[k], spans[m]) {
      assert Beside(s, separates, moved[k], moved[m]);
    }
  }

  /** Later pieces start further right. */
  lemma {:induction false} TilesOrdered(s: string, separates: char -> bool, pieces: seq<string>, spans: seq<Span>,
                                        k: nat,
                                        m: nat)
    requires Tiles(s, separates, pieces, spans) && k < m < |spans|
    ensures spans[k].to < spans[m].from
    decreases m
  {
    var l := m - 1;
    assert Beside(s, separates, spans[l], spans[m]) && PieceAt(s, separates, pieces[l], spans[l]);
    if k < l { TilesOrdered(s, separates, pieces, spans, k, l); }
  }

  /** Every position is inside a piece or is the separator after one. */
  lemma {:induction false} TilesCover(s: string, separates: char -> bool, pieces: seq<string>, spans: seq<Span>, i: nat,
                                      n: nat) returns (k: nat)
    requires Tiles(s, separates, pieces, spans) && n < |spans| && i < |s| && i <= spans[n].to
    ensures k <= n && spans[k].from <= i <= spans[k].to && (i == spans[k].to ==> separates(s[i]))
    decreases n
  {
    assert PieceAt(s, separates, pieces[n], spans[n]);
    var next := n + 1;
    if spans[n].from <= i {
      k := n;
      if i == spans[n].to { assert Beside(s, separates, spans[n], spans[next]); }
    } else {
      var l := n - 1;
      assert Beside(s, separates, spans[l], spans[n]);
      k := TilesCover(s, separates, pieces, spans, i, l);
    }
  }

  lemma PieceIsMaximal(s: string, separates: char -> bool, pieces: seq<string>, spans: seq<Span>, k: nat)
    requires Tiles(s, separates, pieces, spans) && k < |spans| && pieces[k] != ""
    ensures MaximalRun(s, separates, spans[k])
  {
    assert PieceAt(s, separates, pieces[k], spans[k]);
    var next := k + 1;
    if next < |spans| { assert Beside(s, separates, spans[k], spans[next]); }
    if k > 0 {
      var before := k - 1;
      assert Beside(s, separates, spans[before], spans[k]);
    }
  }

  /** The non-empty pieces by their places. */
  ghost predicate Picks(pieces: seq<string>, places: seq<nat>) {
    && |places| == |NonEmpty(pieces)|
    && (forall k :: 0 <= k < |places| ==>
          places[k] < |pieces| && NonEmpty(pieces)[k] == pieces[places[k]] && pieces[places[k]] != "")
    && (forall k, m :: 0 <= k < m < |places| ==> places[k] < places[m])
    && (forall p: nat :: p < |pieces| && pieces[p] != "" ==> p in places)
  }

  lemma {:induction false} NonEmptyPicks(pieces: seq<string>) returns (places: seq<nat>)
    ensures Picks(pieces, places)
  {
    if pieces == [] {
      places := [];
    } else {
      var n := |pieces| - 1;
      var init := NonEmptyPicks(pieces[..n]);
      places := init + if pieces[n] == "" then [] else [n];
      forall p: nat | p < |pieces| && pieces[p] != "" ensures p in places {
        if p < n { assert pieces[..n][p] == pieces[p]; }
      }
    }
  }

  /** Splitting and dropping the empty pieces gives exactly the maximal runs, in order. */
  lemma WordsAreRuns(s: string, separates: char -> bool) returns (spans: seq<Span>)
    ensures AreRuns(s, separates, NonEmpty(Split(s, separates)), spans)
  {
    var pieces := Split(s, separates);
    var tiles := SplitTiles(s, separates);
    var places := NonEmptyPicks(pieces);
    hide Split, NonEmpty;
    spans := seq(|places|, k requires 0 <= k < |places| => tiles[places[k]]);
    forall k | 0 <= k < |spans| ensures MaximalRun(s, separates, spans[k]) && pieces[places[k]] == spans[k].Text(s) {
      PieceIsMaximal(s, separates, pieces, tiles, places[k]);
      assert PieceAt(s, separates, pieces[places[k]], tiles[places[k]]);
    }
    forall k, m | 0 <= k < m < |spans| ensures spans[k].to < spans[m].from {
      TilesOrdered(s, separates, pieces, tiles, places[k], places[m]);
    }
    forall i | 0 <= i < |s| && !separates(s[i]) ensures Covers(spans, i) {
      var p := TilesCover(s, separates, pieces, tiles, i, |tiles| - 1);
      assert PieceAt(s, separates, pieces[p], tiles[p]);
      var k :| 0 <= k < |places| && places[k] == p;
      assert spans[k] == tiles[p];
    }
  }

  /** The terms of a chunk are exactly its maximal runs of word characters, in order. */
  lemma SubSplitMeaning(cc: CharClasses, s: string) returns (spans: seq<Span>)
    ensures AreRuns(s, Separator(cc), SubSplit(cc, s), spans)
    ensures forall k :: 0 <= k < |SubSplit(cc, s)| ==> SubSplit(cc, s)[k] != ""
  {
    spans := WordsAreRuns(s, Separator(cc));
  }

  /** The chunks of an input are exactly its maximal runs without whitespace, in order. */
  lemma ChunksMeaning(cc: CharClasses, s: string) returns (spans: seq<Span>)
    ensures AreRuns(s, cc.space, SplitWhitespace(cc, s), spans)
  {
    spans := WordsAreRuns(s, cc.space);
  }

  // ----- clauses -----

  datatype Clause = Clause(column: Option<string>, terms: seq<string>)

  type Fields = seq<(string, string)>

  function FindField(fields: Fields, name: string): Option<string> {
    if fields == [] then None
    else if fields[0].0 == name then Some(fields[0].1)
    else FindField(fields[1..], name)
  }

  /** The column and body of a chunk: `alias:rest` if the alias is allowed and neither side is empty, else all free
      text. */
  function Scope(chunk: string, fields: Fields): (Option<string>, string) {
    var i := FindChar(chunk, ':');
    if i == |chunk| || i == 0 || i == |chunk| - 1 then (None, chunk)
    else
      match FindField(fields, chunk[..i])
      case None => (None, chunk)
      case Some(col) => (Some(col), chunk[i + 1..])
  }

  /** The clauses of a list of chunks; a chunk without terms contributes none. */
  function Clauses(cc: CharClasses, fields: Fields, chunks: seq<string>): seq<Clause> {
    if chunks == [] then []
    else
      var (column, body) := Scope(chunks[|chunks| - 1], fields);
      var terms := SubSplit(cc, body);
      Clauses(cc, fields, chunks[..|chunks| - 1]) + if terms == [] then [] else [Clause(column, terms)]
  }

  ghost predicate FirstAt(fields: Fields, alias: string, column: string, i: nat) {
    i < |fields| && fields[i] == (alias, column) && forall j :: 0 <= j < i ==> fields[j].0 != alias
  }

  /** The alias is listed, and this is the first column listed under it. */
  ghost predicate Lists(fields: Fields, alias: string, column: string) {
    exists i: nat :: FirstAt(fields, alias, column, i)
  }

  lemma {:induction false} FindFieldMeaning(fields: Fields, alias: string, column: string)
    ensures FindField(fields, alias) == Some(column) <==> Lists(fields, alias, column)
  {
    if fields != [] {
      var rest := fields[1..];
      FindFieldMeaning(rest, alias, column);
      if fields[0].0 == alias {
        if fields[0].1 == column { assert FirstAt(fields, alias, column, 0); }
      } else {
        if i: nat :| FirstAt(rest, alias, column, i) {
          assert forall j :: 0 < j < |fields| ==> fields[j] == rest[j - 1];
          assert FirstAt(fields, alias, column, i + 1);
        }
        if i: nat :| FirstAt(fields, alias, column, i) {
          assert forall j :: 0 <= j < |rest| ==> rest[j] == fields[j + 1];
          assert FirstAt(rest, alias, column, i - 1);
        }
      }
    }
  }

  /** The chunk is a listed alias, its first colon, and a non-empty body. */
  ghost predicate Filters(chunk: string, fields: Fields, alias: string, column: string, body: string) {
    && alias != "" && body != "" && (forall i :: 0 <= i < |alias| ==> alias[i] != ':')
    && chunk == alias + ":" + body && Lists(fields, alias, column)
  }

  /** A chunk is scoped to a column exactly when it is a filter for it; every other chunk is free text as a whole. */
  lemma ScopeMeaning(chunk: string, fields: Fields, column: string, body: string)
    ensures Scope(chunk, fields) == (Some(column), body) <==>
              exists alias: string :: Filters(chunk, fields, alias, column, body)
    ensures Scope(chunk, fields).0.None? ==> Scope(chunk, fields).1 == chunk
  {
    hide FindChar, FindField, Lists;
    var i := FindChar(chunk, ':');
    if 0 < i < |chunk| {
      FindFieldMeaning(fields, chunk[..i], column);
      assert chunk == chunk[..i] + ":" + chunk[i + 1..];
      if Scope(chunk, fields) == (Some(column), body) { assert Filters(chunk, fields, chunk[..i], column, body); }
    }
    if alias: string :| Filters(chunk, fields, alias, column, body) {
      assert chunk[|alias|] == ':' && forall j :: 0 <= j < |alias| ==> chunk[j] == alias[j];
      assert i == |alias| && chunk[..i] == alias && chunk[i + 1..] == body;
    }
  }

  /** One clause per chunk that has a term, from left to right, with that chunk's column and terms. */
  ghost predicate ClausePicks(cc: CharClasses, fields: Fields, chunks: seq<string>, clauses: seq<Clause>,
                              places: seq<nat>) {
    && |places| == |clauses|
    && (forall k :: 0 <= k < |places| ==>
          && places[k] < |chunks|
          && clauses[k] == Clause(Scope(chunks[places[k]], fields).0, SubSplit(cc, Scope(chunks[places[k]], fields).1)))
    && (forall k, m :: 0 <= k < m < |places| ==> places[k] < places[m])
    && (forall p: nat :: p < |chunks| ==>
          (SubSplit(cc, Scope(chunks[p], fields).1) != [] <==> p in places))
  }

  lemma {:induction false} ClausesMeaning(cc: CharClasses, fields: Fields, chunks: seq<string>)
    returns (places: seq<nat>)
    ensures ClausePicks(cc, fields, chunks, Clauses(cc, fields, chunks), places)
  {
    hide Scope, SubSplit;
    if chunks == [] {
      places := [];
    } else {
      var n := |chunks| - 1;
      var init := ClausesMeaning(cc, fields, chunks[..n]);
      var terms := SubSplit(cc, Scope(chunks[n], fields).1);
      places := init + if terms == [] then [] else [n];
      forall p: nat | p < |chunks| ensures SubSplit(cc, Scope(chunks[p], fields).1) != [] <==> p in places {
        if p < n { assert chunks[..n][p] == chunks[p]; }
      }
    }
  }

  // ----- rendering -----

  function DoubleQuotes(s: string): string {
    if s == "" then "" else (if s[0] == '"' then "\"\"" else [s[0]]) + DoubleQuotes(s[1..])
  }

  predicate Bareword(term: string) {
    forall i :: 0 <= i < |term| ==> AsciiAlnum(term[i])
  }

  function RenderTerm(term: string, isQueryTail: bool): string {
    if isQueryTail && Bareword(term) then term + "*" else "\"" + DoubleQuotes(term) + "\""
  }

  function Join(parts: seq<string>): string {
    if parts == [] then ""
    else if |parts| == 1 then parts[0]
    else parts[0] + " " + Join(parts[1..])
  }

  /** The terms of one clause; only the last one may be the query's tail. */
  function RenderTerms(terms: seq<string>, tail: bool): seq<string> {
    seq(|terms|, i requires 0 <= i < |terms| => RenderTerm(terms[i], tail && i == |terms| - 1))
  }

  function RenderClause(c: Clause, tail: bool): string {
    var joined := Join(RenderTerms(c.terms, tail));
    if c.column.Some? then c.column.value + ":(" + joined + ")" else joined
  }

  function RenderParts(clauses: seq<Clause>): seq<string> {
    seq(|clauses|, i requires 0 <= i < |clauses| => RenderClause(clauses[i], i == |clauses| - 1))
  }

  /** The query expression, or nothing when no term survives. */
  method BuildFtsQuery(cc: CharClasses, input: string, fields: Fields) returns (r: Option<string>)
    ensures var clauses := Clauses(cc, fields, SplitWhitespace(cc, input));
            r == if clauses == [] then None else Some(Join(RenderParts(clauses)))
  {
    hide SplitWhitespace, SubSplit, Scope, Join, RenderParts;
    var chunks := SplitWhitespace(cc, input);
    var clauses: seq<Clause> := [];
    for k := 0 to |chunks|
      invariant clauses == Clauses(cc, fields, chunks[..k])
    {
      assert chunks[..k + 1][..k] == chunks[..k];
      var (column, body) := Scope(chunks[k], fields);
      var terms := SubSplit(cc, body);
      if terms == [] { continue; }
      clauses := clauses + [Clause(column, terms)];
    }
    assert chunks[..|chunks|] == chunks;
    if clauses == [] { return None; }
    var parts := RenderAll(clauses);
    r := Some(Join(parts));
  }

  /** The rendering loops. */
  method RenderAll(clauses: seq<Clause>) returns (parts: seq<string>)
    ensures parts == RenderParts(clauses)
  {
    hide RenderTerm, Join;
    parts := [];
    for ci := 0 to |clauses|
      invariant parts == RenderParts(clauses)[..ci]
    {
      var clause := clauses[ci];
      var termStrs: seq<string> := [];
      for ti := 0 to |clause.terms|
        invariant termStrs == RenderTerms(clause.terms, ci == |clauses| - 1)[..ti]
      {
        var isQueryTail := ci == |clauses| - 1 && ti == |clause.terms| - 1;
        termStrs := termStrs + [RenderTerm(clause.terms[ti], isQueryTail)];
      }
      assert termStrs == RenderTerms(clause.terms, ci == |clauses| - 1);
      var joined := Join(termStrs);
      if clause.column.Some? {
        parts := parts + [clause.column.value + ":(" + joined + ")"];
      } else {
        parts := parts + [joined];
      }
    }
  }

  // ----- reading an expression back -----

  // The reader follows the grammar of SQLite's FTS5 for the expressions that can be emitted here: a list of terms, or
  // one column filter around such a list. Two rules of that grammar decide what is refused: no AND is implied beside
  // a parenthesised expression, and the barewords AND, OR and NOT are operators, never terms. Explicit operators
  // between operands, NEAR groups, phrase sums and column sets are never emitted and are not read.

  /** A term as the search engine sees it: its column filter, its text, and whether it is a prefix. */
  datatype Reading = Reading(column: Option<string>, term: string, prefix: bool)

  /** The characters of an FTS5 bareword. */
  predicate IdentChar(c: char) {
    AsciiAlnum(c) || c == '_' || c as int == 26 || c as int >= 128
  }

  predicate Operator(word: string) {
    word == "AND" || word == "OR" || word == "NOT"
  }

  function IdentLength(s: string): (n: nat)
    ensures n <= |s|
  {
    if s == "" || !IdentChar(s[0]) then 0 else 1 + IdentLength(s[1..])
  }

  /** The text up to the closing quote, doubled quotes undone, and what follows. */
  function ReadQuoted(s: string): (r: Option<(string, string)>)
    ensures r.Some? ==> |r.value.1| < |s|
  {
    if s == "" then None
    else if s[0] == '"' then
      if |s| > 1 && s[1] == '"' then
        match ReadQuoted(s[2..])
        case None => None
        case Some((text, rest)) => Some((['"'] + text, rest))
      else Some(("", s[1..]))
    else
      match ReadQuoted(s[1..])
      case None => None
      case Some((text, rest)) => Some(([s[0]] + text, rest))
  }

  /** A quoted term or a starred bareword. */
  function ReadTerm(s: string): (r: Option<(string, bool, string)>)
    ensures r.Some? ==> |r.value.2| < |s|
  {
    if s != "" && s[0] == '"' then
      match ReadQuoted(s[1..])
      case None => None
      case Some((text, rest)) => Some((text, false, rest))
    else
      var n := IdentLength(s);
      if 0 < n < |s| && s[n] == '*' && !Operator(s[..n]) then Some((s[..n], true, s[n + 1..])) else None
  }

  /** Terms up to the closing parenthesis of a column filter. */
  function ReadGroup(column: string, s: string): (r: Option<(seq<Reading>, string)>)
    ensures r.Some? ==> |r.value.1| < |s|
    decreases |s|
  {
    match ReadTerm(s)
    case None => None
    case Some((term, prefix, rest)) =>
      var reading := Reading(Some(column), term, prefix);
      if rest == "" then None
      else if rest[0] == ')' then Some(([reading], rest[1..]))
      else if rest[0] == ' ' then
        match ReadGroup(column, rest[1..])
        case None => None
        case Some((more, rest')) => Some(([reading] + more, rest'))
      else None
  }

  /** Terms up to the end; a column filter cannot occur among them. */
  function ReadTerms(s: string): Option<seq<Reading>>
    decreases |s|
  {
    match ReadTerm(s)
    case None => None
    case Some((term, prefix, rest)) =>
      if rest == "" then Some([Reading(None, term, prefix)])
      else if rest[0] == ' ' then
        match ReadTerms(rest[1..])
        case None => None
        case Some(more) => Some([Reading(None, term, prefix)] + more)
      else None
  }

  /** A whole expression: one column filter and nothing beside it, or a list of terms. */
  function ReadQuery(s: string): Option<seq<Reading>> {
    var n := IdentLength(s);
    if 0 < n && n + 1 < |s| && s[n] == ':' && s[n + 1] == '(' then
      if Operator(s[..n]) then None
      else
        match ReadGroup(s[..n], s[n + 2..])
        case None => None
        case Some((readings, rest)) => if rest == "" then Some(readings) else None
    else ReadTerms(s)
  }

  // ----- what should be read -----

  function TermReadings(column: Option<string>, terms: seq<string>, tail: bool): seq<Reading> {
    seq(|terms|, i requires 0 <= i < |terms| =>
      Reading(column, terms[i], tail && i == |terms| - 1 && Bareword(terms[i])))
  }

  function ClauseReadings(clauses: seq<Clause>): seq<Reading> {
    if clauses == [] then []
    else TermReadings(clauses[0].column, clauses[0].terms, |clauses| == 1) + ClauseReadings(clauses[1..])
  }

  /** A term ends at the end of the expression, at a space or at a parenthesis. */
  predicate Ends(rest: string) {
    rest == "" || rest[0] == ' ' || rest[0] == ')'
  }

  lemma {:induction false} QuotedReads(term: string, rest: string)
    requires Ends(rest)
    ensures ReadQuoted(DoubleQuotes(term) + "\"" + rest) == Some((term, rest))
  {
    var s := DoubleQuotes(term) + "\"" + rest;
    if term == "" {
      assert s == "\"" + rest;
      assert s[1..] == rest;
    } else {
      QuotedReads(term[1..], rest);
      var tail := DoubleQuotes(term[1..]) + "\"" + rest;
      assert term == [term[0]] + term[1..];
      if term[0] == '"' {
        assert s == "\"\"" + tail;
        assert s[2..] == tail;
      } else {
        assert s == [term[0]] + tail;
        assert s[1..] == tail;
      }
    }
  }

  lemma {:induction false} IdentReads(word: string, rest: string)
    requires (forall i :: 0 <= i < |word| ==> IdentChar(word[i])) && rest != "" && !IdentChar(rest[0])
    ensures IdentLength(word + rest) == |word|
  {
    if word == "" {
      assert word + rest == rest;
    } else {
      IdentReads(word[1..], rest);
      assert (word + rest)[1..] == word[1..] + rest;
    }
  }

  /** A rendered term reads back as itself and cannot swallow what follows it, unless it is a starred operator. */
  lemma TermReads(term: string, tail: bool, rest: string)
    requires term != "" && Ends(rest)
    ensures ReadTerm(RenderTerm(term, tail) + rest)
              == if tail && Operator(term) then None else Some((term, tail && Bareword(term), rest))
  {
    if tail && Bareword(term) {
      StarredReads(term, rest);
    } else {
      var body := DoubleQuotes(term) + "\"" + rest;
      var s := RenderTerm(term, tail) + rest;
      QuotedReads(term, rest);
      hide ReadQuoted, DoubleQuotes, IdentLength;
      assert s == "\"" + body;
      assert s[1..] == body;
    }
  }

  lemma StarredReads(term: string, rest: string)
    requires term != "" && Bareword(term)
    ensures IdentLength(term + "*" + rest) == |term|
    ensures ReadTerm(term + "*" + rest) == if Operator(term) then None else Some((term, true, rest))
  {
    var s := term + "*" + rest;
    assert s == term + ("*" + rest);
    IdentReads(term, "*" + rest);
    hide ReadQuoted, IdentLength, Operator;
    assert s[0] == term[0] && AsciiAlnum(term[0]);
    assert s[|term|] == '*';
    assert s[..|term|] == term;
    assert s[|term| + 1..] == rest;
  }

  ghost predicate GoodTerms(terms: seq<string>) {
    terms != [] && forall i :: 0 <= i < |terms| ==> terms[i] != ""
  }

  /** Column names are plain identifiers. */
  ghost predicate GoodColumn(column: Option<string>) {
    column.Some? ==>
      && column.value != "" && !Operator(column.value)
      && forall i :: 0 <= i < |column.value| ==> IdentChar(column.value[i])
  }

  lemma TermsCons(terms: seq<string>, tail: bool)
    requires |terms| > 1
    ensures Join(RenderTerms(terms, tail)) == RenderTerm(terms[0], false) + " " + Join(RenderTerms(terms[1..], tail))
    ensures forall column :: TermReadings(column, terms, tail)
                == [Reading(column, terms[0], false)] + TermReadings(column, terms[1..], tail)
  {
    hide RenderTerm, Bareword;
    var parts, rest := RenderTerms(terms, tail), RenderTerms(terms[1..], tail);
    assert parts[0] == RenderTerm(terms[0], false) && parts[1..] == rest;
    assert Join(parts) == parts[0] + " " + Join(parts[1..]);
    hide Join, RenderTerms;
  }

  lemma TermsOne(terms: seq<string>, tail: bool)
    requires |terms| == 1
    ensures Join(RenderTerms(terms, tail)) == RenderTerm(terms[0], tail)
    ensures forall column ::
              TermReadings(column, terms, tail) == [Reading(column, terms[0], tail && Bareword(terms[0]))]
  {}

  /** The list of terms ends in an operator that is rendered with a star. */
  predicate OperatorTail(terms: seq<string>, tail: bool)
    requires terms != []
  {
    tail && Operator(terms[|terms| - 1])
  }

  lemma {:induction false} GroupReads(column: string, terms: seq<string>, tail: bool, rest: string)
    requires GoodTerms(terms)
    ensures ReadGroup(column, Join(RenderTerms(terms, tail)) + ")" + rest)
              == if OperatorTail(terms, tail) then None else Some((TermReadings(Some(column), terms, tail), rest))
  {
    var s := Join(RenderTerms(terms, tail)) + ")" + rest;
    hide ReadTerm, RenderTerm, RenderTerms, TermReadings, Join, Operator;
    if |terms| == 1 {
      TermsOne(terms, tail);
      TermReads(terms[0], tail, ")" + rest);
      assert s == RenderTerm(terms[0], tail) + (")" + rest);
      assert (")" + rest)[1..] == rest;
    } else {
      TermsCons(terms, tail);
      GroupReads(column, terms[1..], tail, rest);
      var after := Join(RenderTerms(terms[1..], tail)) + ")" + rest;
      TermReads(terms[0], false, " " + after);
      assert s == RenderTerm(terms[0], false) + (" " + after);
      assert (" " + after)[1..] == after;
    }
  }

  /** What reading on gives: nothing further, or whatever the text after a space reads as. */
  function ReadOn(cont: string): Option<seq<Reading>> {
    if cont == "" then Some([]) else ReadTerms(cont[1..])
  }

  function Prepend(first: seq<Reading>, more: Option<seq<Reading>>): Option<seq<Reading>> {
    if more.Some? then Some(first + more.value) else None
  }

  lemma PrependTwice(first: seq<Reading>, second: seq<Reading>, more: Option<seq<Reading>>)
    ensures Prepend(first, Prepend(second, more)) == Prepend(first + second, more)
  {
    if more.Some? { assert first + (second + more.value) == first + second + more.value; }
  }

  lemma TermsStep(s: string, term: string, prefix: bool, cont: string)
    requires ReadTerm(s) == Some((term, prefix, cont)) && (cont == "" || cont[0] == ' ')
    ensures ReadTerms(s) == Prepend([Reading(None, term, prefix)], ReadOn(cont))
  {
    assert [Reading(None, term, prefix)] + [] == [Reading(None, term, prefix)];
  }

  lemma TermsFail(s: string)
    requires ReadTerm(s) == None
    ensures ReadTerms(s) == None
  {}

  lemma {:induction false} FreeReads(terms: seq<string>, tail: bool, cont: string)
    requires GoodTerms(terms) && (cont == "" || cont[0] == ' ')
    ensures ReadTerms(Join(RenderTerms(terms, tail)) + cont)
              == if OperatorTail(terms, tail) then None else Prepend(TermReadings(None, terms, tail), ReadOn(cont))
  {
    hide *;
    TailOf(terms, tail);
    if |terms| == 1 {
      TermsOne(terms, tail);
      FreeOne(terms[0], tail, cont);
    } else {
      TermsCons(terms, tail);
      FreeReads(terms[1..], tail, cont);
      var first, after := terms[0], Join(RenderTerms(terms[1..], tail)) + cont;
      assert Join(RenderTerms(terms, tail)) + cont == RenderTerm(first, false) + (" " + after);
      FreeCons(first, after);
      PrependTwice([Reading(None, first, false)], TermReadings(None, terms[1..], tail), ReadOn(cont));
      PrependNone([Reading(None, first, false)]);
    }
  }

  lemma TailOf(terms: seq<string>, tail: bool)
    requires GoodTerms(terms)
    ensures terms != [] && terms[0] != "" && (|terms| > 1 ==> GoodTerms(terms[1..]))
    ensures |terms| == 1 ==> (OperatorTail(terms, tail) <==> tail && Operator(terms[0]))
    ensures |terms| > 1 ==> (OperatorTail(terms, tail) <==> OperatorTail(terms[1..], tail))
  {
    hide Operator;
  }

  lemma FreeOne(term: string, tail: bool, cont: string)
    requires term != "" && (cont == "" || cont[0] == ' ')
    ensures ReadTerms(RenderTerm(term, tail) + cont)
              == if tail && Operator(term) then None
                 else Prepend([Reading(None, term, tail && Bareword(term))], ReadOn(cont))
  {
    assert Ends(cont);
    hide *;
    var s := RenderTerm(term, tail) + cont;
    TermReads(term, tail, cont);
    if tail && Operator(term) { TermsFail(s); } else { TermsStep(s, term, tail && Bareword(term), cont); }
  }

  lemma FreeCons(first: string, after: string)
    requires first != ""
    ensures ReadTerms(RenderTerm(first, false) + (" " + after))
              == Prepend([Reading(None, first, false)], ReadTerms(after))
  {
    assert ReadOn(" " + after) == ReadTerms(after) by {
      hide ReadTerms;
      assert (" " + after)[1..] == after;
    }
    hide *;
    FreeOne(first, false, " " + after);
  }

  lemma PrependNone(first: seq<Reading>)
    ensures Prepend(first, None) == None
  {}

  /** Among terms a column filter is a syntax error: its name is a bareword without a star. */
  lemma ColumnStops(column: string, body: string)
    requires GoodColumn(Some(column))
    ensures ReadTerms(column + ":(" + body) == None
    ensures IdentLength(column + ":(" + body) == |column|
  {
    var s := column + ":(" + body;
    assert s == column + (":(" + body);
    IdentReads(column, ":(" + body);
    hide IdentLength, ReadQuoted;
    assert s[|column|] == ':' && IdentChar(s[0]);
    assert ReadTerm(s) == None;
  }

  ghost predicate GoodClause(c: Clause) {
    GoodTerms(c.terms) && GoodColumn(c.column)
  }

  ghost predicate AllGood(clauses: seq<Clause>) {
    clauses != [] && forall i :: 0 <= i < |clauses| ==> GoodClause(clauses[i])
  }

  ghost predicate NoColumns(clauses: seq<Clause>) {
    forall i :: 0 <= i < |clauses| ==> clauses[i].column.None?
  }

  /** The last term of the whole query is an operator word. */
  ghost predicate EndsInOperator(clauses: seq<Clause>)
    requires AllGood(clauses)
  {
    OperatorTail(clauses[|clauses| - 1].terms, true)
  }

  lemma PartsCons(clauses: seq<Clause>)
    requires |clauses| > 1
    ensures Join(RenderParts(clauses)) == RenderClause(clauses[0], false) + (" " + Join(RenderParts(clauses[1..])))
  {
    assert RenderParts(clauses)[1..] == RenderParts(clauses[1..]);
  }

  lemma PartsOne(clauses: seq<Clause>)
    requires |clauses| == 1
    ensures Join(RenderParts(clauses)) == RenderClause(clauses[0], true)
    ensures ClauseReadings(clauses) == TermReadings(clauses[0].column, clauses[0].terms, true)
  {
    assert ClauseReadings(clauses[1..]) == [];
  }

  /** What follows the first clause. */
  ghost function After(clauses: seq<Clause>): string
    requires clauses != []
  {
    if |clauses| == 1 then "" else " " + Join(RenderParts(clauses[1..]))
  }

  lemma PartsHead(clauses: seq<Clause>)
    requires clauses != []
    ensures Join(RenderParts(clauses)) == RenderClause(clauses[0], |clauses| == 1) + After(clauses)
  {
    hide Join, RenderParts, RenderClause;
    if |clauses| == 1 { PartsOne(clauses); } else { PartsCons(clauses); }
  }

  /** A column clause in front, and what follows it. */
  lemma ColumnFirst(clauses: seq<Clause>) returns (body: string)
    requires AllGood(clauses) && clauses[0].column.Some?
    ensures body == Join(RenderTerms(clauses[0].terms, |clauses| == 1)) + ")" + After(clauses)
    ensures Join(RenderParts(clauses)) == clauses[0].column.value + ":(" + body
  {
    var c := clauses[0];
    var joined := Join(RenderTerms(c.terms, |clauses| == 1));
    assert RenderClause(c, |clauses| == 1) == c.column.value + ":(" + joined + ")";
    hide *;
    PartsHead(clauses);
    body := joined + ")" + After(clauses);
    Regroup(c.column.value + ":(", joined, ")", After(clauses));
  }

  lemma Regroup(a: string, b: string, c: string, d: string)
    ensures a + b + c + d == a + (b + c + d)
  {}

  /** As a list of terms, the expression reads back exactly when no clause has a column and no operator ends it. */
  lemma {:induction false} ListReads(clauses: seq<Clause>)
    requires AllGood(clauses)
    ensures ReadTerms(Join(RenderParts(clauses)))
              == if NoColumns(clauses) && !EndsInOperator(clauses) then Some(ClauseReadings(clauses)) else None
    decreases |clauses|, 1
  {
    var c := clauses[0];
    if c.column.Some? {
      var body := ColumnFirst(clauses);
      hide ReadTerms, Join, RenderParts, IdentLength;
      ColumnStops(c.column.value, body);
    } else if |clauses| == 1 {
      hide ReadTerms, Join, RenderParts, TermReadings, ClauseReadings, RenderTerms;
      PartsOne(clauses);
      FreeReads(c.terms, true, "");
      assert Join(RenderParts(clauses)) == Join(RenderTerms(c.terms, true)) + "";
      assert TermReadings(None, c.terms, true) + [] == TermReadings(None, c.terms, true);
    } else {
      ListRest(clauses);
    }
  }

  lemma ListRest(clauses: seq<Clause>)
    requires AllGood(clauses) && |clauses| > 1 && clauses[0].column.None?
    ensures ReadTerms(Join(RenderParts(clauses)))
              == if NoColumns(clauses) && !EndsInOperator(clauses) then Some(ClauseReadings(clauses)) else None
    decreases |clauses|, 0
  {
    var c, rest := clauses[0], clauses[1..];
    hide *;
    RestOf(clauses);
    RestReadings(clauses);
    ListReads(rest);
    PartsCons(clauses);
    ClauseThen(c.terms, Join(RenderParts(rest)));
    PrependNone(TermReadings(None, c.terms, false));
    PrependSome(TermReadings(None, c.terms, false), ClauseReadings(rest));
  }

  lemma RestOf(clauses: seq<Clause>)
    requires AllGood(clauses) && |clauses| > 1 && clauses[0].column.None?
    ensures AllGood(clauses[1..]) && GoodTerms(clauses[0].terms)
    ensures NoColumns(clauses) <==> NoColumns(clauses[1..])
    ensures EndsInOperator(clauses) <==> EndsInOperator(clauses[1..])
  {
    hide OperatorTail, GoodTerms, GoodColumn;
    var rest := clauses[1..];
    assert GoodClause(clauses[0]);
    assert forall i :: 0 <= i < |rest| ==> rest[i] == clauses[i + 1];
    assert forall i :: 0 < i < |clauses| ==> clauses[i] == rest[i - 1];
    assert rest[|rest| - 1] == clauses[|clauses| - 1];
  }

  lemma RestReadings(clauses: seq<Clause>)
    requires |clauses| > 1 && clauses[0].column.None?
    ensures RenderClause(clauses[0], false) == Join(RenderTerms(clauses[0].terms, false))
    ensures ClauseReadings(clauses) == TermReadings(None, clauses[0].terms, false) + ClauseReadings(clauses[1..])
  {
    hide Join, RenderTerms, TermReadings;
  }

  lemma PrependSome(first: seq<Reading>, more: seq<Reading>)
    ensures Prepend(first, Some(more)) == Some(first + more)
  {}

  /** A free clause that is not the last, and what follows it. */
  lemma ClauseThen(terms: seq<string>, after: string)
    requires GoodTerms(terms)
    ensures ReadTerms(Join(RenderTerms(terms, false)) + (" " + after))
              == Prepend(TermReadings(None, terms, false), ReadTerms(after))
  {
    assert ReadOn(" " + after) == ReadTerms(after) by {
      hide ReadTerms;
      assert (" " + after)[1..] == after;
    }
    assert !OperatorTail(terms, false);
    hide *;
    FreeReads(terms, false, " " + after);
  }

  /** What FTS5 accepts: a single clause, or free text only; and no operator word at the end. */
  ghost predicate Acceptable(clauses: seq<Clause>)
    requires AllGood(clauses)
  {
    (|clauses| == 1 || NoColumns(clauses)) && !EndsInOperator(clauses)
  }

  /** A free clause does not start like a column filter. */
  lemma FreeFirst(clauses: seq<Clause>)
    requires AllGood(clauses) && clauses[0].column.None?
    ensures var s := Join(RenderParts(clauses)); ReadQuery(s) == ReadTerms(s)
  {
    var terms, lone := clauses[0].terms, |clauses| == 1;
    assert RenderClause(clauses[0], lone) == Join(RenderTerms(terms, lone));
    assert GoodClause(clauses[0]) && GoodTerms(terms) && terms[0] != "";
    hide *;
    PartsHead(clauses);
    if |terms| == 1 {
      TermsOne(terms, lone);
      NotAFilter(terms[0], lone, After(clauses));
    } else {
      TermsCons(terms, lone);
      var joined := Join(RenderTerms(terms[1..], lone));
      Regroup(RenderTerm(terms[0], false), " ", joined, After(clauses));
      NotAFilter(terms[0], false, " " + joined + After(clauses));
    }
  }

  lemma NotAFilter(term: string, tail: bool, rest: string)
    requires term != ""
    ensures var s := RenderTerm(term, tail) + rest; ReadQuery(s) == ReadTerms(s)
  {
    var s := RenderTerm(term, tail) + rest;
    if tail && Bareword(term) {
      StarredReads(term, rest);
      assert s == term + "*" + rest;
      hide ReadTerms, ReadTerm, ReadGroup, IdentLength, DoubleQuotes;
      assert s[|term|] == '*';
    } else {
      hide ReadTerms, ReadGroup, DoubleQuotes;
      assert s[0] == '"';
    }
  }

  /** The rendered expression reads back as every clause's column and terms, in order, exactly when FTS5 accepts such
      clauses; otherwise it is a syntax error. */
  lemma QueryReads(clauses: seq<Clause>)
    requires AllGood(clauses)
    ensures ReadQuery(Join(RenderParts(clauses)))
              == if Acceptable(clauses) then Some(ClauseReadings(clauses)) else None
  {
    var c, s := clauses[0], Join(RenderParts(clauses));
    if c.column.None? {
      hide ReadQuery, ReadTerms, Join, RenderParts, ClauseReadings;
      FreeFirst(clauses);
      ListReads(clauses);
      assert NoColumns(clauses) <== |clauses| == 1;
    } else {
      var column := c.column.value;
      var body := ColumnFirst(clauses);
      ColumnStops(column, body);
      GroupReads(column, c.terms, |clauses| == 1, After(clauses));
      hide ReadTerms, ReadGroup, Join, RenderParts, IdentLength, RenderTerms, TermReadings, Operator;
      assert s[..|column|] == column && s[|column| + 2..] == body;
      assert s[|column|] == ':' && s[|column| + 1] == '(';
      if |clauses| == 1 { PartsOne(clauses); }
    }
  }

  // ----- every input -----

  /** The allow-list maps aliases to plain column names. */
  ghost predicate GoodFields(fields: Fields) {
    forall i :: 0 <= i < |fields| ==> GoodColumn(Some(fields[i].1))
  }

  lemma {:induction false} FieldsGood(fields: Fields, name: string)
    requires GoodFields(fields)
    ensures GoodColumn(FindField(fields, name))
  {
    if fields != [] { FieldsGood(fields[1..], name); }
  }

  lemma {:induction false} ClausesGood(cc: CharClasses, fields: Fields, chunks: seq<string>)
    requires GoodFields(fields)
    ensures forall i :: 0 <= i < |Clauses(cc, fields, chunks)| ==> GoodClause(Clauses(cc, fields, chunks)[i])
  {
    hide Operator;
    if chunks != [] {
      ClausesGood(cc, fields, chunks[..|chunks| - 1]);
      var chunk := chunks[|chunks| - 1];
      var (column, body) := Scope(chunk, fields);
      FieldsGood(fields, chunk[..FindChar(chunk, ':')]);
      var _ := SubSplitMeaning(cc, body);
    }
  }

  /** For every input that leaves a term, the built expression reads back as exactly its terms with their columns if
      and only if it has a single clause or no column filter, and does not end in AND, OR or NOT. Every other built
      expression is a syntax error. */
  lemma BuiltReadsExact(cc: CharClasses, input: string, fields: Fields)
    requires GoodFields(fields)
    ensures var clauses := Clauses(cc, fields, SplitWhitespace(cc, input));
            clauses != [] ==>
              && AllGood(clauses) && ClauseReadings(clauses) != []
              && (ReadQuery(Join(RenderParts(clauses))) == Some(ClauseReadings(clauses)) <==> Acceptable(clauses))
              && (ReadQuery(Join(RenderParts(clauses))) == None <==> !Acceptable(clauses))
  {
    var clauses := Clauses(cc, fields, SplitWhitespace(cc, input));
    ClausesGood(cc, fields, SplitWhitespace(cc, input));
    if clauses != [] {
      assert AllGood(clauses);
      assert |TermReadings(clauses[0].column, clauses[0].terms, |clauses| == 1)| > 0;
      hide ReadQuery, RenderParts, Join, Clauses, SplitWhitespace;
      QueryReads(clauses);
    }
  }

  // ----- two inputs that are refused -----

  /** The thread search's allow-list. */
  const THREAD_FIELDS: Fields := [("title", "title"), ("body", "op_body"), ("url", "link_url")]

  /** What any Unicode library says about ASCII. */
  ghost predicate Latin(cc: CharClasses) {
    && cc.space(' ') && (forall c :: AsciiAlnum(c) || c == ':' ==> !cc.space(c))
    && (forall c :: AsciiAlnum(c) ==> cc.alnum(c))
  }

  lemma {:induction false} SplitAt(a: string, b: string, separates: char -> bool, sep: char)
    requires Clean(a, separates) && separates(sep)
    ensures Split(a + [sep] + b, separates) == [a] + Split(b, separates)
  {
    var s := a + [sep] + b;
    if a == "" {
      assert s[1..] == b;
    } else {
      SplitAt(a[1..], b, separates, sep);
      assert s[1..] == a[1..] + [sep] + b;
      assert [a[0]] + a[1..] == a;
    }
  }

  lemma {:induction false} SplitWhole(a: string, separates: char -> bool)
    requires Clean(a, separates)
    ensures Split(a, separates) == [a]
  {
    if a != "" {
      SplitWhole(a[1..], separates);
      assert [a[0]] + a[1..] == a;
    }
  }

  lemma TwoWords(cc: CharClasses, a: string, b: string)
    requires Latin(cc) && a != "" && b != "" && Clean(a, cc.space) && Clean(b, cc.space)
    ensures SplitWhitespace(cc, a + " " + b) == [a, b]
  {
    SplitAt(a, b, cc.space, ' ');
    SplitWhole(b, cc.space);
    assert Split(a + " " + b, cc.space) == [a, b];
    hide Split;
    KeepsBoth(a, b);
  }

  lemma KeepsBoth(a: string, b: string)
    requires a != "" && b != ""
    ensures NonEmpty([b]) == [b] && NonEmpty([a, b]) == [a, b]
  {
    assert [b][..0] == [] && [a][..0] == [] && [a, b][..1] == [a];
    assert NonEmpty([]) == [] && NonEmpty([a]) == [a];
  }

  lemma OneTerm(cc: CharClasses, word: string)
    requires Latin(cc) && word != "" && Bareword(word)
    ensures SubSplit(cc, word) == [word]
  {
    SplitWhole(word, Separator(cc));
    hide Split;
    KeepsBoth(word, word);
  }

  lemma TwoClauses(cc: CharClasses, fields: Fields, a: string, b: string)
    ensures var (columnA, bodyA) := Scope(a, fields);
            var (columnB, bodyB) := Scope(b, fields);
            SubSplit(cc, bodyA) != [] && SubSplit(cc, bodyB) != [] ==>
              Clauses(cc, fields, [a, b])
                  == [Clause(columnA, SubSplit(cc, bodyA)), Clause(columnB, SubSplit(cc, bodyB))]
  {
    assert [a, b][..1] == [a] && [a][..0] == [];
    assert Clauses(cc, fields, []) == [];
  }

  lemma NoColon(word: string, fields: Fields)
    requires Bareword(word)
    ensures Scope(word, fields) == (None, word)
  {}

  lemma UrlScope()
    ensures Scope("url:github", THREAD_FIELDS) == (Some("link_url"), "github")
  {
    var chunk := "url:github";
    assert FindChar(chunk, ':') == 3 by {
      hide FindChar;
      assert chunk[0] != ':' && chunk[1] != ':' && chunk[2] != ':' && chunk[3] == ':';
    }
    assert chunk[..3] == "url" && chunk[4..] == "github";
    assert FindField(THREAD_FIELDS, "url") == Some("link_url") by {
      assert THREAD_FIELDS[1..][1..] == [("url", "link_url")];
    }
  }

  lemma GoodThreadFields()
    ensures GoodFields(THREAD_FIELDS)
  {}

  lemma UrlClauses(cc: CharClasses)
    requires Latin(cc)
    ensures SplitWhitespace(cc, "url:github axum") == ["url:github", "axum"]
    ensures Clauses(cc, THREAD_FIELDS, ["url:github", "axum"])
              == [Clause(Some("link_url"), ["github"]), Clause(None, ["axum"])]
  {
    assert "url:github axum" == "url:github" + " " + "axum";
    assert Clean("url:github", cc.space) && Clean("axum", cc.space);
    assert Bareword("github") && Bareword("axum");
    hide *;
    TwoWords(cc, "url:github", "axum");
    UrlScope();
    NoColon("axum", THREAD_FIELDS);
    OneTerm(cc, "github");
    OneTerm(cc, "axum");
    TwoClauses(cc, THREAD_FIELDS, "url:github", "axum");
  }

  /** A column filter beside free text: the input `url:github axum`, which is the builder's own example. */
  lemma MixedClausesRefused(cc: CharClasses)
    requires Latin(cc)
    ensures var clauses := Clauses(cc, THREAD_FIELDS, SplitWhitespace(cc, "url:github axum"));
            && clauses == [Clause(Some("link_url"), ["github"]), Clause(None, ["axum"])]
            && ReadQuery(Join(RenderParts(clauses))) == None
  {
    var clauses := [Clause(Some("link_url"), ["github"]), Clause(None, ["axum"])];
    assert !NoColumns(clauses) by { assert clauses[0].column.Some?; }
    hide Latin, Clauses, SplitWhitespace, ReadQuery, Join, RenderParts, NoColumns, GoodFields, ClauseReadings, AllGood,
         EndsInOperator;
    UrlClauses(cc);
    GoodThreadFields();
    BuiltReadsExact(cc, "url:github axum", THREAD_FIELDS);
  }

  lemma CatsClauses(cc: CharClasses, fields: Fields)
    requires Latin(cc)
    ensures SplitWhitespace(cc, "cats AND") == ["cats", "AND"]
    ensures Clauses(cc, fields, ["cats", "AND"]) == [Clause(None, ["cats"]), Clause(None, ["AND"])]
  {
    assert "cats AND" == "cats" + " " + "AND";
    assert Clean("cats", cc.space) && Clean("AND", cc.space);
    assert Bareword("cats") && Bareword("AND");
    hide *;
    TwoWords(cc, "cats", "AND");
    NoColon("cats", fields);
    NoColon("AND", fields);
    OneTerm(cc, "cats");
    OneTerm(cc, "AND");
    TwoClauses(cc, fields, "cats", "AND");
  }

  /** An operator word at the end: the input `cats AND`. */
  lemma OperatorTailRefused(cc: CharClasses, fields: Fields)
    requires Latin(cc) && GoodFields(fields)
    ensures var clauses := Clauses(cc, fields, SplitWhitespace(cc, "cats AND"));
            && clauses == [Clause(None, ["cats"]), Clause(None, ["AND"])]
            && ReadQuery(Join(RenderParts(clauses))) == None
  {
    var clauses := [Clause(None, ["cats"]), Clause(None, ["AND"])];
    hide Latin, Clauses, SplitWhitespace, ReadQuery, Join, RenderParts, NoColumns, GoodFields, ClauseReadings, AllGood;
    CatsClauses(cc, fields);
    BuiltReadsExact(cc, "cats AND", fields);
    assert clauses[|clauses| - 1].terms == ["AND"];
  }

  /** Only the very last term of a query can be a prefix, and it is one exactly when it is plain ASCII. */
  lemma {:induction false} OnlyTailIsPrefix(clauses: seq<Clause>, k: nat)
    requires (forall i :: 0 <= i < |clauses| ==> GoodClause(clauses[i])) && k < |ClauseReadings(clauses)|
    ensures ClauseReadings(clauses)[k].prefix <==>
              k == |ClauseReadings(clauses)| - 1 && Bareword(ClauseReadings(clauses)[k].term)
  {
    var first := TermReadings(clauses[0].column, clauses[0].terms, |clauses| == 1);
    var rest := ClauseReadings(clauses[1..]);
    if |clauses| == 1 {
      assert first + rest == first;
    } else {
      assert rest != [] by {
        assert GoodClause(clauses[1..][0]);
        assert |TermReadings(clauses[1].column, clauses[1].terms, |clauses| == 2)| > 0;
      }
      if k >= |first| {
        OnlyTailIsPrefix(clauses[1..], k - |first|);
        assert ClauseReadings(clauses)[k] == rest[k - |first|];
      }
    }
  }
}
