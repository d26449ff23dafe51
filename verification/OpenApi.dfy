/** Finding the OpenAPI path template an operation belongs to (section 4.8.8.2 of OpenAPI 3.1.0). */
module OpenApi {
  import opened Prelude
  import opened Text

  datatype TrailingSlash = Strict | Equivalent

  datatype PathMatch = PathMatch(httpMethod: string, template: string)

  datatype Error = InvalidTarget | NotDocumented | Ambiguous

  // ---- one segment ----

  /** A character of the template, or a template expression. */
  datatype Piece = Char(c: char) | Expression

  /** The length of the expression at the start of `t`, a brace pair around something without braces; 0 if none. */
  function ExpressionLength(t: string): (n: nat)
    ensures n <= |t| && (n > 0 ==> n >= 3)
  {
    if t == "" || t[0] != '{' then 0
    else
      var body := BraceFree(t[1..]);
      if body > 0 && body + 1 < |t| && t[body + 1] == '}' then body + 2 else 0
  }

  function BraceFree(t: string): (n: nat)
    ensures n <= |t|
  {
    if t == "" || t[0] == '{' || t[0] == '}' then 0 else 1 + BraceFree(t[1..])
  }

  /** The template as pieces; None when a brace is not part of an expression. */
  function Pieces(t: string): Option<seq<Piece>>
    decreases |t|
  {
    if t == "" then Some([])
    else if ExpressionLength(t) > 0 then Cons(Expression, Pieces(t[ExpressionLength(t)..]))
    else if t[0] == '{' || t[0] == '}' then None
    else Cons(Char(t[0]), Pieces(t[1..]))
  }

  predicate HasBrace(s: string) { '{' in s || '}' in s }

  /** The template is the pieces in order: each expression a brace pair around a name without braces, and each other
      character not a brace. */
  ghost predicate Spells(t: string, pieces: seq<Piece>)
    decreases |pieces|
  {
    if pieces == [] then t == ""
    else
      match pieces[0]
      case Char(c) => t != "" && t[0] == c && !HasBrace([c]) && Spells(t[1..], pieces[1..])
      case Expression =>
        exists name, rest :: t == "{" + name + "}" + rest && name != "" && !HasBrace(name) && Spells(rest, pieces[1..])
  }

  lemma {:induction false} BraceFreeMeans(name: string, rest: string)
    requires !HasBrace(name) && rest != "" && HasBrace(rest[..1])
    ensures BraceFree(name + rest) == |name|
    decreases |name|
  {
    if name == "" {
      assert name + rest == rest;
    } else {
      assert (name + rest)[1..] == name[1..] + rest;
      BraceFreeMeans(name[1..], rest);
    }
  }

  lemma {:induction false} BraceFreePrefix(t: string)
    ensures !HasBrace(t[..BraceFree(t)])
  {
    if BraceFree(t) > 0 {
      BraceFreePrefix(t[1..]);
      assert t[..BraceFree(t)] == [t[0]] + t[1..][..BraceFree(t[1..])];
    }
  }

  lemma ExpressionMeans(t: string)
    ensures var n := ExpressionLength(t);
            n > 0 ==> t == "{" + t[1..n - 1] + "}" + t[n..] && t[1..n - 1] != "" && !HasBrace(t[1..n - 1])
  {
    if ExpressionLength(t) > 0 {
      BraceFreePrefix(t[1..]);
      assert t[1..ExpressionLength(t) - 1] == t[1..][..BraceFree(t[1..])];
    }
  }

  lemma ExpressionIsFound(name: string, rest: string)
    requires name != "" && !HasBrace(name)
    ensures var t := "{" + name + "}" + rest; ExpressionLength(t) == |name| + 2 && t[|name| + 2..] == rest
  {
    var t := "{" + name + "}" + rest;
    assert t[1..] == name + ("}" + rest);
    BraceFreeMeans(name, "}" + rest);
  }

  lemma SpellsExpression(t: string, n: nat, rest: seq<Piece>)
    requires n == ExpressionLength(t) > 0 && Spells(t[n..], rest)
    ensures Spells(t, [Expression] + rest)
  {
    ExpressionMeans(t);
    hide ExpressionLength, HasBrace;
    assert ([Expression] + rest)[1..] == rest;
    assert t == "{" + t[1..n - 1] + "}" + t[n..];
  }

  lemma SpellsChar(t: string, rest: seq<Piece>)
    requires t != "" && !HasBrace(t[..1]) && Spells(t[1..], rest)
    ensures Spells(t, [Char(t[0])] + rest)
  {
    hide HasBrace;
    assert ([Char(t[0])] + rest)[1..] == rest && t[..1] == [t[0]];
  }

  lemma {:induction false} PiecesAreSpelled(t: string)
    requires Pieces(t).Some?
    ensures Spells(t, Pieces(t).value)
    decreases |t|
  {
    hide Spells, ExpressionLength;
    if t == "" {
      NothingSpelled();
    } else if ExpressionLength(t) > 0 {
      var n := ExpressionLength(t);
      PiecesAreSpelled(t[n..]);
      SpellsExpression(t, n, Pieces(t[n..]).value);
    } else {
      PiecesAreSpelled(t[1..]);
      SpellsChar(t, Pieces(t[1..]).value);
    }
  }

  lemma NothingSpelled()
    ensures Spells("", [])
  {
  }

  lemma NoExpression(t: string)
    requires t != "" && t[0] != '{'
    ensures ExpressionLength(t) == 0
  {
  }

  lemma PiecesOfExpression(name: string, rest: string)
    requires name != "" && !HasBrace(name)
    ensures Pieces("{" + name + "}" + rest) == Cons(Expression, Pieces(rest))
  {
    ExpressionIsFound(name, rest);
    hide ExpressionLength, HasBrace;
  }

  lemma {:induction false} SpelledIsPieces(t: string, pieces: seq<Piece>)
    requires Spells(t, pieces)
    ensures Pieces(t) == Some(pieces)
    decreases |pieces|
  {
    hide ExpressionLength;
    if pieces != [] {
      assert pieces == [pieces[0]] + pieces[1..];
      if pieces[0].Char? {
        NoExpression(t);
        SpelledIsPieces(t[1..], pieces[1..]);
      } else {
        var name, rest :| t == "{" + name + "}" + rest && name != "" && !HasBrace(name) && Spells(rest, pieces[1..]);
        PiecesOfExpression(name, rest);
        SpelledIsPieces(rest, pieces[1..]);
      }
    }
  }

  /** A template segment is read as the pieces it is spelled with, and is refused when it is spelled with none. */
  lemma PiecesMean(t: string, pieces: seq<Piece>)
    ensures Pieces(t) == Some(pieces) <==> Spells(t, pieces)
  {
    if Pieces(t) == Some(pieces) { PiecesAreSpelled(t); }
    if Spells(t, pieces) { SpelledIsPieces(t, pieces); }
  }

  function Cons(p: Piece, rest: Option<seq<Piece>>): Option<seq<Piece>> {
    if rest.None? then None else Some([p] + rest.value)
  }

  /** What an expression may stand for. */
  predicate Filling(s: string) {
    s != "" && '/' !in s && '?' !in s && '#' !in s
  }

  /** The regular expression made of the pieces matches the whole of `value`. */
  predicate FullMatch(pieces: seq<Piece>, value: string)
    decreases |pieces|
  {
    if pieces == [] then value == ""
    else if pieces[0].Char? then value != "" && value[0] == pieces[0].c && FullMatch(pieces[1..], value[1..])
    else exists n :: 1 <= n <= |value| && Filling(value[..n]) && FullMatch(pieces[1..], value[n..])
  }

  predicate IsTemplated(pieces: seq<Piece>) {
    Expression in pieces
  }

  /** _match_segment: None without a match, otherwise what the segment scores. */
  function MatchSegment(template: string, value: string): Option<nat> {
    var pieces := Pieces(template);
    if pieces.None? then None
    else if !IsTemplated(pieces.value) then if template == value then Some(1) else None
    else if FullMatch(pieces.value, value) then Some(0) else None
  }

  /** The template with its expressions replaced, in order, by the fillings. */
  function Filled(pieces: seq<Piece>, fillings: seq<string>): Option<string>
    decreases |pieces|
  {
    if pieces == [] then if fillings == [] then Some("") else None
    else if pieces[0].Char? then
      var rest := Filled(pieces[1..], fillings);
      if rest.None? then None else Some([pieces[0].c] + rest.value)
    else if fillings == [] || fillings[0] == "" || '/' in fillings[0] || '?' in fillings[0] || '#' in fillings[0] then
      None
    else
      var rest := Filled(pieces[1..], fillings[1..]);
      if rest.None? then None else Some(fillings[0] + rest.value)
  }

  lemma {:induction false} FullMatchIsFilling(pieces: seq<Piece>, value: string) returns (fillings: seq<string>)
    requires FullMatch(pieces, value)
    ensures Filled(pieces, fillings) == Some(value)
    decreases |pieces|
  {
    if pieces == [] {
      fillings := [];
    } else if pieces[0].Char? {
      fillings := FullMatchIsFilling(pieces[1..], value[1..]);
      assert value == [value[0]] + value[1..];
    } else {
      var n :| 1 <= n <= |value| && Filling(value[..n]) && FullMatch(pieces[1..], value[n..]);
      fillings := FullMatchIsFilling(pieces[1..], value[n..]);
      assert ([value[..n]] + fillings)[1..] == fillings;
      assert value == value[..n] + value[n..];
      fillings := [value[..n]] + fillings;
    }
  }

  lemma {:induction false} FillingMatches(pieces: seq<Piece>, fillings: seq<string>)
    requires Filled(pieces, fillings).Some?
    ensures FullMatch(pieces, Filled(pieces, fillings).value)
    decreases |pieces|
  {
    if pieces != [] {
      var value := Filled(pieces, fillings).value;
      if pieces[0].Char? {
        FillingMatches(pieces[1..], fillings);
        assert value[1..] == Filled(pieces[1..], fillings).value;
      } else {
        FillingMatches(pieces[1..], fillings[1..]);
        var n := |fillings[0]|;
        assert value[..n] == fillings[0] && value[n..] == Filled(pieces[1..], fillings[1..]).value;
      }
    }
  }

  lemma {:induction false} LiteralFills(t: string)
    requires Pieces(t).Some? && !IsTemplated(Pieces(t).value)
    ensures Filled(Pieces(t).value, []) == Some(t)
    decreases |t|
  {
    if t != "" {
      var pieces := Pieces(t).value;
      assert pieces[0] in pieces;
      assert pieces[1..] == Pieces(t[1..]).value;
      assert forall p :: p in pieces[1..] ==> p in pieces;
      LiteralFills(t[1..]);
      assert t == [t[0]] + t[1..];
    }
  }

  lemma {:induction false} LiteralNeedsNoFilling(pieces: seq<Piece>, fillings: seq<string>)
    requires !IsTemplated(pieces) && Filled(pieces, fillings).Some?
    ensures fillings == []
    decreases |pieces|
  {
    if pieces != [] {
      assert pieces[0] in pieces;
      assert forall p :: p in pieces[1..] ==> p in pieces;
      LiteralNeedsNoFilling(pieces[1..], fillings);
    }
  }

  /** A segment matches exactly the fillings of its expressions; one with a stray brace matches nothing. It
      scores 1 when it has no expression. */
  lemma SegmentMatchesItsFillings(template: string, value: string)
    ensures MatchSegment(template, value).Some? <==>
            Pieces(template).Some? && exists fillings :: Filled(Pieces(template).value, fillings) == Some(value)
    ensures MatchSegment(template, value) == Some(1) ==> template == value
  {
    if Pieces(template).Some? {
      var pieces := Pieces(template).value;
      if IsTemplated(pieces) {
        if FullMatch(pieces, value) {
          var fillings := FullMatchIsFilling(pieces, value);
        }
        if fillings :| Filled(pieces, fillings) == Some(value) {
          FillingMatches(pieces, fillings);
        }
      } else {
        LiteralFills(template);
        if fillings :| Filled(pieces, fillings) == Some(value) {
          LiteralNeedsNoFilling(pieces, fillings);
        }
      }
    }
  }

  // ---- whole paths ----

  function Unprefixed(path: string): string { if path != "" && path[0] == '/' then path[1..] else path }

  /** _segments */
  function Segments(path: string, mode: TrailingSlash): seq<string> {
    var trailing := mode.Equivalent? && path != "/" && path != "" && path[|path| - 1] == '/';
    var normalized := if trailing then path[..|path| - 1] else path;
    Split(Unprefixed(normalized), '/')
  }

  /** A path is taken apart into the parts between its slashes. A trailing slash counts as one more, empty part; when
      trailing slashes are equivalent it makes no difference. */
  lemma TrailingSlashMatters(path: string, parts: seq<string>)
    requires parts != [] && forall i :: 0 <= i < |parts| ==> '/' !in parts[i]
    ensures Segments("/" + Join(parts, '/'), Strict) == parts
    ensures path != "" ==> Segments(path + "/", Strict) == Segments(path, Strict) + [""]
    ensures path != "" ==> Segments(path + "/", Equivalent) == Segments(path, Strict)
    ensures path == "" || path == "/" || path[|path| - 1] != '/' ==>
            Segments(path, Equivalent) == Segments(path, Strict)
  {
    SplitUndoesJoin(parts, '/');
    assert ("/" + Join(parts, '/'))[1..] == Join(parts, '/');
    if path != "" {
      hide Split, Join;
      LongerPath(path);
      SplitAppend(Unprefixed(path), "", '/');
      SplitWhole("", '/');
    }
  }

  lemma LongerPath(path: string)
    requires path != ""
    ensures (path + "/")[..|path + "/"| - 1] == path && |path + "/"| > 1
    ensures Unprefixed(path + "/") == Unprefixed(path) + ['/'] + ""
  {
  }

  /** The score of every segment, None when one of them does not match. */
  function SegmentScores(expected: seq<string>, actual: seq<string>): Option<seq<nat>>
    requires |expected| == |actual|
    decreases |expected|
  {
    if expected == [] then Some([])
    else
      var front := SegmentScores(expected[..|expected| - 1], actual[..|expected| - 1]);
      var last := MatchSegment(expected[|expected| - 1], actual[|expected| - 1]);
      if front.None? || last.None? then None else Some(front.value + [last.value])
  }

  function Score(template: string, path: string, mode: TrailingSlash): Option<seq<nat>> {
    var expected, actual := Segments(template, mode), Segments(path, mode);
    if |expected| != |actual| then None else SegmentScores(expected, actual)
  }

  lemma {:induction false} ScoresNeedEveryPrefix(expected: seq<string>, actual: seq<string>, i: nat)
    requires |expected| == |actual| && i <= |expected|
    requires SegmentScores(expected[..i], actual[..i]).None?
    ensures SegmentScores(expected, actual).None?
    decreases |expected| - i
  {
    if i == |expected| {
      assert expected[..i] == expected && actual[..i] == actual;
    } else {
      assert expected[..i + 1][..i] == expected[..i] && actual[..i + 1][..i] == actual[..i];
      ScoresNeedEveryPrefix(expected, actual, i + 1);
    }
  }

  /** The inner loop: segment by segment, giving up at the first that does not match. */
  method ScoreTemplate(template: string, path: string, mode: TrailingSlash) returns (score: Option<seq<nat>>)
    ensures score == Score(template, path, mode)
  {
    var expected, actual := Segments(template, mode), Segments(path, mode);
    if |expected| != |actual| {
      return None;
    }
    var scores: seq<nat> := [];
    for i := 0 to |expected|
      invariant SegmentScores(expected[..i], actual[..i]) == Some(scores)
    {
      var matched := MatchSegment(expected[i], actual[i]);
      assert expected[..i + 1][..i] == expected[..i] && actual[..i + 1][..i] == actual[..i];
      if matched.None? {
        ScoresNeedEveryPrefix(expected, actual, i + 1);
        return None;
      }
      scores := scores + [matched.value];
    }
    assert expected[..|expected|] == expected && actual[..|actual|] == actual;
    return Some(scores);
  }

  /** The order of tuples and strings in Python. */
  predicate Greater(a: seq<nat>, b: seq<nat>)
    decreases |a|
  {
    a != [] && (b == [] || a[0] > b[0] || (a[0] == b[0] && Greater(a[1..], b[1..])))
  }

  lemma {:induction false} GreaterIsTotal(a: seq<nat>, b: seq<nat>)
    ensures Greater(a, b) || a == b || Greater(b, a)
    ensures Greater(a, b) ==> a != b && !Greater(b, a)
    decreases |a|
  {
    if a != [] && b != [] {
      GreaterIsTotal(a[1..], b[1..]);
      assert a == [a[0]] + a[1..] && b == [b[0]] + b[1..];
    }
  }

  lemma {:induction false} GreaterIsTransitive(a: seq<nat>, b: seq<nat>, c: seq<nat>)
    requires Greater(a, b) && Greater(b, c)
    ensures Greater(a, c)
    decreases |a|
  {
    if c != [] && a[0] == b[0] == c[0] {
      GreaterIsTransitive(a[1..], b[1..], c[1..]);
    }
  }

  type Match = (seq<nat>, string)

  function Codes(s: string): (r: seq<nat>)
    ensures |r| == |s| && forall i :: 0 <= i < |s| ==> r[i] == s[i] as nat
  {
    if s == "" then [] else [s[0] as nat] + Codes(s[1..])
  }

  /** `a` does not have to come after `b` in descending order. */
  predicate NotBelow(a: Match, b: Match) {
    Greater(a.0, b.0) || (a.0 == b.0 && !Greater(Codes(b.1), Codes(a.1)))
  }

  lemma NotBelowIsTotal(a: Match, b: Match)
    ensures NotBelow(a, b) || NotBelow(b, a)
  {
    GreaterIsTotal(a.0, b.0);
    GreaterIsTotal(Codes(a.1), Codes(b.1));
  }

  lemma NotBelowIsTransitive(a: Match, b: Match, c: Match)
    requires NotBelow(a, b) && NotBelow(b, c)
    ensures NotBelow(a, c)
  {
    if Greater(a.0, b.0) && Greater(b.0, c.0) {
      GreaterIsTransitive(a.0, b.0, c.0);
    }
    if a.0 == b.0 == c.0 && Greater(Codes(c.1), Codes(a.1)) {
      GreaterIsTotal(Codes(a.1), Codes(b.1));
      if Greater(Codes(a.1), Codes(b.1)) {
        GreaterIsTransitive(Codes(c.1), Codes(a.1), Codes(b.1));
      }
    }
  }

  predicate Descending(matches: seq<Match>) {
    forall i, j :: 0 <= i < j < |matches| ==> NotBelow(matches[i], matches[j])
  }

  function Insert(m: Match, sorted: seq<Match>): (r: seq<Match>)
    ensures |r| == |sorted| + 1
    decreases |sorted|
  {
    if sorted == [] || NotBelow(m, sorted[0]) then [m] + sorted else [sorted[0]] + Insert(m, sorted[1..])
  }

  lemma {:induction false} InsertPermutes(m: Match, sorted: seq<Match>)
    ensures multiset(Insert(m, sorted)) == multiset(sorted) + multiset{m}
    decreases |sorted|
  {
    if sorted != [] {
      assert sorted == [sorted[0]] + sorted[1..];
      InsertPermutes(m, sorted[1..]);
    }
  }

  lemma {:induction false} InsertDescends(m: Match, sorted: seq<Match>)
    requires Descending(sorted)
    ensures Descending(Insert(m, sorted))
    decreases |sorted|
  {
    if sorted != [] {
      var rest := Insert(m, sorted[1..]);
      InsertDescends(m, sorted[1..]);
      InsertPermutes(m, sorted[1..]);
      NotBelowIsTotal(m, sorted[0]);
      hide NotBelow;
      forall j | 0 <= j < |rest| && NotBelow(sorted[0], m) ensures NotBelow(sorted[0], rest[j]) {
        assert rest[j] in multiset(rest);
        assert rest[j] == m || rest[j] in sorted[1..];
      }
      forall j | 1 <= j < |sorted| && NotBelow(m, sorted[0]) ensures NotBelow(m, sorted[j]) {
        NotBelowIsTransitive(m, sorted[0], sorted[j]);
      }
    }
  }

  /** matches.sort(reverse=True) */
  function Sorted(matches: seq<Match>): (r: seq<Match>)
    ensures |r| == |matches| && multiset(r) == multiset(matches) && Descending(r)
    decreases |matches|
  {
    if matches == [] then []
    else
      assert matches == [matches[0]] + matches[1..];
      InsertPermutes(matches[0], Sorted(matches[1..]));
      InsertDescends(matches[0], Sorted(matches[1..]));
      Insert(matches[0], Sorted(matches[1..]))
  }

  function Matching(templates: seq<string>, path: string, mode: TrailingSlash): seq<Match>
    decreases |templates|
  {
    if templates == [] then []
    else
      var last := templates[|templates| - 1];
      var front := Matching(templates[..|templates| - 1], path, mode);
      if Score(last, path, mode).None? then front else front + [(Score(last, path, mode).value, last)]
  }

  predicate Documented(templates: seq<string>, path: string, mode: TrailingSlash, t: string) {
    t in templates && Score(t, path, mode).Some?
  }

  /** `t` is listed once and scores more than every other template that matches. */
  ghost predicate Best(templates: seq<string>, path: string, mode: TrailingSlash, t: string) {
    && Documented(templates, path, mode, t) && multiset(templates)[t] == 1
    && forall u :: Documented(templates, path, mode, u) && u != t ==>
         Greater(Score(t, path, mode).value, Score(u, path, mode).value)
  }

  lemma {:induction false} MatchingCounts(templates: seq<string>, path: string, mode: TrailingSlash, m: Match)
    ensures multiset(Matching(templates, path, mode))[m] ==
            if Score(m.1, path, mode) == Some(m.0) then multiset(templates)[m.1] else 0
    decreases |templates|
  {
    if templates != [] {
      var front, last := templates[..|templates| - 1], templates[|templates| - 1];
      assert templates == front + [last];
      MatchingCounts(front, path, mode, m);
    }
  }

  predicate ValidTarget(httpMethod: string, path: string) {
    httpMethod != "" && path != "" && '?' !in path && '#' !in path
  }

  /** The matches in descending order. */
  ghost predicate Ranked(templates: seq<string>, path: string, mode: TrailingSlash, sorted: seq<Match>) {
    && Descending(sorted)
    && forall m: Match ::
         multiset(sorted)[m] == if Score(m.1, path, mode) == Some(m.0) then multiset(templates)[m.1] else 0
  }

  lemma RankedHas(templates: seq<string>, path: string, mode: TrailingSlash, sorted: seq<Match>, t: string)
          returns (k: nat)
    requires Ranked(templates, path, mode, sorted) && Documented(templates, path, mode, t)
    ensures k < |sorted| && sorted[k] == (Score(t, path, mode).value, t)
  {
    var m: Match := (Score(t, path, mode).value, t);
    assert multiset(templates)[t] > 0;
    assert m in multiset(sorted);
    k :| 0 <= k < |sorted| && sorted[k] == m;
  }

  lemma RankedIsDocumented(templates: seq<string>, path: string, mode: TrailingSlash, sorted: seq<Match>, k: nat)
    requires Ranked(templates, path, mode, sorted) && k < |sorted|
    ensures Documented(templates, path, mode, sorted[k].1) && Score(sorted[k].1, path, mode) == Some(sorted[k].0)
  {
    assert sorted[k] in multiset(sorted);
  }

  lemma SharedScore(templates: seq<string>, path: string, mode: TrailingSlash, sorted: seq<Match>, t: string)
    requires Ranked(templates, path, mode, sorted) && |sorted| > 1 && sorted[0].0 == sorted[1].0
    ensures !Best(templates, path, mode, t)
  {
    hide Score, Greater;
    RankedIsDocumented(templates, path, mode, sorted, 0);
    RankedIsDocumented(templates, path, mode, sorted, 1);
    assert sorted == [sorted[0], sorted[1]] + sorted[2..];
    assert sorted[0] == sorted[1] ==> multiset(sorted)[sorted[0]] >= 2;
    if Best(templates, path, mode, t) {
      var k := RankedHas(templates, path, mode, sorted, t);
      GreaterIsTotal(sorted[0].0, sorted[k].0);
    }
  }

  lemma FirstIsBest(templates: seq<string>, path: string, mode: TrailingSlash, sorted: seq<Match>)
    requires Ranked(templates, path, mode, sorted) && sorted != [] && (|sorted| > 1 ==> sorted[0].0 != sorted[1].0)
    ensures Best(templates, path, mode, sorted[0].1)
  {
    hide Score, Greater, Codes;
    RankedIsDocumented(templates, path, mode, sorted, 0);
    forall j | 1 <= j < |sorted| ensures Greater(sorted[0].0, sorted[j].0) && sorted[j] != sorted[0] {
      assert NotBelow(sorted[0], sorted[1]);
      if j > 1 && Greater(sorted[1].0, sorted[j].0) {
        GreaterIsTransitive(sorted[0].0, sorted[1].0, sorted[j].0);
      }
      assert j == 1 || NotBelow(sorted[1], sorted[j]);
      GreaterIsTotal(sorted[0].0, sorted[j].0);
    }
    assert sorted == [sorted[0]] + sorted[1..];
    assert sorted[0] !in sorted[1..];
    assert multiset(sorted)[sorted[0]] == 1;
    forall u | Documented(templates, path, mode, u) && u != sorted[0].1
      ensures Greater(sorted[0].0, Score(u, path, mode).value)
    {
      var k := RankedHas(templates, path, mode, sorted, u);
    }
  }

  /** What match_openapi_path promises: the best template, an error without a match, an error when the best
      score is shared. */
  ghost predicate Answers(templates: seq<string>, httpMethod: string, path: string, mode: TrailingSlash,
                          result: Result<PathMatch, Error>) {
    if httpMethod == "" || path == "" || '?' in path || '#' in path then result == Err(InvalidTarget)
    else if forall t :: !Documented(templates, path, mode, t) then result == Err(NotDocumented)
    else if forall t :: !Best(templates, path, mode, t) then result == Err(Ambiguous)
    else
      && result.Ok? && Best(templates, path, mode, result.value.template)
      && result.value.httpMethod == Upper(httpMethod)
  }

  /** The outer loop: the templates that match, with their scores. */
  method CollectMatches(templates: seq<string>, path: string, mode: TrailingSlash) returns (matches: seq<Match>)
    ensures matches == Matching(templates, path, mode)
  {
    hide Score;
    matches := [];
    for i := 0 to |templates|
      invariant matches == Matching(templates[..i], path, mode)
    {
      var score := ScoreTemplate(templates[i], path, mode);
      assert templates[..i + 1][..i] == templates[..i];
      if score.Some? {
        matches := matches + [(score.value, templates[i])];
      }
    }
    assert templates[..|templates|] == templates;
  }

  lemma SortedIsRanked(templates: seq<string>, path: string, mode: TrailingSlash)
    ensures Ranked(templates, path, mode, Sorted(Matching(templates, path, mode)))
  {
    hide Sorted, Matching, Score, Descending;
    forall m: Match { MatchingCounts(templates, path, mode, m); }
  }

  lemma AnswerWithoutMatch(templates: seq<string>, httpMethod: string, path: string, mode: TrailingSlash)
    requires ValidTarget(httpMethod, path) && Ranked(templates, path, mode, [])
    ensures Answers(templates, httpMethod, path, mode, Err(NotDocumented))
  {
    hide Ranked, Score, Best;
    forall t ensures !Documented(templates, path, mode, t) {
      if Documented(templates, path, mode, t) {
        var k := RankedHas(templates, path, mode, [], t);
      }
    }
  }

  lemma AnswerWithSharedScore(templates: seq<string>, httpMethod: string, path: string, mode: TrailingSlash,
                              sorted: seq<Match>)
    requires ValidTarget(httpMethod, path) && Ranked(templates, path, mode, sorted)
    requires |sorted| > 1 && sorted[0].0 == sorted[1].0
    ensures Answers(templates, httpMethod, path, mode, Err(Ambiguous))
  {
    hide Ranked, Documented, Best;
    RankedIsDocumented(templates, path, mode, sorted, 0);
    forall t { SharedScore(templates, path, mode, sorted, t); }
  }

  lemma AnswerWithBest(templates: seq<string>, httpMethod: string, path: string, mode: TrailingSlash,
                       sorted: seq<Match>)
    requires ValidTarget(httpMethod, path) && Ranked(templates, path, mode, sorted)
    requires sorted != [] && (|sorted| > 1 ==> sorted[0].0 != sorted[1].0)
    ensures Answers(templates, httpMethod, path, mode, Ok(PathMatch(Upper(httpMethod), sorted[0].1)))
  {
    hide Ranked, Documented, Best;
    RankedIsDocumented(templates, path, mode, sorted, 0);
    FirstIsBest(templates, path, mode, sorted);
  }

  /** match_openapi_path */
  method MatchOpenApiPath(templates: seq<string>, httpMethod: string, path: string, mode: TrailingSlash)
    returns (result: Result<PathMatch, Error>)
    ensures Answers(templates, httpMethod, path, mode, result)
  {
    if !ValidTarget(httpMethod, path) {
      return Err(InvalidTarget);
    }
    hide *;
    var matches := CollectMatches(templates, path, mode);
    var sorted := Sorted(matches);
    SortedIsRanked(templates, path, mode);
    if matches == [] {
      AnswerWithoutMatch(templates, httpMethod, path, mode);
      return Err(NotDocumented);
    }
    if |sorted| > 1 && sorted[0].0 == sorted[1].0 {
      AnswerWithSharedScore(templates, httpMethod, path, mode, sorted);
      return Err(Ambiguous);
    }
    AnswerWithBest(templates, httpMethod, path, mode, sorted);
    return Ok(PathMatch(Upper(httpMethod), sorted[0].1));
  }

  /** The answer does not depend on the order in which the templates are listed, and there is only one. */
  lemma AnswerIgnoresOrder(a: seq<string>, b: seq<string>, httpMethod: string, path: string, mode: TrailingSlash,
                           x: Result<PathMatch, Error>, y: Result<PathMatch, Error>)
    requires multiset(a) == multiset(b)
    requires Answers(a, httpMethod, path, mode, x) && Answers(b, httpMethod, path, mode, y)
    ensures x == y
  {
    assert forall t :: t in a <==> t in multiset(a);
    assert forall t :: t in b <==> t in multiset(b);
    assert forall t :: Documented(a, path, mode, t) <==> Documented(b, path, mode, t);
    assert forall t :: Best(a, path, mode, t) <==> Best(b, path, mode, t);
    if x.Ok? && y.Ok? {
      var t, u := x.value.template, y.value.template;
      if t != u {
        GreaterIsTotal(Score(t, path, mode).value, Score(u, path, mode).value);
      }
    }
  }

  function Ones(n: nat): (r: seq<nat>)
    ensures |r| == n && forall i :: 0 <= i < n ==> r[i] == 1
  {
    if n == 0 then [] else Ones(n - 1) + [1]
  }

  lemma {:induction false} LiteralPieces(s: string)
    requires '{' !in s && '}' !in s
    ensures Pieces(s).Some? && !IsTemplated(Pieces(s).value)
    decreases |s|
  {
    if s != "" {
      assert s[0] in s;
      assert forall c :: c in s[1..] ==> c in s;
      LiteralPieces(s[1..]);
    }
  }

  lemma {:induction false} LiteralScores(segments: seq<string>)
    requires forall i :: 0 <= i < |segments| ==> '{' !in segments[i] && '}' !in segments[i]
    ensures SegmentScores(segments, segments) == Some(Ones(|segments|))
    decreases |segments|
  {
    if segments != [] {
      LiteralScores(segments[..|segments| - 1]);
      LiteralPieces(segments[|segments| - 1]);
    }
  }

  /** Scores are zeros and ones, and only the same literal segments score all ones. */
  lemma {:induction false} ScoresMean(expected: seq<string>, actual: seq<string>)
    requires |expected| == |actual| && SegmentScores(expected, actual).Some?
    ensures var scores := SegmentScores(expected, actual).value;
            && |scores| == |actual| && (forall i :: 0 <= i < |scores| ==> scores[i] <= 1)
            && (scores == Ones(|actual|) ==> expected == actual)
    decreases |expected|
  {
    if expected != [] {
      var n := |expected| - 1;
      ScoresMean(expected[..n], actual[..n]);
      assert expected == expected[..n] + [expected[n]] && actual == actual[..n] + [actual[n]];
      assert Ones(n + 1)[..n] == Ones(n);
      var scores := SegmentScores(expected, actual).value;
      assert scores[..n] == SegmentScores(expected[..n], actual[..n]).value;
      if scores == Ones(n + 1) {
        assert scores[n] == 1;
      }
    }
  }

  lemma {:induction false} OnesAreGreatest(ones: seq<nat>, scores: seq<nat>)
    requires |ones| == |scores| && scores != ones
    requires forall i :: 0 <= i < |scores| ==> scores[i] <= 1 == ones[i]
    ensures Greater(ones, scores)
    decreases |ones|
  {
    if scores[0] == 1 {
      assert ones == [1] + ones[1..] && scores == [1] + scores[1..];
      OnesAreGreatest(ones[1..], scores[1..]);
    }
  }

  /** A concrete template wins over every templated one (section 4.8.8.2). */
  lemma ConcreteTemplateWins(templates: seq<string>, path: string, mode: TrailingSlash, t: string)
    requires multiset(templates)[t] == 1 && Segments(t, mode) == Segments(path, mode)
    requires var segments := Segments(t, mode); forall i :: 0 <= i < |segments| ==>
             '{' !in segments[i] && '}' !in segments[i]
    requires forall u :: u in templates && u != t ==> Segments(u, mode) != Segments(path, mode)
    ensures Best(templates, path, mode, t)
  {
    var segments := Segments(path, mode);
    LiteralScores(segments);
    assert t in multiset(templates);
    forall u | Documented(templates, path, mode, u) && u != t
      ensures Greater(Score(t, path, mode).value, Score(u, path, mode).value)
    {
      ScoresMean(Segments(u, mode), segments);
      OnesAreGreatest(Ones(|segments|), Score(u, path, mode).value);
    }
  }
}
