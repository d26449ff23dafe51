/** Python's string operations, as far as the printers and parsers here use them. */
module Text {
  import opened Prelude

  /** str.isspace */
  predicate IsSpace(c: char) {
    var n := c as int;
    9 <= n <= 13 || 28 <= n <= 32 || n == 0x85 || n == 0xA0 || n == 0x1680 || 0x2000 <= n <= 0x200A
    || n == 0x2028 || n == 0x2029 || n == 0x202F || n == 0x205F || n == 0x3000
  }

  /** str.lower on ASCII letters; other characters are left alone. */
  function LowerChar(c: char): char {
    if 'A' <= c <= 'Z' then c - 'A' + 'a' else c
  }

  function Lower(s: string): (r: string)
    ensures |r| == |s| && forall i :: 0 <= i < |s| ==> r[i] == LowerChar(s[i])
  {
    if s == "" then "" else [LowerChar(s[0])] + Lower(s[1..])
  }

  /** str.upper on ASCII letters */
  function Upper(s: string): (r: string)
    ensures |r| == |s| && forall i :: 0 <= i < |s| ==>
              (if 'a' <= s[i] <= 'z' then 'A' <= r[i] <= 'Z' && LowerChar(r[i]) == s[i] else r[i] == s[i])
  {
    if s == "" then "" else [if 'a' <= s[0] <= 'z' then s[0] - 'a' + 'A' else s[0]] + Upper(s[1..])
  }

  predicate Blank(s: string) {
    forall i :: 0 <= i < |s| ==> IsSpace(s[i])
  }

  function StripLeft(s: string): string {
    if s != "" && IsSpace(s[0]) then StripLeft(s[1..]) else s
  }

  function StripRight(s: string): string {
    if s != "" && IsSpace(s[|s| - 1]) then StripRight(s[..|s| - 1]) else s
  }

  /** str.strip */
  function Strip(s: string): string {
    StripRight(StripLeft(s))
  }

  lemma {:induction false} StripLeftSkips(l: string, x: string)
    requires Blank(l)
    ensures StripLeft(l + x) == StripLeft(x)
    decreases |l|
  {
    if l == "" {
      assert l + x == x;
    } else {
      assert (l + x)[1..] == l[1..] + x;
      StripLeftSkips(l[1..], x);
    }
  }

  lemma {:induction false} StripRightSkips(x: string, r: string)
    requires Blank(r)
    ensures StripRight(x + r) == StripRight(x)
    decreases |r|
  {
    if r == "" {
      assert x + r == x;
    } else {
      assert (x + r)[..|x + r| - 1] == x + r[..|r| - 1];
      StripRightSkips(x, r[..|r| - 1]);
    }
  }

  lemma {:induction false} StripLeftSplits(s: string) returns (l: string)
    ensures s == l + StripLeft(s) && Blank(l)
    ensures StripLeft(s) != "" ==> !IsSpace(StripLeft(s)[0])
    decreases |s|
  {
    if s != "" && IsSpace(s[0]) {
      l := StripLeftSplits(s[1..]);
      l := [s[0]] + l;
    } else {
      l := "";
    }
  }

  lemma {:induction false} StripRightSplits(s: string) returns (r: string)
    ensures s == StripRight(s) + r && Blank(r)
    ensures StripRight(s) != "" ==> !IsSpace(StripRight(s)[|StripRight(s)| - 1])
    decreases |s|
  {
    if s != "" && IsSpace(s[|s| - 1]) {
      r := StripRightSplits(s[..|s| - 1]);
      assert s == StripRight(s) + (r + [s[|s| - 1]]);
      r := r + [s[|s| - 1]];
    } else {
      r := "";
    }
  }

  /** Stripping removes white space from both ends. */
  lemma StripSplits(s: string) returns (l: string, r: string)
    ensures s == l + Strip(s) + r && Blank(l) && Blank(r)
    ensures Strip(s) != "" ==> !IsSpace(Strip(s)[0]) && !IsSpace(Strip(s)[|Strip(s)| - 1])
  {
    l := StripLeftSplits(s);
    r := StripRightSplits(StripLeft(s));
  }

  /** Text that neither begins nor ends with white space is what is left of any padding of it. */
  lemma StripPadded(l: string, x: string, r: string)
    requires Blank(l) && Blank(r) && x != "" && !IsSpace(x[0]) && !IsSpace(x[|x| - 1])
    ensures Strip(l + x + r) == x
  {
    assert l + x + r == l + (x + r);
    StripLeftSkips(l, x + r);
    StripRightSkips(x, r);
  }

  lemma StripBlank(s: string)
    requires Blank(s)
    ensures Strip(s) == ""
  {
    StripLeftSkips(s, "");
    assert s + "" == s;
  }

  /** str.split on one character */
  function Split(s: string, sep: char): (r: seq<string>)
    ensures r != []
  {
    if s == "" then [""]
    else
      var rest := Split(s[1..], sep);
      if s[0] == sep then [""] + rest else [[s[0]] + rest[0]] + rest[1..]
  }

  /** str.join with one character */
  function Join(parts: seq<string>, sep: char): string
    decreases |parts|
  {
    if parts == [] then ""
    else if |parts| == 1 then parts[0]
    else parts[0] + [sep] + Join(parts[1..], sep)
  }

  lemma {:induction false} SplitHead(part: string, rest: string, sep: char)
    requires sep !in part
    ensures Split(part + [sep] + rest, sep) == [part] + Split(rest, sep)
    decreases |part|
  {
    var s := part + [sep] + rest;
    if part == "" {
      assert s[1..] == rest;
    } else {
      assert s[1..] == part[1..] + [sep] + rest;
      SplitHead(part[1..], rest, sep);
      assert [s[0]] + part[1..] == part;
    }
  }

  lemma {:induction false} SplitWhole(part: string, sep: char)
    requires sep !in part
    ensures Split(part, sep) == [part]
    decreases |part|
  {
    if part != "" {
      SplitWhole(part[1..], sep);
      assert [part[0]] + part[1..] == part;
    }
  }

  /** Splitting undoes joining when no part contains the separator. */
  lemma {:induction false} SplitUndoesJoin(parts: seq<string>, sep: char)
    requires parts != [] && forall i :: 0 <= i < |parts| ==> sep !in parts[i]
    ensures Split(Join(parts, sep), sep) == parts
    decreases |parts|
  {
    if |parts| == 1 {
      SplitWhole(parts[0], sep);
    } else {
      SplitUndoesJoin(parts[1..], sep);
      SplitHead(parts[0], Join(parts[1..], sep), sep);
    }
  }

  /** The text before the first `c`, all of it when there is none (str.partition). */
  function Before(s: string, c: char): string {
    if s == "" || s[0] == c then "" else [s[0]] + Before(s[1..], c)
  }

  /** The text after the first `c`, None when there is none. */
  function After(s: string, c: char): Option<string> {
    if s == "" then None else if s[0] == c then Some(s[1..]) else After(s[1..], c)
  }

  lemma {:induction false} PartitionJoins(s: string, c: char)
    ensures c !in Before(s, c)
    ensures s == Before(s, c) + match After(s, c) case Some(rest) => [c] + rest case None => ""
  {
    if s != "" && s[0] != c {
      PartitionJoins(s[1..], c);
      assert s == [s[0]] + s[1..];
    }
  }

  lemma {:induction false} PartitionAt(head: string, c: char, rest: string)
    requires c !in head
    ensures Before(head + [c] + rest, c) == head && After(head + [c] + rest, c) == Some(rest)
    ensures Before(head, c) == head && After(head, c) == None
  {
    var s := head + [c] + rest;
    if head == "" {
      assert s == [c] + rest;
    } else {
      assert s[1..] == head[1..] + [c] + rest;
      PartitionAt(head[1..], c, rest);
      assert head == [head[0]] + head[1..];
    }
  }

  // ---- where the pieces of a split stand ----

  /** The item stands between separators, or at an end of the text. */
  ghost predicate StandsIn(s: string, sep: char, front: string, item: string, back: string) {
    && s == front + item + back && sep !in item
    && (front == "" || front[|front| - 1] == sep) && (back == "" || back[0] == sep)
  }

  lemma StandsLater(c: char, s: string, sep: char, front: string, item: string, back: string)
    requires StandsIn(s, sep, front, item, back)
    ensures front != "" || c == sep ==> StandsIn([c] + s, sep, [c] + front, item, back)
    ensures front == "" && c != sep ==> StandsIn([c] + s, sep, "", [c] + item, back)
  {
    assert [c] + s == ([c] + front) + item + back;
    assert front == "" ==> [c] + s == "" + ([c] + item) + back;
  }

  /** What one more character does to the pieces of the rest. */
  function OneMore(c: char, sep: char, pieces: seq<string>): seq<string>
    requires pieces != []
  {
    if c == sep then [""] + pieces else [[c] + pieces[0]] + pieces[1..]
  }

  lemma SplitStep(c: char, rest: string, sep: char)
    ensures Split([c] + rest, sep) == OneMore(c, sep, Split(rest, sep))
  {
    assert ([c] + rest)[1..] == rest;
  }

  lemma LaterPiece(c: char, sep: char, pieces: seq<string>, k: nat)
    requires pieces != [] && k < |OneMore(c, sep, pieces)| && (c == sep ==> k > 0)
    ensures var all, j := OneMore(c, sep, pieces), if c == sep then k - 1 else k;
            && j < |pieces| && (k == |all| - 1 <==> j == |pieces| - 1) && all[k + 1..] == pieces[j + 1..]
            && all[k] == if k == 0 then [c] + pieces[0] else pieces[j]
  {
  }

  lemma {:induction false} PieceStands(s: string, sep: char, k: nat) returns (front: string, back: string)
    requires k < |Split(s, sep)|
    ensures StandsIn(s, sep, front, Split(s, sep)[k], back) && (k == 0 <==> front == "")
    ensures if k == |Split(s, sep)| - 1 then back == ""
            else back != "" && Split(back[1..], sep) == Split(s, sep)[k + 1..]
    decreases |s|
  {
    front, back := "", "";
    if s != "" {
      var c, rest := s[0], s[1..];
      assert s == [c] + rest;
      SplitStep(c, rest, sep);
      hide Split;
      if c == sep && k == 0 {
        back := s;
        assert s == "" + "" + s;
      } else {
        hide StandsIn, OneMore;
        var j := if c == sep then k - 1 else k;
        LaterPiece(c, sep, Split(rest, sep), k);
        front, back := PieceStands(rest, sep, j);
        StandsLater(c, rest, sep, front, Split(rest, sep)[j], back);
        front := if k == 0 then front else [c] + front;
      }
    }
  }

  lemma {:induction false} SplitAppend(a: string, b: string, sep: char)
    ensures Split(a + [sep] + b, sep) == Split(a, sep) + Split(b, sep)
    decreases |a|
  {
    var s := a + [sep] + b;
    if a == "" {
      assert s[1..] == b;
    } else {
      assert s[1..] == a[1..] + [sep] + b;
      SplitAppend(a[1..], b, sep);
    }
  }

  /** What stands between separators is one of the pieces, and the pieces after it are those of the text after it. */
  lemma StandingIsPiece(s: string, sep: char, front: string, item: string, back: string) returns (k: nat)
    requires StandsIn(s, sep, front, item, back)
    ensures k < |Split(s, sep)| && Split(s, sep)[k] == item
    ensures Split(s, sep)[k + 1..] == if back == "" then [] else Split(back[1..], sep)
  {
    SplitWhole(item, sep);
    hide Split;
    var tail := item + back;
    if back != "" {
      assert tail == item + [sep] + back[1..];
      SplitAppend(item, back[1..], sep);
    } else {
      assert tail == item;
    }
    if front == "" {
      assert s == tail;
      k := 0;
    } else {
      var head := front[..|front| - 1];
      assert s == head + [sep] + tail;
      SplitAppend(head, tail, sep);
      k := |Split(head, sep)|;
    }
  }
}
