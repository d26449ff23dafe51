/** The AEP challenge: the Service's printer, the Agent's parser, and a grammar between them.

    Main results: the parser succeeds exactly on the texts the grammar derives and returns their
    parameters (`ParserMeetsGrammar`); it recovers what the Service printed exactly when neither
    value holds a quote or a backslash (`ParserInvertsPrinter`). */
module Challenge {
  import opened Prelude
  import opened Text

  // ---- the parser ----

  /** The character classes of the Agent's parameter pattern: names, the blanks around "=", values. */
  datatype Class = Name | Pad | Value

  predicate In(c: char, class_: Class) {
    match class_
    case Name => 'a' <= c <= 'z' || 'A' <= c <= 'Z' || c == '_'
    case Pad => c == '\t' || c == ' '
    case Value => c != '\"' && c != '\\'
  }

  predicate All(s: string, class_: Class) {
    forall i :: 0 <= i < |s| ==> In(s[i], class_)
  }

  /** What a starred class takes from the front, and what it leaves. */
  function Head(s: string, class_: Class): string {
    if s == "" || !In(s[0], class_) then "" else [s[0]] + Head(s[1..], class_)
  }

  function Tail(s: string, class_: Class): (r: string)
    ensures |r| <= |s|
  {
    if s == "" || !In(s[0], class_) then s else Tail(s[1..], class_)
  }

  predicate Starts(s: string, c: char) { s != "" && s[0] == c }

  datatype Match = NoMatch | Match(name: string, value: string, rest: string)

  /** _PARAMETER.match, with the text after the match; no two adjacent classes of the pattern overlap, so
      it never backtracks. */
  function MatchParameter(s: string): (m: Match)
    ensures m.Match? ==> |m.rest| < |s|
  {
    var equals := Tail(Tail(s, Name), Pad);
    if Head(s, Name) == "" || !Starts(equals, '=') then NoMatch
    else
      var quote := Tail(equals[1..], Pad);
      if !Starts(quote, '\"') then NoMatch
      else
        var close := Tail(quote[1..], Value);
        if !Starts(close, '\"') then NoMatch else Match(Head(s, Name), Head(quote[1..], Value), close[1..])
  }

  lemma {:induction false} StripShrinks(s: string)
    ensures |Strip(s)| <= |s|
  {
    var l, r := StripSplits(s);
  }

  /** The loop of _challenge. */
  function Parse(remainder: string, parameters: map<string, string>): Option<map<string, string>>
    decreases |remainder|
  {
    if remainder == "" then Some(parameters)
    else
      match MatchParameter(remainder)
      case NoMatch => None
      case Match(name, value, after) =>
        if Lower(name) in parameters then None
        else
          var longer := parameters[Lower(name) := value];
          var rest := Strip(after);
          StripShrinks(after);
          if rest == "" then Some(longer)
          else if rest[0] != ',' then None
          else
            StripShrinks(rest[1..]);
            if Strip(rest[1..]) == "" then None else Parse(Strip(rest[1..]), longer)
  }

  predicate HasScheme(value: string) {
    |value| > 3 && Lower(value[..3]) == "aep" && In(value[3], Pad)
  }

  /** _challenge: the DID and the Inspect URL of a usable challenge. */
  function Read(status: int, value: string): Option<(string, string)> {
    if status != 401 || !HasScheme(value) then None
    else
      match Parse(Strip(value[3..]), map[])
      case None => None
      case Some(p) =>
        if "service_did" in p && "inspect" in p && p["service_did"] != "" && p["inspect"] != ""
        then Some((p["service_did"], p["inspect"])) else None
  }

  /** The loop itself. */
  method ReadChallenge(status: int, value: string) returns (challenge: Option<(string, string)>)
    ensures challenge == Read(status, value)
  {
    if status != 401 || !HasScheme(value) {
      return None;
    }
    var parameters: map<string, string> := map[];
    var remainder := Strip(value[3..]);
    while remainder != ""
      invariant Parse(remainder, parameters) == Parse(Strip(value[3..]), map[])
      decreases |remainder|
    {
      var matched := MatchParameter(remainder);
      if matched.NoMatch? || Lower(matched.name) in parameters {
        return None;
      }
      parameters := parameters[Lower(matched.name) := matched.value];
      StripShrinks(matched.rest);
      remainder := Strip(matched.rest);
      if remainder != "" {
        if remainder[0] != ',' {
          return None;
        }
        StripShrinks(remainder[1..]);
        remainder := Strip(remainder[1..]);
        if remainder == "" {
          return None;
        }
      }
    }
    if "service_did" in parameters && "inspect" in parameters && parameters["service_did"] != ""
        && parameters["inspect"] != "" {
      return Some((parameters["service_did"], parameters["inspect"]));
    }
    return None;
  }

  // ---- the grammar ----

  /** One quoted parameter (section 11.2 of RFC 9110) with the blanks around its "=", and the white
      space it may have towards the comma before it (`lead`) and after it (`trail`). */
  datatype Item = Item(lead: string, name: string, before: string, after: string, value: string, trail: string)
  {
    predicate WellFormed() {
      Blank(lead) && name != "" && All(name, Name) && All(before, Pad) && All(after, Pad) && All(value, Value)
          && Blank(trail)
    }

    /** The parameter's text, followed by `k`. */
    function Then(k: string): string {
      name + (before + ("=" + (after + ("\"" + (value + ("\"" + k))))))
    }
  }

  /** A comma-separated list of parameters. */
  function List(items: seq<Item>): string
    requires items != []
  {
    if |items| == 1 then items[0].Then("")
    else items[0].Then(items[0].trail + ("," + (items[1].lead + List(items[1..]))))
  }

  ghost predicate WellFormed(items: seq<Item>) {
    && (forall i :: 0 <= i < |items| ==> items[i].WellFormed())
    && (forall i, j :: 0 <= i < j < |items| ==> Lower(items[i].name) != Lower(items[j].name))
  }

  ghost predicate Derives(items: seq<Item>, t: string) {
    items != [] && WellFormed(items) && exists l, r :: Blank(l) && Blank(r) && t == l + List(items) + r
  }

  function Parameters(items: seq<Item>): map<string, string> {
    if items == [] then map[]
    else Parameters(items[1..])[Lower(items[0].name) := items[0].value]
  }

  lemma {:induction false} HeadOf(x: string, y: string, class_: Class)
    requires All(x, class_) && (y == "" || !In(y[0], class_))
    ensures Head(x + y, class_) == x && Tail(x + y, class_) == y
    decreases |x|
  {
    if x == "" {
      assert x + y == y;
    } else {
      assert (x + y)[1..] == x[1..] + y;
      HeadOf(x[1..], y, class_);
    }
  }

  lemma {:induction false} HeadAndTail(s: string, class_: Class)
    ensures s == Head(s, class_) + Tail(s, class_) && All(Head(s, class_), class_)
    ensures Tail(s, class_) == "" || !In(Tail(s, class_)[0], class_)
    decreases |s|
  {
    if s != "" && In(s[0], class_) {
      HeadAndTail(s[1..], class_);
      hide In;
      assert s == [s[0]] + s[1..];
    }
  }

  /** The pattern matches exactly the text of a well-formed parameter at the front. */
  lemma MatchesItem(item: Item, k: string)
    requires item.WellFormed()
    ensures MatchParameter(item.Then(k)) == Match(item.name, item.value, k)
  {
    var close := "\"" + k;
    var quote := "\"" + (item.value + close);
    var equals := "=" + (item.after + quote);
    PadThen(item.before, equals);
    HeadOf(item.name, item.before + equals, Name);
    HeadOf(item.before, equals, Pad);
    HeadOf(item.after, quote, Pad);
    HeadOf(item.value, close, Value);
    assert equals[1..] == item.after + quote && quote[1..] == item.value + close && close[1..] == k;
  }

  lemma PadThen(pad: string, equals: string)
    requires All(pad, Pad) && Starts(equals, '=')
    ensures pad + equals != "" && !In((pad + equals)[0], Name)
  {
  }

  lemma MatchGivesItem(s: string) returns (item: Item)
    requires MatchParameter(s).Match?
    ensures var m := MatchParameter(s);
            item.WellFormed() && item.name == m.name && item.value == m.value && s == item.Then(m.rest)
  {
    var afterName := Tail(s, Name);
    var equals := Tail(afterName, Pad);
    var quote := Tail(equals[1..], Pad);
    var close := Tail(quote[1..], Value);
    HeadAndTail(s, Name);
    HeadAndTail(afterName, Pad);
    HeadAndTail(equals[1..], Pad);
    HeadAndTail(quote[1..], Value);
    item := Item("", Head(s, Name), Head(afterName, Pad), Head(equals[1..], Pad), Head(quote[1..], Value), "");
    Reassembled(item, s, afterName, equals, quote, close);
  }

  lemma Reassembled(item: Item, s: string, afterName: string, equals: string, quote: string, close: string)
    requires Starts(equals, '=') && Starts(quote, '\"') && Starts(close, '\"')
    requires s == item.name + afterName && afterName == item.before + equals
    requires equals[1..] == item.after + quote && quote[1..] == item.value + close
    ensures s == item.Then(close[1..])
  {
    assert close == "\"" + close[1..];
    assert quote == "\"" + quote[1..];
    assert equals == "=" + equals[1..];
  }

  lemma ThenEnds(item: Item, k: string)
    requires item.WellFormed()
    ensures var s := item.Then(k); s != "" && !IsSpace(s[0]) && s[|s| - 1] == if k == "" then '\"' else k[|k| - 1]
  {
    assert item.Then(k)[0] == item.name[0] && In(item.name[0], Name);
    LastOfThen(item, k);
  }

  lemma LastOfThen(item: Item, k: string)
    ensures item.Then(k) != "" && item.Then(k)[|item.Then(k)| - 1] == if k == "" then '\"' else k[|k| - 1]
  {
    var close := "\"" + k;
    assert close[|close| - 1] == if k == "" then '\"' else k[|k| - 1];
    var a := item.value + close;
    assert a[|a| - 1] == close[|close| - 1];
    var b := item.after + ("\"" + a);
    assert b[|b| - 1] == a[|a| - 1];
  }

  lemma {:induction false} ListIsStripped(items: seq<Item>)
    requires items != [] && WellFormed(items)
    ensures List(items) != "" && !IsSpace(List(items)[0]) && List(items)[|List(items)| - 1] == '\"'
    decreases |items|
  {
    if |items| == 1 {
      ThenEnds(items[0], "");
    } else {
      ListIsStripped(items[1..]);
      var tail := items[1].lead + List(items[1..]);
      assert tail[|tail| - 1] == '\"';
      var k := items[0].trail + ("," + tail);
      assert k[|k| - 1] == tail[|tail| - 1];
      ThenEnds(items[0], k);
    }
  }

  lemma ParseLast(item: Item, seen: map<string, string>)
    requires item.WellFormed() && Lower(item.name) !in seen
    ensures Parse(item.Then(""), seen) == Some(seen[Lower(item.name) := item.value])
  {
    MatchesItem(item, "");
    ThenEnds(item, "");
    assert Strip("") == "";
  }

  lemma ParseMore(item: Item, trail: string, lead: string, next: string, seen: map<string, string>)
    requires item.WellFormed() && Lower(item.name) !in seen && Blank(trail) && Blank(lead)
    requires next != "" && !IsSpace(next[0]) && !IsSpace(next[|next| - 1])
    ensures Parse(item.Then(trail + ("," + (lead + next))), seen) == Parse(next, seen[Lower(item.name) := item.value])
  {
    var tail := lead + next;
    assert tail[|tail| - 1] == next[|next| - 1];
    MatchesItem(item, trail + ("," + tail));
    ThenEnds(item, trail + ("," + tail));
    StripsToComma(trail, tail);
    assert ("," + tail)[1..] == tail == lead + next + "";
    StripPadded(lead, next, "");
  }

  lemma ParametersOfRest(items: seq<Item>, seen: map<string, string>)
    requires items != [] && WellFormed(items)
    ensures seen[Lower(items[0].name) := items[0].value] + Parameters(items[1..]) == seen + Parameters(items)
  {
    RestIsWellFormed(items);
    NamesOf(items[1..], Lower(items[0].name));
  }

  lemma RestIsWellFormed(items: seq<Item>)
    requires items != [] && WellFormed(items)
    ensures WellFormed(items[1..])
    ensures forall i :: 0 <= i < |items[1..]| ==> Lower(items[1..][i].name) != Lower(items[0].name)
  {
    var rest := items[1..];
    assert forall i :: 0 <= i < |rest| ==> rest[i] == items[i + 1];
  }

  /** The parser reads any list the grammar derives. */
  lemma {:induction false} ParsesList(items: seq<Item>, seen: map<string, string>)
    requires items != [] && WellFormed(items)
    requires forall i :: 0 <= i < |items| ==> Lower(items[i].name) !in seen
    ensures Parse(List(items), seen) == Some(seen + Parameters(items))
    decreases |items|
  {
    var first, rest := items[0], items[1..];
    var longer := seen[Lower(first.name) := first.value];
    ParametersOfRest(items, seen);
    if |items| == 1 {
      ParseLast(first, seen);
      assert longer + Parameters(rest) == longer;
    } else {
      RestIsWellFormed(items);
      ListIsStripped(rest);
      ParseMore(first, first.trail, items[1].lead, List(rest), seen);
      forall i | 0 <= i < |rest| ensures Lower(rest[i].name) !in longer { assert rest[i] == items[i + 1]; }
      ParsesList(rest, longer);
    }
  }

  lemma StripsToComma(trail: string, tail: string)
    requires Blank(trail) && tail != "" && !IsSpace(tail[|tail| - 1])
    ensures Strip(trail + ("," + tail)) == "," + tail
  {
    var x := "," + tail;
    assert x[|x| - 1] == tail[|tail| - 1];
    assert trail + x + "" == trail + x;
    StripPadded(trail, x, "");
  }

  lemma {:induction false} NamesOf(items: seq<Item>, name: string)
    ensures name in Parameters(items) <==> exists i :: 0 <= i < |items| && Lower(items[i].name) == name
    decreases |items|
  {
    if items != [] {
      NamesOf(items[1..], name);
      if name in Parameters(items[1..]) {
        var i :| 0 <= i < |items[1..]| && Lower(items[1..][i].name) == name;
        assert items[i + 1] == items[1..][i];
      }
      if i :| 0 < i < |items| && Lower(items[i].name) == name {
        assert items[i] == items[1..][i - 1];
      }
    }
  }

  /** A text that does not end in white space is not followed by any. */
  lemma NothingTrails(x: string, y: string)
    requires Blank(y) && (x + y != "" ==> !IsSpace((x + y)[|x + y| - 1]))
    ensures y == ""
  {
    assert forall i :: |x| <= i < |x + y| ==> (x + y)[i] == y[i - |x|];
  }

  /** What follows the first parameter in a text the parser accepts: nothing, or a comma and a shorter
      accepted text, with white space around the comma. */
  lemma AfterFirst(s: string, after: string) returns (x: string, lead: string, next: string)
    requires after != "" && !IsSpace(after[|after| - 1]) && Starts(Strip(after), ',') && Strip(Strip(after)[1..]) != ""
    ensures Blank(x) && Blank(lead) && next == Strip(Strip(after)[1..])
    ensures after == x + ("," + (lead + next)) && !IsSpace(next[|next| - 1])
  {
    var rest := Strip(after);
    var y;
    x, y := StripSplits(after);
    NothingTrails(x + rest, y);
    assert after == x + rest && rest == "," + rest[1..];
    var z;
    lead, z := StripSplits(rest[1..]);
    next := Strip(rest[1..]);
    assert rest[1..][|rest[1..]| - 1] == rest[|rest| - 1];
    NothingTrails(lead + next, z);
  }

  /** Whatever the parser accepts is a list the grammar derives, with those parameters. */
  lemma {:induction false} ListParsed(s: string, seen: map<string, string>) returns (items: seq<Item>)
    requires s != "" && !IsSpace(s[|s| - 1]) && Parse(s, seen).Some?
    ensures items != [] && WellFormed(items) && s == List(items)
    ensures Parse(s, seen).value == seen + Parameters(items)
    ensures forall i :: 0 <= i < |items| ==> Lower(items[i].name) !in seen
    decreases |s|
  {
    var m := MatchParameter(s);
    var item := MatchGivesItem(s);
    var longer := seen[Lower(m.name) := m.value];
    LastOfThen(item, m.rest);
    if Strip(m.rest) == "" {
      var x, y := StripSplits(m.rest);
      NothingTrails("", m.rest);
      items := [item];
      assert Parameters(items) == map[Lower(m.name) := m.value];
    } else {
      var x, lead, next := AfterFirst(s, m.rest);
      StripShrinks(m.rest);
      StripShrinks(Strip(m.rest)[1..]);
      var more := ListParsed(next, longer);
      items := Prepended(item.(trail := x), lead, more);
      ExtendedParameters(item.(trail := x), lead, more, seen);
    }
  }

  function Prepended(item: Item, lead: string, more: seq<Item>): seq<Item>
    requires more != []
  {
    [item, more[0].(lead := lead)] + more[1..]
  }

  lemma ExtendedParameters(item: Item, lead: string, more: seq<Item>, seen: map<string, string>)
    requires item.WellFormed() && Blank(lead) && more != [] && WellFormed(more) && Lower(item.name) !in seen
    requires forall i :: 0 <= i < |more| ==> Lower(more[i].name) !in seen && Lower(more[i].name) != Lower(item.name)
    ensures var items := Prepended(item, lead, more);
            && WellFormed(items) && List(items) == item.Then(item.trail + ("," + (lead + List(more))))
            && seen[Lower(item.name) := item.value] + Parameters(more) == seen + Parameters(items)
            && forall i :: 0 <= i < |items| ==> Lower(items[i].name) !in seen
  {
    var items := Prepended(item, lead, more);
    var tail := [more[0].(lead := lead)] + more[1..];
    assert items[1..] == tail && tail[1..] == more[1..];
    PrependedIsWellFormed(item, lead, more);
    ParametersOfRest(items, seen);
    LeadIsOutside(lead, more);
    forall i | 0 <= i < |items| ensures Lower(items[i].name) !in seen {
      if i > 0 { assert Lower(items[i].name) == Lower(more[i - 1].name); }
    }
  }

  lemma LeadIsOutside(lead: string, more: seq<Item>)
    requires more != []
    ensures var tail := [more[0].(lead := lead)] + more[1..];
            List(tail) == List(more) && Parameters(tail) == Parameters(more)
  {
    var tail := [more[0].(lead := lead)] + more[1..];
    assert tail[1..] == more[1..];
    if |more| > 1 { assert tail[1] == more[1]; }
  }

  lemma PrependedIsWellFormed(item: Item, lead: string, more: seq<Item>)
    requires item.WellFormed() && Blank(lead) && more != [] && WellFormed(more)
    requires forall i :: 0 <= i < |more| ==> Lower(more[i].name) != Lower(item.name)
    ensures WellFormed(Prepended(item, lead, more))
  {
    var items := Prepended(item, lead, more);
    forall i | 0 < i < |items| ensures items[i].WellFormed() && Lower(items[i].name) == Lower(more[i - 1].name) {
      if i > 1 { assert items[i] == more[i - 1]; }
    }
  }

  /** On every text: the parser succeeds iff the text is blank or derived from distinct well-formed
      parameters, and then it returns exactly those. */
  lemma ParserMeetsGrammar(t: string, result: map<string, string>)
    ensures Parse(Strip(t), map[]) == Some(result) <==>
            (Blank(t) && result == map[]) || exists items :: Derives(items, t) && result == Parameters(items)
  {
    if Blank(t) { StripBlank(t); }
    var l, r := StripSplits(t);
    if Parse(Strip(t), map[]) == Some(result) && Strip(t) != "" {
      var items := ListParsed(Strip(t), map[]);
      assert Derives(items, t);
      assert result == Parameters(items);
    }
    forall items | Derives(items, t) ensures Parse(Strip(t), map[]) == Some(Parameters(items)) && !Blank(t) {
      ParsesDerivation(items, t);
    }
  }

  /** On every status and field value: the Agent finds a challenge if and only if the status is 401, the scheme is AEP
      in any case, and what follows is a list of distinct well-formed parameters among which service_did and inspect
      are given and not empty; and then it reports these two. */
  lemma ReadMeetsGrammar(status: int, value: string, did: string, inspect: string)
    ensures Read(status, value) == Some((did, inspect)) <==>
            && status == 401 && did != "" && inspect != ""
            && |value| > 3 && Lower(value[..3]) == "aep" && (value[3] == ' ' || value[3] == '\t')
            && exists items ::
                 && Derives(items, value[3..])
                 && "service_did" in Parameters(items) && Parameters(items)["service_did"] == did
                 && "inspect" in Parameters(items) && Parameters(items)["inspect"] == inspect
  {
    if HasScheme(value) {
      var t := value[3..];
      var parsed := Parse(Strip(t), map[]);
      hide Parse, Strip, Derives, Parameters, HasScheme;
      if parsed.Some? {
        ParserMeetsGrammar(t, parsed.value);
      }
      forall items | Derives(items, t) ensures parsed == Some(Parameters(items)) {
        ParserMeetsGrammar(t, Parameters(items));
      }
    }
  }

  lemma ParsesDerivation(items: seq<Item>, t: string)
    requires Derives(items, t)
    ensures Parse(Strip(t), map[]) == Some(Parameters(items)) && !Blank(t)
  {
    ParsesList(items, map[]);
    assert map[] + Parameters(items) == Parameters(items);
    ListIsStripped(items);
    forall l, r | Blank(l) && Blank(r) && t == l + List(items) + r ensures Strip(t) == List(items) && !Blank(t) {
      StripPadded(l, List(items), r);
      PaddedIsNotBlank(l, List(items), r);
    }
  }

  lemma PaddedIsNotBlank(l: string, x: string, r: string)
    requires x != "" && !IsSpace(x[0])
    ensures !Blank(l + x + r)
  {
    assert (l + x + r)[|l|] == x[0];
  }

  // ---- the printer ----

  function Quoted(name: string, value: string, k: string): string {
    name + ("=" + ("\"" + (value + ("\"" + k))))
  }

  /** The WWW-Authenticate value of _protected_problem. */
  function Printed(did: string, inspect: string, code: string): string {
    "AEP " + Quoted("service_did", did, "," + Quoted("inspect", inspect, "," + Quoted("reason", code, "")))
  }

  lemma {:induction false} ParseKeeps(remainder: string, seen: map<string, string>, name: string)
    requires name in seen && Parse(remainder, seen).Some?
    ensures name in Parse(remainder, seen).value && Parse(remainder, seen).value[name] == seen[name]
    decreases |remainder|
  {
    if remainder != "" {
      var m := MatchParameter(remainder);
      var rest := Strip(m.rest);
      StripShrinks(m.rest);
      if rest != "" {
        StripShrinks(rest[1..]);
        ParseKeeps(Strip(rest[1..]), seen[Lower(m.name) := m.value], name);
      }
    }
  }

  /** A value cut short by a quote or a backslash is not read back as itself. */
  lemma MatchQuoted(name: string, value: string, k: string)
    requires name != "" && All(name, Name)
    ensures var m := MatchParameter(Quoted(name, value, k));
            if All(value, Value) then m == Match(name, value, k)
            else m.Match? ==> m.name == name && m.value != value
  {
    var s := Quoted(name, value, k);
    var quote := "\"" + (value + ("\"" + k));
    var equals := "=" + quote;
    HeadOf(name, equals, Name);
    HeadOf("", equals, Pad);
    HeadOf("", quote, Pad);
    assert "" + equals == equals && "" + quote == quote;
    assert equals[1..] == quote && quote[1..] == value + ("\"" + k);
    if All(value, Value) {
      HeadOf(value, "\"" + k, Value);
      assert ("\"" + k)[1..] == k;
    } else {
      HeadStopsInside(value, "\"" + k);
    }
  }

  lemma {:induction false} HeadStopsInside(x: string, y: string)
    requires !All(x, Value)
    ensures |Head(x + y, Value)| < |x|
    decreases |x|
  {
    assert (x + y)[0] == x[0] && (x + y)[1..] == x[1..] + y;
    if In(x[0], Value) {
      assert !All(x[1..], Value) by {
        var i :| 0 <= i < |x| && !In(x[i], Value);
        assert x[1..][i - 1] == x[i];
      }
      HeadStopsInside(x[1..], y);
    }
  }

  lemma QuotedEnds(name: string, value: string, k: string)
    requires name != "" && All(name, Name) && (k != "" ==> k[|k| - 1] == '\"')
    ensures var s := Quoted(name, value, k); s != "" && !IsSpace(s[0]) && s[|s| - 1] == '\"'
  {
    LastOfThen(Item("", name, "", "", value, ""), k);
    assert Item("", name, "", "", value, "").Then(k) == Quoted(name, value, k) by {
      assert "" + ("\"" + (value + ("\"" + k))) == "\"" + (value + ("\"" + k));
      assert "" + ("=" + ("\"" + (value + ("\"" + k)))) == "=" + ("\"" + (value + ("\"" + k)));
    }
    assert In(name[0], Name);
  }

  /** One turn of the loop on a printed parameter that is followed by another one. */
  /** One turn of the loop, when a comma and a further parameter follow. */
  lemma ParseOne(s: string, seen: map<string, string>, name: string, value: string, after: string, next: string)
    requires s != "" && MatchParameter(s) == Match(name, value, after) && Lower(name) !in seen
    requires Strip(after) == "," + next && Strip(next) == next && next != ""
    ensures Parse(s, seen) == Parse(next, seen[Lower(name) := value])
  {
    hide MatchParameter, Strip, Lower;
    assert ("," + next)[1..] == next;
  }

  lemma ParseQuoted(name: string, value: string, next: string, seen: map<string, string>)
    requires name != "" && All(name, Name) && All(value, Value) && Lower(name) !in seen
    requires next != "" && !IsSpace(next[0]) && next[|next| - 1] == '\"'
    ensures Parse(Quoted(name, value, "," + next), seen) == Parse(next, seen[Lower(name) := value])
  {
    var k := "," + next;
    assert k[|k| - 1] == '\"' && !IsSpace(k[0]);
    hide *;
    MatchQuoted(name, value, k);
    QuotedEnds(name, value, k);
    StripFixed(k);
    StripFixed(next);
    ParseOne(Quoted(name, value, k), seen, name, value, k, next);
  }

  lemma StripFixed(x: string)
    requires x != "" && !IsSpace(x[0]) && !IsSpace(x[|x| - 1])
    ensures Strip(x) == x
  {
    hide Strip;
    StripPadded("", x, "");
    assert "" + x + "" == x;
  }

  lemma ParseLastQuoted(name: string, value: string, seen: map<string, string>)
    requires name != "" && All(name, Name) && All(value, Value) && Lower(name) !in seen
    ensures Parse(Quoted(name, value, ""), seen) == Some(seen[Lower(name) := value])
  {
    MatchQuoted(name, value, "");
    QuotedEnds(name, value, "");
    assert Strip("") == "";
  }

  /** A printed value that is not quotable is not what the parser reports for its name. */
  lemma UnquotableIsNotRead(name: string, value: string, k: string, seen: map<string, string>)
    requires name != "" && All(name, Name) && !All(value, Value) && Lower(name) !in seen
    ensures var p := Parse(Quoted(name, value, k), seen);
            p.Some? ==> Lower(name) in p.value && p.value[Lower(name)] != value
  {
    var s := Quoted(name, value, k);
    MatchQuoted(name, value, k);
    assert s[0] == name[0];
    var m := MatchParameter(s);
    if Parse(s, seen).Some? {
      var longer := seen[Lower(m.name) := m.value];
      var rest := Strip(m.rest);
      if rest != "" { ParseKeeps(Strip(rest[1..]), longer, Lower(name)); }
    }
  }

  predicate Plain(name: string) {
    name != "" && forall i :: 0 <= i < |name| ==> 'a' <= name[i] <= 'z' || name[i] == '_'
  }

  lemma PlainNames(name: string)
    requires Plain(name)
    ensures All(name, Name) && Lower(name) == name
  {
    assert forall i :: 0 <= i < |name| ==> Lower(name)[i] == name[i];
  }

  lemma ReadsTwo(b: string, c: string, y: string, z: string, seen: map<string, string>)
    requires Plain(b) && Plain(c) && b != c && b !in seen && c !in seen && All(z, Value)
    ensures var s := Quoted(b, y, "," + Quoted(c, z, ""));
            var p := Parse(s, seen);
            && s != "" && !IsSpace(s[0]) && s[|s| - 1] == '\"'
            && if All(y, Value) then p == Some(seen[b := y][c := z]) else p.Some? ==> b in p.value && p.value[b] != y
  {
    PlainNames(b);
    PlainNames(c);
    var third := Quoted(c, z, "");
    QuotedEnds(c, z, "");
    assert ("," + third)[|"," + third| - 1] == '\"';
    QuotedEnds(b, y, "," + third);
    if All(y, Value) {
      ParseQuoted(b, y, third, seen);
      ParseLastQuoted(c, z, seen[b := y]);
    } else {
      UnquotableIsNotRead(b, y, "," + third, seen);
    }
  }

  lemma ReadsThree(a: string, b: string, c: string, x: string, y: string, z: string)
    requires Plain(a) && Plain(b) && Plain(c) && a != b && a != c && b != c && All(z, Value)
    ensures var s := Quoted(a, x, "," + Quoted(b, y, "," + Quoted(c, z, "")));
            var p := Parse(s, map[]);
            && s != "" && !IsSpace(s[0]) && s[|s| - 1] == '\"'
            && if All(x, Value) && All(y, Value) then p == Some(map[a := x, b := y, c := z])
               else p.Some? ==> !(a in p.value && b in p.value && p.value[a] == x && p.value[b] == y)
  {
    PlainNames(a);
    var second := Quoted(b, y, "," + Quoted(c, z, ""));
    ReadsTwo(b, c, y, z, map[a := x]);
    assert ("," + second)[|"," + second| - 1] == '\"';
    QuotedEnds(a, x, "," + second);
    assert map[][a := x] == map[a := x];
    if All(x, Value) {
      ParseQuoted(a, x, second, map[]);
    } else {
      UnquotableIsNotRead(a, x, "," + second, map[]);
    }
  }

  lemma SchemeOf(rest: string)
    ensures HasScheme("AEP " + rest) && ("AEP " + rest)[3..] == " " + rest
  {
    var s := "AEP " + rest;
    assert s[..3] == "AEP" && |Lower("AEP")| == 3;
    assert Lower("AEP")[0] == 'a' && Lower("AEP")[1] == 'e' && Lower("AEP")[2] == 'p';
    assert Lower("AEP") == "aep";
  }

  /** The Agent recovers the DID and the Inspect URL the Service printed exactly when both are non-empty
      and neither holds a quote or a backslash, which the printer does not escape. */
  lemma ParserInvertsPrinter(did: string, inspect: string, code: string)
    requires All(code, Value)
    ensures Read(401, Printed(did, inspect, code)) == Some((did, inspect)) <==>
            did != "" && inspect != "" && All(did, Value) && All(inspect, Value)
  {
    var s := Quoted("service_did", did, "," + Quoted("inspect", inspect, "," + Quoted("reason", code, "")));
    ReadsThree("service_did", "inspect", "reason", did, inspect, code);
    SchemeOf(s);
    StripPadded(" ", s, "");
    assert " " + s + "" == " " + s;
  }
}
