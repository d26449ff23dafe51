/** Authorization field values: how the Agent prints them, how the Service reads them back, and which one of
    several it takes. Field values are text of at most one octet per character. */
module Authorization {
  import opened Prelude
  import opened Text

  datatype Carrier = Standard | Dedicated

  datatype Scheme = Aep | Bearer | Basic

  datatype Authorization = Authorization(carrier: Carrier, scheme: Scheme, credentials: string)

  datatype Error = EmptyCredentials | InvisibleCredentials

  function SchemeName(s: Scheme): string {
    match s
    case Aep => "AEP"
    case Bearer => "Bearer"
    case Basic => "Basic"
  }

  function SchemeKey(s: Scheme): string {
    match s
    case Aep => "aep"
    case Bearer => "bearer"
    case Basic => "basic"
  }

  function SchemeNamed(word: string): (s: Option<Scheme>)
    ensures s.Some? <==> exists scheme :: Lower(word) == SchemeKey(scheme)
    ensures s.Some? ==> Lower(word) == SchemeKey(s.value)
  {
    if Lower(word) == SchemeKey(Aep) then Some(Aep)
    else if Lower(word) == SchemeKey(Bearer) then Some(Bearer)
    else if Lower(word) == SchemeKey(Basic) then Some(Basic)
    else None
  }

  lemma KeysDiffer(a: Scheme, b: Scheme)
    ensures SchemeKey(a) == SchemeKey(b) <==> a == b
  {
    assert SchemeKey(Aep)[0] == 'a' && |SchemeKey(Bearer)| == 6 && |SchemeKey(Basic)| == 5;
  }

  predicate IsOws(c: char) { c == ' ' || c == '\t' }

  predicate AllOws(s: string) { forall i :: 0 <= i < |s| ==> IsOws(s[i]) }

  predicate NoOws(s: string) { forall i :: 0 <= i < |s| ==> !IsOws(s[i]) }

  predicate IsVisible(s: string) { forall i :: 0 <= i < |s| ==> '!' <= s[i] <= '~' }

  /** The text before the first blank. */
  function Word(s: string): (w: string)
    ensures |w| <= |s| && w == s[..|w|] && NoOws(w) && (|w| < |s| ==> IsOws(s[|w|]))
  {
    if s == "" || IsOws(s[0]) then "" else [s[0]] + Word(s[1..])
  }

  /** The blanks at the start. */
  function Gap(s: string): (g: string)
    ensures |g| <= |s| && g == s[..|g|] && AllOws(g) && (|g| < |s| ==> !IsOws(s[|g|]))
  {
    if s != "" && IsOws(s[0]) then [s[0]] + Gap(s[1..]) else ""
  }

  lemma {:induction false} WordOf(w: string, rest: string)
    requires NoOws(w) && (rest != "" ==> IsOws(rest[0]))
    ensures Word(w + rest) == w
    decreases |w|
  {
    if w == "" {
      assert w + rest == rest;
    } else {
      assert (w + rest)[1..] == w[1..] + rest;
      WordOf(w[1..], rest);
    }
  }

  lemma {:induction false} GapOf(g: string, rest: string)
    requires AllOws(g) && (rest != "" ==> !IsOws(rest[0]))
    ensures Gap(g + rest) == g
    decreases |g|
  {
    if g == "" {
      assert g + rest == rest;
    } else {
      assert (g + rest)[1..] == g[1..] + rest;
      GapOf(g[1..], rest);
    }
  }

  /** parse_authorization; None stands for AepAuthorizationError. */
  function Parse(value: string, carrier: Carrier): (a: Option<Authorization>)
    ensures a.Some? ==> a.value.carrier == carrier
  {
    if carrier.Dedicated? && ',' in value then None
    else
      var word := Word(value);
      var gap := Gap(value[|word|..]);
      var rest := value[|word|..][|gap|..];
      var credentials := Word(rest);
      if SchemeNamed(word).None? || gap == "" || credentials == "" || !IsVisible(credentials)
         || !AllOws(rest[|credentials|..]) then None
      else Some(Authorization(carrier, SchemeNamed(word).value, credentials))
  }

  /** A field value spelled as the grammar has it: a scheme in any case, blanks, credentials, blanks. */
  predicate Spells(value: string, word: string, gap: string, tail: string, a: Authorization) {
    && value == word + gap + a.credentials + tail
    && Lower(word) == SchemeKey(a.scheme) && NoOws(word)
    && gap != "" && AllOws(gap) && AllOws(tail)
    && a.credentials != "" && IsVisible(a.credentials)
  }

  lemma ParseAccepts(value: string, word: string, gap: string, tail: string, a: Authorization)
    requires Spells(value, word, gap, tail, a) && (a.carrier.Dedicated? ==> ',' !in value)
    ensures Parse(value, a.carrier) == Some(a)
  {
    assert NoOws(a.credentials);
    assert value == word + (gap + (a.credentials + tail));
    WordOf(word, gap + (a.credentials + tail));
    assert value[|word|..] == gap + (a.credentials + tail);
    GapOf(gap, a.credentials + tail);
    assert value[|word|..][|gap|..] == a.credentials + tail;
    WordOf(a.credentials, tail);
    assert (a.credentials + tail)[|a.credentials|..] == tail;
    KeysDiffer(a.scheme, SchemeNamed(word).value);
  }

  /** A text in which a word, blanks, and a second word follow each other. */
  lemma Reassembled(value: string, word: string, gap: string, credentials: string)
    requires |word| <= |value| && word == value[..|word|]
    requires var rest := value[|word|..]; |gap| <= |rest| && gap == rest[..|gap|]
    requires var rest := value[|word|..][|gap|..]; |credentials| <= |rest| && credentials == rest[..|credentials|]
    ensures value == word + gap + credentials + value[|word|..][|gap|..][|credentials|..]
  {
    var rest := value[|word|..];
    assert value == word + rest && rest == gap + rest[|gap|..];
    assert rest[|gap|..] == credentials + rest[|gap|..][|credentials|..];
    assert word + (gap + (credentials + rest[|gap|..][|credentials|..]))
        == word + gap + credentials + rest[|gap|..][|credentials|..];
  }

  lemma ParsedParts(value: string, a: Authorization)
    requires Parse(value, a.carrier) == Some(a)
    ensures var word := Word(value);
            var gap := Gap(value[|word|..]);
            var rest := value[|word|..][|gap|..];
            && Lower(word) == SchemeKey(a.scheme) && gap != "" && a.credentials == Word(rest) && a.credentials != ""
            && IsVisible(a.credentials) && AllOws(rest[|a.credentials|..])
  {
    hide Word, Gap, Lower, SchemeNamed, SchemeKey, IsVisible, AllOws, NoOws;
  }

  lemma ParsedSpells(value: string, a: Authorization) returns (word: string, gap: string, tail: string)
    requires Parse(value, a.carrier) == Some(a)
    ensures Spells(value, word, gap, tail, a)
  {
    hide Parse, Word, Gap, Lower, SchemeKey, IsVisible, AllOws, NoOws;
    ParsedParts(value, a);
    word := Word(value);
    gap := Gap(value[|word|..]);
    tail := value[|word|..][|gap|..][|a.credentials|..];
    Reassembled(value, word, gap, a.credentials);
  }

  /** The parser accepts exactly what the grammar spells, and on the dedicated field nothing with a comma. */
  lemma ParserMeetsGrammar(value: string, a: Authorization)
    ensures Parse(value, a.carrier) == Some(a) <==>
            && (a.carrier.Dedicated? ==> ',' !in value)
            && exists word, gap, tail :: Spells(value, word, gap, tail, a)
  {
    assert Parse(value, a.carrier).Some? && a.carrier.Dedicated? ==> ',' !in value;
    hide Parse, Spells;
    if Parse(value, a.carrier) == Some(a) {
      var word, gap, tail := ParsedSpells(value, a);
    } else if word, gap, tail :| Spells(value, word, gap, tail, a) {
      if a.carrier.Dedicated? ==> ',' !in value {
        ParseAccepts(value, word, gap, tail, a);
      }
    }
  }

  /** render_authorization: the name and the value of the field. */
  function Render(a: Authorization): Result<(string, string), Error> {
    if a.credentials == "" then Err(EmptyCredentials)
    else if !IsVisible(a.credentials) then Err(InvisibleCredentials)
    else
      var name := if a.carrier.Dedicated? then "AEP-Authorization" else "Authorization";
      Ok((name, SchemeName(a.scheme) + " " + a.credentials))
  }

  lemma NameIsKey(s: Scheme)
    ensures Lower(SchemeName(s)) == SchemeKey(s) && NoOws(SchemeName(s)) && ',' !in SchemeName(s)
  {
  }

  /** Whatever the Agent renders is read back as it was, except that credentials with a comma cannot travel in
      the dedicated field. */
  lemma RenderRoundTrip(a: Authorization)
    requires Render(a).Ok?
    ensures Parse(Render(a).value.1, a.carrier) ==
            if a.carrier.Dedicated? && ',' in a.credentials then None else Some(a)
  {
    var name, value := SchemeName(a.scheme), Render(a).value.1;
    NameIsKey(a.scheme);
    hide Lower, SchemeName, SchemeKey;
    assert value == name + " " + a.credentials + "";
    assert ',' in value <==> ',' in a.credentials;
    if !(a.carrier.Dedicated? && ',' in a.credentials) {
      ParseAccepts(value, name, " ", "", a);
    }
  }

  // ---- choosing one ----

  predicate Recognized(value: string) { Parse(value, Standard).Some? }

  predicate NamesAepScheme(value: string) { SchemeNamed(Word(value)).Some? }

  function Recognizable(values: seq<string>): (r: seq<string>)
    ensures forall i :: 0 <= i < |r| ==> Recognized(r[i]) && r[i] in values
  {
    if values == [] then []
    else (if Recognized(values[0]) then [values[0]] else []) + Recognizable(values[1..])
  }

  /** _select_presentation on the values of the dedicated and of the standard field: what is presented, and
      whether that is beyond doubt. */
  function SelectPresentation(dedicated: seq<string>, standard: seq<string>): (Option<Authorization>, bool) {
    if dedicated != [] then
      if |dedicated| != 1 then (None, false)
      else
        var selected := Parse(dedicated[0], Dedicated);
        if selected.None? || (exists value :: value in standard && Recognized(value)) then (None, false)
        else (selected, true)
    else if exists value :: value in standard && NamesAepScheme(value) && !Recognized(value) then (None, false)
    else
      var recognized := Recognizable(standard);
      if |recognized| > 1 || (recognized != [] && |standard| > 1) then (None, false)
      else if recognized == [] then (None, true)
      else (Parse(recognized[0], Standard), true)
  }

  /** How many of the values of a field are AEP presentations. */
  function Presentations(values: seq<string>, carrier: Carrier): (n: nat)
    ensures n <= |values|
  {
    if values == [] then 0
    else (if Parse(values[0], carrier).Some? then 1 else 0) + Presentations(values[1..], carrier)
  }

  lemma {:induction false} PresentationsCount(values: seq<string>, carrier: Carrier)
    ensures Presentations(values, carrier) == 0 <==> forall value :: value in values ==> Parse(value, carrier).None?
    ensures carrier.Standard? ==> Presentations(values, carrier) == |Recognizable(values)|
  {
    if values != [] {
      PresentationsCount(values[1..], carrier);
      assert values == [values[0]] + values[1..];
    }
  }

  /** The selection is beyond doubt only if at most one value in the two fields is a presentation, and then
      selects it. One is enough only alone in its field, with nothing in the dedicated field beside it; none is
      enough only if no value merely claims to be one. */
  lemma SelectionIsUnambiguous(dedicated: seq<string>, standard: seq<string>)
    ensures var (selected, sure) := SelectPresentation(dedicated, standard);
            var n := Presentations(dedicated, Dedicated) + Presentations(standard, Standard);
            && (sure ==> n <= 1 && (selected.Some? <==> n == 1))
            && (!sure ==> selected.None?)
            && (n == 0 ==> (sure <==> dedicated == [] && forall value :: value in standard ==> !NamesAepScheme(value)))
            && (n == 1 ==> (sure <==> if Presentations(dedicated, Dedicated) == 1 then |dedicated| == 1
                                      else dedicated == [] && |standard| == 1))
            && (selected.Some? ==>
                  if selected.value.carrier.Dedicated?
                  then |dedicated| == 1 && Parse(dedicated[0], Dedicated) == selected
                  else |standard| == 1 && Parse(standard[0], Standard) == selected)
  {
    if dedicated != [] {
      DedicatedSelection(dedicated, standard);
    } else {
      StandardSelection(standard);
    }
  }

  lemma DedicatedSelection(dedicated: seq<string>, standard: seq<string>)
    requires dedicated != []
    ensures var (selected, sure) := SelectPresentation(dedicated, standard);
            var n := Presentations(dedicated, Dedicated) + Presentations(standard, Standard);
            && (sure <==> |dedicated| == 1 && Presentations(dedicated, Dedicated) == 1 && n == 1)
            && selected == (if sure then Parse(dedicated[0], Dedicated) else None)
            && (sure ==> selected.Some?)
  {
    PresentationsCount(standard, Standard);
    hide Parse, SchemeNamed, NamesAepScheme, Recognizable;
    if |dedicated| == 1 {
      assert dedicated[1..] == [];
    }
  }

  lemma StandardSelection(standard: seq<string>)
    ensures var (selected, sure) := SelectPresentation([], standard);
            var n := Presentations(standard, Standard);
            && Presentations([], Dedicated) == 0
            && (sure ==> n <= 1 && (selected.Some? <==> n == 1)) && (!sure ==> selected.None?)
            && (n == 0 ==> (sure <==> forall value :: value in standard ==> !NamesAepScheme(value)))
            && (n == 1 ==> (sure <==> |standard| == 1))
            && (selected.Some? ==> |standard| == 1 && Parse(standard[0], Standard) == selected)
  {
    PresentationsCount(standard, Standard);
    RecognizedNamesScheme(standard);
    hide Parse, SchemeNamed, NamesAepScheme;
    if |standard| == 1 {
      assert standard == [standard[0]] && standard[1..] == [];
    }
  }

  lemma RecognizedNamesScheme(values: seq<string>)
    ensures forall value :: value in values && Recognized(value) ==> NamesAepScheme(value)
  {
    hide Word, Lower, SchemeNamed, IsVisible, AllOws;
  }

  /** What the Agent renders in the dedicated field is what the Service selects, whatever the Authorization field
      carries for other protocols. */
  lemma DedicatedIsSelectedBack(a: Authorization, standard: seq<string>)
    requires a.carrier.Dedicated? && Render(a).Ok? && ',' !in a.credentials
    requires forall value :: value in standard ==> !Recognized(value)
    ensures SelectPresentation([Render(a).value.1], standard) == (Some(a), true)
  {
    RenderRoundTrip(a);
    hide Parse, Render;
  }

  /** In the Authorization field it has to be alone. */
  lemma StandardIsSelectedBack(a: Authorization, standard: seq<string>)
    requires a.carrier.Standard? && Render(a).Ok? && Render(a).value.1 in standard
    ensures SelectPresentation([], standard) == if |standard| == 1 then (Some(a), true) else (None, false)
  {
    RenderRoundTrip(a);
    PresentationsCount(standard, Standard);
    SelectionIsUnambiguous([], standard);
    hide Parse, Render;
    if |standard| == 1 {
      assert standard == [standard[0]] && standard[1..] == [];
    }
  }
}
