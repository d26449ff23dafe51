/** Inspect: the document of a Service, fetched with redirects, revalidated with conditional requests and
    kept in a cache the Agent does not have to trust. */
module InspectCache {
  import opened Prelude
  import opened Text
  import opened Urls

  type Headers = seq<(string, string)>

  datatype Document = Document(serviceDid: string)

  /** Times are in microseconds. `aware` tells whether the stored time has a UTC offset. */
  datatype Entry = Entry(
    cachedAt: int, aware: bool, document: Document, finalUrl: Url, cacheControl: string, etag: string,
    lastModified: string, age: string, date: string, expires: string)

  datatype Inspection = Inspection(
    document: Document, finalUrl: Url, inspectUrl: Url, cacheControl: string, etag: string, lastModified: string)

  datatype Request = Request(url: Url, ifNoneMatch: Option<string>, ifModifiedSince: Option<string>)

  /** `document` is None when the body is not an Inspect document. */
  datatype Response = Response(status: int, headers: Headers, size: nat, document: Option<Document>)

  datatype Error =
    | TransportFailed | TooManyRedirects | NoLocation | RedirectLeftOrigin | NothingToRevalidate | BadStatus
    | BadMediaType | TooLarge | BadDocument | ForeignDocument

  /** How the Agent reads text it does not take apart here: dates, the origin a did:web identifier stands for,
      media types, and relative references. */
  datatype Reading = Reading(
    httpDate: string -> Option<int>, didOrigin: string -> Option<Origin>, essence: string -> string,
    join: (Url, string) -> Url, allowLoopback: bool, maximumBytes: nat)

  // ---- Cache-Control ----

  function StripQuotes(s: string): string
    decreases |s|
  {
    if s != "" && s[0] == '"' then StripQuotes(s[1..])
    else if s != "" && s[|s| - 1] == '"' then StripQuotes(s[..|s| - 1])
    else s
  }

  function Key(item: string): string { Lower(Before(Strip(item), '=')) }

  function Value(item: string): string { StripQuotes(After(Strip(item), '=').GetOr("")) }

  /** The value of the last item with that key. */
  function Directive(items: seq<string>, name: string): Option<string> {
    if items == [] then None
    else if Key(items[|items| - 1]) == name then Some(Value(items[|items| - 1]))
    else Directive(items[..|items| - 1], name)
  }

  // ---- what Cache-Control says, as text ----

  /** The text holds, between commas or ends, white space, the name in any case, and then `tail`, which is white space
      or begins with an equals sign. White space between the name and the sign makes it another name. */
  ghost predicate Reads(text: string, name: string, front: string, lead: string, word: string, tail: string,
                        back: string) {
    && text == front + lead + word + tail + back
    && (front == "" || front[|front| - 1] == ',') && (back == "" || back[0] == ',')
    && Blank(lead) && Lower(word) == name && ',' !in tail && (Blank(tail) || tail[0] == '=')
  }

  ghost predicate Says(text: string, name: string) {
    exists front, lead, word, tail, back :: Reads(text, name, front, lead, word, tail, back)
  }

  predicate Quotes(s: string) { forall i :: 0 <= i < |s| ==> s[i] == '"' }

  /** What follows a name gives the value: nothing, or an equals sign, the value between quotes, and white space. */
  ghost predicate Gives(tail: string, value: string, open: string, close: string, trail: string) {
    && tail == "=" + open + value + close + trail && Quotes(open) && Quotes(close) && Blank(trail)
    && (value != "" ==> value[0] != '"' && value[|value| - 1] != '"')
    && var quoted := open + value + close; quoted != "" ==> !IsSpace(quoted[|quoted| - 1])
  }

  ghost predicate HasValue(tail: string, value: string) {
    (Blank(tail) && value == "") || exists open, close, trail :: Gives(tail, value, open, close, trail)
  }

  /** The last directive of that name has that value. */
  ghost predicate SaysLast(text: string, name: string, value: string) {
    exists front, lead, word, tail, back ::
      && Reads(text, name, front, lead, word, tail, back) && HasValue(tail, value)
      && (back == "" || !Says(back[1..], name))
  }

  /** A name as directives have them. */
  predicate IsToken(name: string) {
    name != "" && forall i :: 0 <= i < |name| ==> name[i] != ',' && name[i] != '=' && !IsSpace(name[i])
  }

  lemma {:induction false} DirectiveIsThere(items: seq<string>, name: string)
    ensures Directive(items, name).Some? <==> exists item :: item in items && Key(item) == name
    decreases |items|
  {
    if items != [] {
      var front := items[..|items| - 1];
      DirectiveIsThere(front, name);
      assert items == front + [items[|items| - 1]];
    }
  }

  lemma TokenOfWord(word: string, name: string)
    requires IsToken(name) && Lower(word) == name
    ensures IsToken(word)
  {
    forall i | 0 <= i < |word| ensures word[i] != ',' && word[i] != '=' && !IsSpace(word[i]) {
      assert name[i] == LowerChar(word[i]);
    }
  }

  lemma {:induction false} QuotesSplit(s: string) returns (open: string, close: string)
    ensures s == open + StripQuotes(s) + close && Quotes(open) && Quotes(close)
    ensures var value := StripQuotes(s); value != "" ==> value[0] != '"' && value[|value| - 1] != '"'
    decreases |s|
  {
    open, close := "", "";
    if s != "" && s[0] == '"' {
      open, close := QuotesSplit(s[1..]);
      assert s == [s[0]] + s[1..];
      open := [s[0]] + open;
    } else if s != "" && s[|s| - 1] == '"' {
      open, close := QuotesSplit(s[..|s| - 1]);
      assert s == s[..|s| - 1] + [s[|s| - 1]];
      close := close + [s[|s| - 1]];
    }
  }

  lemma {:induction false} QuotesPadded(open: string, value: string, close: string)
    requires Quotes(open) && Quotes(close) && (value != "" ==> value[0] != '"' && value[|value| - 1] != '"')
    ensures StripQuotes(open + value + close) == value
    decreases |open| + |close|
  {
    var s := open + value + close;
    if open != "" {
      assert s[1..] == open[1..] + value + close;
      QuotesPadded(open[1..], value, close);
    } else if close != "" {
      if value == "" {
        assert s[1..] == "" + value + close[1..];
        QuotesPadded("", value, close[1..]);
      } else {
        assert s[..|s| - 1] == open + value + close[..|close| - 1];
        QuotesPadded(open, value, close[..|close| - 1]);
      }
    } else {
      assert s == value;
    }
  }

  /** An item is read as a name and what follows it. */
  lemma ItemReads(item: string, name: string) returns (lead: string, word: string, tail: string)
    requires IsToken(name) && Key(item) == name
    ensures item == lead + word + tail && Blank(lead) && Lower(word) == name && (Blank(tail) || tail[0] == '=')
    ensures HasValue(tail, Value(item))
  {
    var stripped := Strip(item);
    var left, right := StripSplits(item);
    PartitionJoins(stripped, '=');
    lead, word := left, Before(stripped, '=');
    match Text.After(stripped, '=')
    case None =>
      tail := right;
      assert item == lead + word + tail;
    case Some(rest) =>
      tail := "=" + rest + right;
      assert item == lead + word + tail;
      ValueReads(rest, right);
  }

  lemma ValueReads(rest: string, right: string)
    requires Blank(right) && (rest != "" ==> !IsSpace(rest[|rest| - 1]))
    ensures HasValue("=" + rest + right, StripQuotes(rest))
  {
    var open, close := QuotesSplit(rest);
    var value := StripQuotes(rest);
    hide IsSpace, StripQuotes;
    Regroup("=", open, value, close, right);
    assert Gives("=" + rest + right, value, open, close, right);
  }

  lemma BareItem(lead: string, word: string, tail: string)
    requires Blank(lead) && IsToken(word) && Blank(tail)
    ensures Key(lead + word + tail) == Lower(word) && Value(lead + word + tail) == ""
  {
    StripPadded(lead, word, tail);
    PartitionAt(word, '=', "");
  }

  lemma ValuedItem(lead: string, word: string, rest: string, trail: string)
    requires Blank(lead) && IsToken(word) && Blank(trail) && (rest != "" ==> !IsSpace(rest[|rest| - 1]))
    ensures var item := lead + word + ("=" + rest + trail);
            Key(item) == Lower(word) && Value(item) == StripQuotes(rest)
  {
    var item, middle := lead + word + ("=" + rest + trail), word + ['='] + rest;
    assert item == lead + middle + trail;
    assert middle[0] == word[0] && middle[|middle| - 1] == if rest == "" then '=' else rest[|rest| - 1];
    StripPadded(lead, middle, trail);
    PartitionAt(word, '=', rest);
  }

  lemma GivesIsUnique(lead: string, word: string, tail: string, value: string, open: string, close: string,
                      trail: string)
    requires Blank(lead) && IsToken(word) && Gives(tail, value, open, close, trail)
    ensures Value(lead + word + tail) == value
  {
    hide IsToken, Key, Value, StripQuotes;
    assert tail == "=" + (open + value + close) + trail;
    ValuedItem(lead, word, open + value + close, trail);
    QuotesPadded(open, value, close);
  }

  lemma SignedItem(lead: string, word: string, tail: string)
    requires Blank(lead) && IsToken(word) && tail != "" && tail[0] == '='
    ensures Key(lead + word + tail) == Lower(word)
  {
    hide IsToken, Key, Value, StripRight, StripQuotes;
    var trail := StripRightSplits(tail[1..]);
    assert tail == "=" + StripRight(tail[1..]) + trail;
    ValuedItem(lead, word, StripRight(tail[1..]), trail);
  }

  /** Text of that form is read back. */
  lemma ReadItem(lead: string, word: string, tail: string, name: string)
    requires IsToken(name) && Blank(lead) && Lower(word) == name && (Blank(tail) || tail[0] == '=')
    ensures Key(lead + word + tail) == name
    ensures forall value :: HasValue(tail, value) ==> Value(lead + word + tail) == value
  {
    hide IsToken, Key, Value, Lower, Gives;
    TokenOfWord(word, name);
    if Blank(tail) { BareItem(lead, word, tail); } else { SignedItem(lead, word, tail); }
    forall value | HasValue(tail, value) ensures Value(lead + word + tail) == value {
      if open, close, trail :| Gives(tail, value, open, close, trail) {
        GivesIsUnique(lead, word, tail, value, open, close, trail);
      }
    }
  }

  /** A directive is said exactly when an item has its name as the key. */
  lemma SaysMeans(text: string, name: string)
    requires IsToken(name)
    ensures Says(text, name) <==> exists item :: item in Split(text, ',') && Key(item) == name
  {
    hide Key;
    if item :| item in Split(text, ',') && Key(item) == name {
      var k :| 0 <= k < |Split(text, ',')| && Split(text, ',')[k] == item;
      var front, lead, word, tail, back := ItemIsSaid(text, name, k);
    }
    if front, lead, word, tail, back :| Reads(text, name, front, lead, word, tail, back) {
      var k := SaidIsItem(text, name, front, lead, word, tail, back);
      assert Split(text, ',')[k] in Split(text, ',');
    }
  }

  lemma ItemIsSaid(text: string, name: string, k: nat)
    returns (front: string, lead: string, word: string, tail: string, back: string)
    requires IsToken(name) && k < |Split(text, ',')| && Key(Split(text, ',')[k]) == name
    ensures Reads(text, name, front, lead, word, tail, back) && HasValue(tail, Value(Split(text, ',')[k]))
    ensures if k == |Split(text, ',')| - 1 then back == ""
            else back != "" && Split(back[1..], ',') == Split(text, ',')[k + 1..]
  {
    hide Key, Value, HasValue;
    var item := Split(text, ',')[k];
    front, back := PieceStands(text, ',', k);
    lead, word, tail := ItemReads(item, name);
    Regroup(front, lead, word, tail, back);
  }

  lemma SaidStands(text: string, name: string, front: string, lead: string, word: string, tail: string, back: string)
    requires IsToken(name) && Reads(text, name, front, lead, word, tail, back)
    ensures StandsIn(text, ',', front, lead + word + tail, back)
  {
    TokenOfWord(word, name);
    hide Lower;
    Regroup(front, lead, word, tail, back);
    NoComma(lead, word, tail);
  }

  lemma NoComma(lead: string, word: string, tail: string)
    requires Blank(lead) && IsToken(word) && ',' !in tail
    ensures ',' !in lead + word + tail
  {
    assert ',' !in lead && ',' !in word;
  }

  lemma Regroup(a: string, b: string, c: string, d: string, e: string)
    ensures a + b + c + d + e == a + (b + c + d) + e
  {
  }

  lemma SaidIsItem(text: string, name: string, front: string, lead: string, word: string, tail: string, back: string)
    returns (k: nat)
    requires IsToken(name) && Reads(text, name, front, lead, word, tail, back)
    ensures k < |Split(text, ',')| && Key(Split(text, ',')[k]) == name
    ensures forall value :: HasValue(tail, value) ==> Value(Split(text, ',')[k]) == value
    ensures Split(text, ',')[k + 1..] == if back == "" then [] else Split(back[1..], ',')
  {
    hide Key, Value, HasValue, Split, Lower, StandsIn;
    ReadItem(lead, word, tail, name);
    SaidStands(text, name, front, lead, word, tail, back);
    k := StandingIsPiece(text, ',', front, lead + word + tail, back);
  }

  /** The value read for a name is that of the last directive of that name. */
  lemma DirectiveMeans(text: string, name: string, value: string)
    requires IsToken(name)
    ensures Directive(Split(text, ','), name) == Some(value) <==> SaysLast(text, name, value)
  {
    hide Key, Value, Reads, HasValue, Split;
    var items := Split(text, ',');
    var last := LastOfName(items, name);
    if Directive(items, name) == Some(value) {
      var front, lead, word, tail, back := ItemIsSaid(text, name, last);
      NoneLater(text, name, last, back);
    }
    if front, lead, word, tail, back :|
      && Reads(text, name, front, lead, word, tail, back) && HasValue(tail, value)
      && (back == "" || !Says(back[1..], name))
    {
      var k := SaidIsItem(text, name, front, lead, word, tail, back);
      NoneLater(text, name, k, back);
      assert items[last] in items[k + 1..] || last <= k;
    }
  }

  lemma {:induction false} LastOfName(items: seq<string>, name: string) returns (last: int)
    ensures -1 <= last < |items| && forall k :: last < k < |items| ==> Key(items[k]) != name
    ensures if last < 0 then Directive(items, name) == None
            else Key(items[last]) == name && Directive(items, name) == Some(Value(items[last]))
    decreases |items|
  {
    hide Key, Value;
    last := |items| - 1;
    if items != [] && Key(items[last]) != name {
      last := LastOfName(items[..|items| - 1], name);
    }
  }

  lemma NoneLater(text: string, name: string, k: nat, back: string)
    requires IsToken(name) && k < |Split(text, ',')|
    requires Split(text, ',')[k + 1..] == if back == "" then [] else Split(back[1..], ',')
    ensures (back == "" || !Says(back[1..], name)) <==>
            forall item :: item in Split(text, ',')[k + 1..] ==> Key(item) != name
  {
    hide Key, Says, Split;
    if back != "" { SaysMeans(back[1..], name); }
  }

  /** The value of the last directive of that name. */
  ghost function LastValue(text: string, name: string): Option<string> {
    if value :| SaysLast(text, name, value) then Some(value) else None
  }

  lemma LastValueMeans(text: string, name: string)
    requires IsToken(name)
    ensures LastValue(text, name) == Directive(Split(text, ','), name)
    ensures LastValue(text, name).Some? <==> Says(text, name)
  {
    hide SaysLast, Key, Value, Split, Says;
    SaysMeans(text, name);
    DirectiveIsThere(Split(text, ','), name);
    forall value ensures Directive(Split(text, ','), name) == Some(value) <==> SaysLast(text, name, value) {
      DirectiveMeans(text, name, value);
    }
  }

  lemma DirectiveNames()
    ensures IsToken("no-cache") && IsToken("no-store") && IsToken("max-age")
  {
  }

  /** _cache_directive, as far as its callers look at it: whether the directive is there. */
  method HasDirective(cacheControl: string, name: string) returns (found: bool)
    ensures found <==> exists item :: item in Split(cacheControl, ',') && Key(item) == name
    ensures IsToken(name) ==> (found <==> Says(cacheControl, name))
  {
    hide Key, Says;
    if IsToken(name) { SaysMeans(cacheControl, name); }
    var items := Split(cacheControl, ',');
    for i := 0 to |items|
      invariant forall j :: 0 <= j < i ==> Key(items[j]) != name
    {
      if Key(items[i]) == name {
        return true;
      }
    }
    return false;
  }

  // ---- freshness ----

  const SECOND := 1_000_000

  predicate IsDecimal(s: string) {
    s != "" && forall i :: 0 <= i < |s| ==> '0' <= s[i] <= '9'
  }

  function Decimal(s: string): nat
    requires forall i :: 0 <= i < |s| ==> '0' <= s[i] <= '9'
  {
    if s == "" then 0 else 10 * Decimal(s[..|s| - 1]) + (s[|s| - 1] as int - '0' as int)
  }

  /** The decimal digits of a number. */
  function Digits(n: nat): (s: string)
    ensures IsDecimal(s)
  {
    (if n < 10 then "" else Digits(n / 10)) + [(n % 10 + '0' as int) as char]
  }

  /** Reading the digits of a number gives the number. */
  lemma {:induction false} DecimalReadsDigits(n: nat)
    ensures Decimal(Digits(n)) == n
  {
    var s := Digits(n);
    assert s[..|s| - 1] == if n < 10 then "" else Digits(n / 10);
    if n >= 10 { DecimalReadsDigits(n / 10); }
  }

  /** When the response was made: its Date, or the time of the request without one. None if unreadable. */
  function ResponseDate(r: Reading, e: Entry): Option<int> {
    if e.date == "" then Some(e.cachedAt) else r.httpDate(e.date)
  }

  /** How long the response stays fresh after it was made. None if unreadable. */
  ghost function Lifetime(r: Reading, e: Entry): Option<int> {
    var maxAge := LastValue(e.cacheControl, "max-age");
    if maxAge.Some? then
      if IsDecimal(maxAge.value) then Some(Decimal(maxAge.value) * SECOND) else None
    else if e.expires != "" then
      if r.httpDate(e.expires).Some? && ResponseDate(r, e).Some?
      then Some(r.httpDate(e.expires).value - ResponseDate(r, e).value)
      else None
    else Some(300 * SECOND)
  }

  function StatedAge(e: Entry): Option<nat> {
    if e.age == "" then Some(0) else if IsDecimal(e.age) then Some(Decimal(e.age) * SECOND) else None
  }

  /** The moment from which the entry is stale; None when it was never fresh. A response is as old as its Age
      says, or as its Date says if that is older (section 4.2.3 of RFC 9111). */
  ghost function StaleFrom(r: Reading, e: Entry): Option<int> {
    if Says(e.cacheControl, "no-cache") || Says(e.cacheControl, "no-store") then None
    else if ResponseDate(r, e).None? || Lifetime(r, e).None? || StatedAge(e).None? then None
    else
      var byDate := ResponseDate(r, e).value;
      var byAge := e.cachedAt - StatedAge(e).value;
      Some((if byDate < byAge then byDate else byAge) + Lifetime(r, e).value)
  }

  ghost predicate Fresh(r: Reading, e: Entry, now: int) {
    StaleFrom(r, e).Some? && e.cachedAt <= now < StaleFrom(r, e).value
  }

  /** The dictionary of directives. */
  method ReadDirectives(cacheControl: string) returns (directives: map<string, string>)
    ensures forall name ::
              && (name in directives <==> Directive(Split(cacheControl, ','), name).Some?)
              && (name in directives ==> Directive(Split(cacheControl, ','), name) == Some(directives[name]))
  {
    var items := Split(cacheControl, ',');
    directives := map[];
    for i := 0 to |items|
      invariant forall name ::
                  && (name in directives <==> Directive(items[..i], name).Some?)
                  && (name in directives ==> Directive(items[..i], name) == Some(directives[name]))
    {
      assert items[..i + 1][..i] == items[..i];
      directives := directives[Key(items[i]) := Value(items[i])];
    }
    assert items[..|items|] == items;
  }

  /** _fresh_cache: what it computes is whether now lies between the request and one fixed moment, so an entry
      once stale stays stale. */
  method FreshCache(r: Reading, e: Entry, now: int) returns (isFresh: bool)
    ensures isFresh <==> Fresh(r, e, now)
  {
    hide IsToken, Says, LastValue, Directive, Split;
    var directives := ReadDirectives(e.cacheControl);
    DirectiveNames();
    LastValueMeans(e.cacheControl, "no-cache");
    LastValueMeans(e.cacheControl, "no-store");
    LastValueMeans(e.cacheControl, "max-age");
    if "no-cache" in directives || "no-store" in directives {
      return false;
    }
    var responseDate := if e.date != "" then r.httpDate(e.date) else Some(e.cachedAt);
    if responseDate.None? {
      return false;
    }
    var lifetime := 300 * SECOND;
    if "max-age" in directives {
      if !IsDecimal(directives["max-age"]) {
        return false;
      }
      lifetime := Decimal(directives["max-age"]) * SECOND;
    } else if e.expires != "" {
      if r.httpDate(e.expires).None? {
        return false;
      }
      lifetime := r.httpDate(e.expires).value - responseDate.value;
    }
    assert Lifetime(r, e) == Some(lifetime);
    if e.age != "" && !IsDecimal(e.age) {
      return false;
    }
    var age := if e.age == "" then 0 else Decimal(e.age) * SECOND;
    var apparent := e.cachedAt - responseDate.value;
    var initialAge := if apparent > age then apparent else age;
    var residentTime := now - e.cachedAt;
    return residentTime >= 0 && initialAge + residentTime < lifetime;
  }

  // ---- what the Agent believes ----

  function InspectOrigin(r: Reading, u: Url): Option<Origin> {
    if !SecureEnough(u, r.allowLoopback) || u.host == "" || Truthy(u.user) || Truthy(u.password) then None
    else OriginOf(u)
  }

  /** require_service_origin_binding does not raise */
  predicate Bound(r: Reading, d: Document, finalUrl: Url) {
    InspectOrigin(r, finalUrl).Some? && r.didOrigin(d.serviceDid) == InspectOrigin(r, finalUrl)
  }

  /** What a cached entry must satisfy before anything in it is used. */
  predicate Usable(r: Reading, inspectUrl: Url, e: Entry) {
    && e.aware && ValidHttps(e.finalUrl, r.allowLoopback) && SameOrigin(e.finalUrl, inspectUrl)
    && Bound(r, e.document, e.finalUrl)
  }

  /** Every entry is usable under its key and was allowed to be stored. */
  ghost predicate Sound(r: Reading, records: map<Url, Entry>) {
    forall url :: url in records ==> Usable(r, url, records[url]) && !Says(records[url].cacheControl, "no-store")
  }

  /** A document is believed for a URL exactly when the URL is https, or loopback where that is allowed, without user
      information, and the Service DID of the document stands for its scheme, host and port. */
  lemma BoundMeans(r: Reading, d: Document, u: Url)
    ensures Bound(r, d, u) <==>
            && (u.scheme == "https" || (r.allowLoopback && u.scheme == "http"
                                        && u.host in {"localhost", "127.0.0.1", "::1"}))
            && (u.user == None || u.user.value == "") && (u.password == None || u.password.value == "")
            && u.host != "" && u.port != BadPort
            && r.didOrigin(d.serviceDid) ==
               Some(Origin(u.scheme, u.host,
                           match u.port case Port(n) => n case _ => if u.scheme == "https" then 443 else 80))
  {
  }

  /** An entry is used exactly when its time has an offset, its document is believed for the URL it came from, and
      that URL has no fragment and is on the origin asked for. */
  lemma UsableMeans(r: Reading, inspectUrl: Url, e: Entry)
    ensures Usable(r, inspectUrl, e) <==>
            && e.aware && Bound(r, e.document, e.finalUrl)
               && (e.finalUrl.fragment == None || e.finalUrl.fragment.value == "")
            && r.didOrigin(e.document.serviceDid) == OriginOf(inspectUrl)
  {
  }

  class MemoryInspectCache {
    var records: map<Url, Entry>

    constructor ()
      ensures records == map[]
    {
      records := map[];
    }

    method FindInspect(key: Url) returns (entry: Option<Entry>)
      ensures entry == if key in records then Some(records[key]) else None
    {
      entry := if key in records then Some(records[key]) else None;
    }

    method SaveInspect(key: Url, entry: Entry)
      modifies this
      ensures records == old(records)[key := entry]
    {
      records := records[key := entry];
    }

    method DeleteInspect(key: Url)
      modifies this
      ensures records == old(records) - {key}
    {
      records := records - {key};
    }
  }

  function HeaderOf(headers: Headers, name: string): Option<string> {
    if headers == [] then None
    else if Lower(headers[0].0) == name then Some(headers[0].1)
    else HeaderOf(headers[1..], name)
  }

  /** The k-th field is the first of that name. */
  predicate FirstField(headers: Headers, name: string, k: int) {
    && 0 <= k < |headers| && Lower(headers[k].0) == name
    && forall j :: 0 <= j < k ==> Lower(headers[j].0) != name
  }

  /** The first field of the name counts, in whatever case it is spelled. */
  lemma {:induction false} HeaderOfMeans(headers: Headers, name: string)
    ensures HeaderOf(headers, name) == None <==> forall k :: !FirstField(headers, name, k)
    ensures forall k :: FirstField(headers, name, k) ==> HeaderOf(headers, name) == Some(headers[k].1)
  {
    if headers != [] {
      var rest := headers[1..];
      HeaderOfMeans(rest, name);
      if Lower(headers[0].0) == name {
        assert FirstField(headers, name, 0);
      } else {
        forall k ensures FirstField(headers, name, k + 1) <==> FirstField(rest, name, k) { }
        if k :| FirstField(headers, name, k) { assert FirstField(rest, name, k - 1); }
        if k :| FirstField(rest, name, k) { assert FirstField(headers, name, k + 1); }
        forall k | FirstField(headers, name, k) ensures HeaderOf(headers, name) == Some(headers[k].1) {
          assert FirstField(rest, name, k - 1);
        }
      }
    }
  }

  /** `_header(...) or fallback`: an empty value falls back too. */
  function HeaderOr(response: Response, name: string, fallback: string): string {
    var value := HeaderOf(response.headers, name).GetOr("");
    if value == "" then fallback else value
  }

  predicate IsRedirect(status: int) {
    status in {301, 302, 303, 307, 308}
  }

  /** The entry a final response leads to: a new one, or on 304 the cached document with what the response
      adds; validators and Expires survive a response that does not repeat them, Age and Date do not. */
  function EntryFrom(cached: Option<Entry>, response: Response, url: Url, now: int): Option<Entry> {
    if response.status == 304 then
      if cached.None? then None
      else
        Some(Entry(now, true, cached.value.document, url,
                   HeaderOr(response, "cache-control", cached.value.cacheControl),
                   HeaderOr(response, "etag", cached.value.etag),
                   HeaderOr(response, "last-modified", cached.value.lastModified),
                   HeaderOr(response, "age", ""), HeaderOr(response, "date", ""),
                   HeaderOr(response, "expires", cached.value.expires)))
    else if response.document.None? then None
    else
      Some(Entry(now, true, response.document.value, url,
                 HeaderOr(response, "cache-control", ""), HeaderOr(response, "etag", ""),
                 HeaderOr(response, "last-modified", ""), HeaderOr(response, "age", ""),
                 HeaderOr(response, "date", ""), HeaderOr(response, "expires", "")))
  }

  function InspectionFrom(e: Entry, inspectUrl: Url): Inspection {
    Inspection(e.document, e.finalUrl, inspectUrl, e.cacheControl, e.etag, e.lastModified)
  }

  function Nonempty(s: string): Option<string> {
    if s == "" then None else Some(s)
  }

  /** The cached entry, if there is one worth using. */
  function Known(r: Reading, records: map<Url, Entry>, inspectUrl: Url): Option<Entry> {
    if inspectUrl in records && Usable(r, inspectUrl, records[inspectUrl]) then Some(records[inspectUrl]) else None
  }

  /** The response redirects from one URL to the other. */
  predicate Leads(r: Reading, source: Url, response: Option<Response>, target: Url) {
    && response.Some? && IsRedirect(response.value.status)
    && HeaderOf(response.value.headers, "location").Some?
    && target == r.join(source, HeaderOf(response.value.headers, "location").value)
  }

  /** The requests of one call: they start at the cached URL or the well-known one, follow redirects that stay
      on the origin, and carry the cached validators all along. */
  ghost predicate Chain(r: Reading, known: Option<Entry>, inspectUrl: Url, send: nat -> Option<Response>,
                        requests: seq<Request>) {
    && |requests| <= 6
    && (forall i :: 0 <= i < |requests| ==>
          && OriginOf(requests[i].url) == OriginOf(inspectUrl)
          && (ValidHttps(inspectUrl, r.allowLoopback) ==> ValidHttps(requests[i].url, r.allowLoopback))
          && requests[i].ifNoneMatch == (if known.Some? then Nonempty(known.value.etag) else None)
          && requests[i].ifModifiedSince == (if known.Some? then Nonempty(known.value.lastModified) else None))
    && (requests != [] ==> requests[0].url == if known.Some? then known.value.finalUrl else inspectUrl)
    && (forall i :: 0 <= i < |requests| - 1 ==> Leads(r, requests[i].url, send(i), requests[i + 1].url))
  }

  /** The checks on the response that ends the loop. */
  method Accept(r: Reading, known: Option<Entry>, response: Response, current: Url, now: int)
    returns (accepted: Result<Entry, Error>)
    requires known.Some? ==> Bound(r, known.value.document, known.value.finalUrl)
    requires known.Some? ==> InspectOrigin(r, current) == InspectOrigin(r, known.value.finalUrl)
    requires !IsRedirect(response.status)
    ensures accepted.Ok? ==>
              && Some(accepted.value) == EntryFrom(known, response, current, now)
              && Bound(r, accepted.value.document, current)
              && (response.status == 304 ==> known.Some?)
    ensures accepted.Err? <==>
              if response.status == 304 then known.None?
              else
                || !(200 <= response.status < 300)
                || r.essence(HeaderOf(response.headers, "content-type").GetOr("")) != "application/aep+json"
                || response.size > r.maximumBytes || response.document.None?
                || !Bound(r, response.document.value, current)
  {
    if response.status == 304 {
      if known.None? {
        return Err(NothingToRevalidate);
      }
      return Ok(EntryFrom(known, response, current, now).value);
    }
    if response.status < 200 || response.status >= 300 {
      return Err(BadStatus);
    }
    if r.essence(HeaderOf(response.headers, "content-type").GetOr("")) != "application/aep+json" {
      return Err(BadMediaType);
    }
    if response.size > r.maximumBytes {
      return Err(TooLarge);
    }
    if response.document.None? {
      return Err(BadDocument);
    }
    if !Bound(r, response.document.value, current) {
      return Err(ForeignDocument);
    }
    return Ok(EntryFrom(known, response, current, now).value);
  }

  /** The entry is what the last of the requests leads to, and its document is bound to the last URL. */
  ghost predicate Revalidated(r: Reading, known: Option<Entry>, inspectUrl: Url, now: int,
                              send: nat -> Option<Response>, requests: seq<Request>, e: Entry)
  {
    && requests != [] && Chain(r, known, inspectUrl, send, requests)
    && e.finalUrl == requests[|requests| - 1].url && e.aware
    && send(|requests| - 1).Some? && !IsRedirect(send(|requests| - 1).value.status)
    && Some(e) == EntryFrom(known, send(|requests| - 1).value, requests[|requests| - 1].url, now)
    && Bound(r, e.document, e.finalUrl)
  }

  /** Such an entry may be used under its key later. */
  lemma RevalidatedIsUsable(r: Reading, known: Option<Entry>, inspectUrl: Url, now: int,
                            send: nat -> Option<Response>, requests: seq<Request>, e: Entry)
    requires Revalidated(r, known, inspectUrl, now, send, requests, e)
    ensures r.didOrigin(e.document.serviceDid) == OriginOf(inspectUrl)
    ensures ValidHttps(inspectUrl, r.allowLoopback) ==> Usable(r, inspectUrl, e)
  {
    hide EntryFrom, Leads;
  }

  /** The loop of _inspect, up to the cache update. */
  method Revalidate(r: Reading, cached: Option<Entry>, inspectUrl: Url, now: int, send: nat -> Option<Response>)
    returns (result: Result<Entry, Error>, requests: seq<Request>)
    requires cached.Some? ==> Usable(r, inspectUrl, cached.value)
    ensures requests != [] && Chain(r, cached, inspectUrl, send, requests)
    ensures result.Ok? ==> Revalidated(r, cached, inspectUrl, now, send, requests, result.value)
  {
    var current := if cached.Some? then cached.value.finalUrl else inspectUrl;
    var ifNoneMatch := if cached.Some? then Nonempty(cached.value.etag) else None;
    var ifModifiedSince := if cached.Some? then Nonempty(cached.value.lastModified) else None;
    requests := [];
    var redirects := 0;
    while true
      invariant redirects == |requests| <= 5
      invariant Chain(r, cached, inspectUrl, send, requests + [Request(current, ifNoneMatch, ifModifiedSince)])
      invariant cached.Some? ==> InspectOrigin(r, current) == InspectOrigin(r, cached.value.finalUrl)
      decreases 5 - redirects
    {
      var response := send(|requests|);
      requests := requests + [Request(current, ifNoneMatch, ifModifiedSince)];
      if response.None? {
        return Err(TransportFailed), requests;
      }
      if !IsRedirect(response.value.status) {
        result := Accept(r, cached, response.value, current, now);
        return;
      }
      if redirects >= 5 {
        return Err(TooManyRedirects), requests;
      }
      var location := HeaderOf(response.value.headers, "location");
      if location.None? {
        return Err(NoLocation), requests;
      }
      var target := r.join(current, location.value);
      if !ValidHttps(target, r.allowLoopback) || !SameOrigin(current, target) {
        return Err(RedirectLeftOrigin), requests;
      }
      ChainGrows(r, cached, inspectUrl, send, requests, Request(target, ifNoneMatch, ifModifiedSince));
      current := target;
      redirects := redirects + 1;
    }
  }

  lemma ChainGrows(r: Reading, known: Option<Entry>, inspectUrl: Url, send: nat -> Option<Response>,
                   requests: seq<Request>, next: Request)
    requires Chain(r, known, inspectUrl, send, requests) && 0 < |requests| < 6
    requires var last := requests[|requests| - 1];
             && Leads(r, last.url, send(|requests| - 1), next.url)
             && next == Request(next.url, last.ifNoneMatch, last.ifModifiedSince)
             && SameOrigin(last.url, next.url) && ValidHttps(next.url, r.allowLoopback)
    ensures Chain(r, known, inspectUrl, send, requests + [next])
  {
  }

  /** What is stored after a final response, unless the response forbids it. */
  ghost function Stored(records: map<Url, Entry>, key: Url, e: Entry): map<Url, Entry> {
    if Says(e.cacheControl, "no-store") then records - {key} else records[key := e]
  }

  /** The response gives a nonempty value for the field, or gives none. */
  predicate States(response: Response, name: string, value: string) {
    if value != "" then HeaderOf(response.headers, name) == Some(value)
    else HeaderOf(response.headers, name) in {None, Some("")}
  }

  /** What one call stores is what the next one asks with: the validators the response stated, or on 304 those of the
      entry it confirmed. How old the response was is known from that response alone. */
  lemma ValidatorsComeBack(r: Reading, known: Option<Entry>, response: Response, url: Url, now: int,
                           records: map<Url, Entry>, key: Url, send: nat -> Option<Response>, requests: seq<Request>,
                           etag: string, modified: string)
    requires EntryFrom(known, response, url, now).Some?
    requires States(response, "etag", etag) && States(response, "last-modified", modified)
    requires var e := EntryFrom(known, response, url, now).value;
             && Usable(r, key, e) && !Says(e.cacheControl, "no-store")
             && Chain(r, Known(r, Stored(records, key, e), key), key, send, requests)
    ensures var kept := response.status == 304;
            forall i :: 0 <= i < |requests| ==>
              && requests[i].ifNoneMatch == (if etag != "" then Some(etag)
                                             else if kept then Nonempty(known.value.etag) else None)
              && requests[i].ifModifiedSince == (if modified != "" then Some(modified)
                                                 else if kept then Nonempty(known.value.lastModified) else None)
    ensures var e := EntryFrom(known, response, url, now).value;
            && e.cachedAt == now && States(response, "age", e.age) && States(response, "date", e.date)
            && (response.status == 304 ==> e.document == known.value.document)
            && (response.status != 304 ==> Some(e.document) == response.document)
            && (States(response, "expires", e.expires)
                || (response.status == 304 && States(response, "expires", "") && e.expires == known.value.expires))
            && (States(response, "cache-control", e.cacheControl)
                || (response.status == 304 && States(response, "cache-control", "")
                    && e.cacheControl == known.value.cacheControl))
  {
    hide HeaderOf, Says, Usable, ValidHttps, OriginOf, Leads;
  }

  /** ServiceSession._inspect. `send` is what the transport answers to the n-th request, None if it raises. */
  method Inspect(cache: MemoryInspectCache, r: Reading, inspectUrl: Url, now: int, send: nat -> Option<Response>)
    returns (result: Result<Inspection, Error>, requests: seq<Request>)
    modifies cache
    // a document is only ever believed for the origin its Service DID stands for, 304 included
    ensures result.Ok? ==>
              && Bound(r, result.value.document, result.value.finalUrl)
              && r.didOrigin(result.value.document.serviceDid) == OriginOf(inspectUrl)
              && result.value.inspectUrl == inspectUrl
    ensures Chain(r, Known(r, old(cache.records), inspectUrl), inspectUrl, send, requests)
    // no request at all exactly when the cache holds a usable entry that is still fresh
    ensures requests == [] <==>
              && Known(r, old(cache.records), inspectUrl).Some?
              && Fresh(r, old(cache.records)[inspectUrl], now)
    ensures requests == [] ==>
              && result == Ok(InspectionFrom(old(cache.records)[inspectUrl], inspectUrl))
              && cache.records == old(cache.records)
    // otherwise the last response decides, and what it says is stored unless it forbids that
    ensures result.Ok? && requests != [] ==>
              && send(|requests| - 1).Some? && !IsRedirect(send(|requests| - 1).value.status)
              && var entry := EntryFrom(Known(r, old(cache.records), inspectUrl), send(|requests| - 1).value,
                                        requests[|requests| - 1].url, now);
                 && entry.Some? && result.value == InspectionFrom(entry.value, inspectUrl)
                 && result.value.document == entry.value.document && result.value.finalUrl == entry.value.finalUrl
                 && result.value.etag == entry.value.etag && result.value.lastModified == entry.value.lastModified
                 && result.value.cacheControl == entry.value.cacheControl
                 && cache.records == Stored(old(cache.records), inspectUrl, entry.value)
    // a failure changes nothing but drops an unusable entry
    ensures result.Err? ==>
              cache.records == if Known(r, old(cache.records), inspectUrl).Some? then old(cache.records)
                               else old(cache.records) - {inspectUrl}
    ensures ValidHttps(inspectUrl, r.allowLoopback) && old(Sound(r, cache.records)) ==> Sound(r, cache.records)
  {
    hide EntryFrom, Fresh, Says, IsToken;
    requests := [];
    var cached := cache.FindInspect(inspectUrl);
    if cached.Some? && !Usable(r, inspectUrl, cached.value) {
      cache.DeleteInspect(inspectUrl);
      cached := None;
    }
    ghost var known := Known(r, old(cache.records), inspectUrl);
    assert cached == known;
    assert cache.records == if known.Some? then old(cache.records) else old(cache.records) - {inspectUrl};
    if cached.Some? {
      var isFresh := FreshCache(r, cached.value, now);
      if isFresh {
        return Ok(InspectionFrom(cached.value, inspectUrl)), requests;
      }
    }
    var revalidated;
    revalidated, requests := Revalidate(r, cached, inspectUrl, now, send);
    if revalidated.Err? {
      return Err(revalidated.error), requests;
    }
    DirectiveNames();
    var forbidden := HasDirective(revalidated.value.cacheControl, "no-store");
    if forbidden {
      cache.DeleteInspect(inspectUrl);
    } else {
      cache.SaveInspect(inspectUrl, revalidated.value);
    }
    assert cache.records == Stored(old(cache.records), inspectUrl, revalidated.value);
    RevalidatedIsUsable(r, cached, inspectUrl, now, send, requests, revalidated.value);
    result := Ok(InspectionFrom(revalidated.value, inspectUrl));
  }
}
