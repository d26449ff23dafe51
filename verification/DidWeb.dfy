/** did:web identifiers of Agents, their document URLs, and the check a Platform makes of its URL template.

    Text is a string of octets (the UTF-8 encoding of what the source holds), so that percent-encoding works
    octet by octet (section 2.1 of RFC 3986). */
module DidWeb {
  import opened Prelude
  import opened Text

  predicate IsOctets(s: string) {
    forall i :: 0 <= i < |s| ==> s[i] as int < 256
  }

  datatype Error = InvalidHost | UnsupportedMethod | InvalidIdentifier | NotOnePlaceholder | NotHttps

  // ---- percent-encoding ----

  predicate IsSafe(c: char) {
    'a' <= c <= 'z' || 'A' <= c <= 'Z' || '0' <= c <= '9' || c == '-' || c == '.' || c == '_' || c == '~' || c == '!'
    || c == '$' || '&' <= c <= ',' || c == ';' || c == '='
  }

  function Hex(n: nat): (c: char)
    requires n < 16
    ensures IsHex(c) && HexValue(c) == n
  {
    if n < 10 then '0' + n as char else 'A' + (n - 10) as char
  }

  predicate IsHex(c: char) {
    '0' <= c <= '9' || 'A' <= c <= 'F' || 'a' <= c <= 'f'
  }

  function HexValue(c: char): (n: nat)
    requires IsHex(c)
    ensures n < 16
  {
    if c <= '9' then c as int - '0' as int
    else if c <= 'F' then c as int - 'A' as int + 10
    else c as int - 'a' as int + 10
  }

  function Escape(c: char): string {
    ['%', Hex(c as int / 16 % 16), Hex(c as int % 16)]
  }

  /** _encode_did_component */
  function Quote(s: string): string
    decreases |s|
  {
    if s == "" then ""
    else if IsSafe(s[0]) then [s[0]] + Quote(s[1..])
    else Escape(s[0]) + Quote(s[1..])
  }

  /** Characters that stand for themselves in a component: unreserved ones and sub-delimiters (sections 2.2 and 2.3 of
      RFC 3986). */
  predicate StandsForItself(c: char) {
    'a' <= LowerChar(c) <= 'z' || '0' <= c <= '9' || c in "-._~!$&'()*+,;="
  }

  /** A component is left as it is exactly when all its characters stand for themselves. */
  lemma {:induction false} QuoteLeavesIff(s: string)
    ensures |Quote(s)| >= |s| && (Quote(s) == s <==> forall c :: c in s ==> StandsForItself(c))
    decreases |s|
  {
    if s != "" {
      QuoteLeavesIff(s[1..]);
      assert s == [s[0]] + s[1..];
      assert IsSafe(s[0]) <==> StandsForItself(s[0]);
    }
  }

  predicate StartsEscape(s: string) {
    |s| >= 3 && s[0] == '%' && IsHex(s[1]) && IsHex(s[2])
  }

  /** urllib.parse.unquote */
  function Unquote(s: string): string
    decreases |s|
  {
    if s == "" then ""
    else if StartsEscape(s) then [(HexValue(s[1]) * 16 + HexValue(s[2])) as char] + Unquote(s[3..])
    else [s[0]] + Unquote(s[1..])
  }

  /** Every percent sign starts an escape. */
  predicate WellEscaped(s: string) {
    forall i :: 0 <= i < |s| && s[i] == '%' ==> StartsEscape(s[i..])
  }

  predicate IsClean(s: string) {
    forall i :: 0 <= i < |s| ==> IsSafe(s[i]) || s[i] == '%'
  }

  lemma WellEscapedPrepend(head: string, s: string)
    requires WellEscaped(s) && head != "" && forall i :: 0 < i < |head| ==> head[i] != '%'
    requires head[0] == '%' ==> StartsEscape(head + s)
    ensures WellEscaped(head + s)
  {
    var all := head + s;
    forall i | 0 <= i < |all| && all[i] == '%' ensures StartsEscape(all[i..]) {
      if i >= |head| {
        assert all[i..] == s[i - |head|..];
      } else {
        assert all[i..] == all;
      }
    }
  }

  lemma {:induction false} QuoteIsClean(s: string)
    ensures IsClean(Quote(s)) && WellEscaped(Quote(s))
    decreases |s|
  {
    if s != "" {
      var rest := Quote(s[1..]);
      QuoteIsClean(s[1..]);
      hide Quote;
      WellEscapedPrepend(if IsSafe(s[0]) then [s[0]] else Escape(s[0]), rest);
    }
  }

  lemma UnquoteSafe(c: char, rest: string)
    requires IsSafe(c)
    ensures Unquote([c] + rest) == [c] + Unquote(rest)
  {
    assert ([c] + rest)[1..] == rest;
  }

  lemma UnquoteEscape(c: char, rest: string)
    requires c as int < 256
    ensures Unquote(Escape(c) + rest) == [c] + Unquote(rest)
  {
    var s := Escape(c) + rest;
    assert s[3..] == rest;
    assert StartsEscape(s);
    assert HexValue(s[1]) * 16 + HexValue(s[2]) == c as int;
  }

  lemma {:induction false} UnquoteUndoesQuote(s: string)
    requires IsOctets(s)
    ensures Unquote(Quote(s)) == s
    decreases |s|
  {
    if s != "" {
      UnquoteUndoesQuote(s[1..]);
      if IsSafe(s[0]) {
        UnquoteSafe(s[0], Quote(s[1..]));
      } else {
        UnquoteEscape(s[0], Quote(s[1..]));
      }
      hide Unquote, Escape, IsSafe, IsOctets;
      assert s == [s[0]] + s[1..];
    }
  }

  /** Decoding undoes encoding, and the encoding uses only safe characters and whole escapes. */
  lemma QuoteRoundTrip(s: string)
    requires IsOctets(s)
    ensures Unquote(Quote(s)) == s
    ensures IsClean(Quote(s)) && WellEscaped(Quote(s))
    ensures Quote(s) == "" <==> s == ""
  {
    UnquoteUndoesQuote(s);
    QuoteIsClean(s);
  }

  lemma {:induction false} QuoteSafe(s: string)
    requires forall i :: 0 <= i < |s| ==> IsSafe(s[i])
    ensures Quote(s) == s
    decreases |s|
  {
    if s != "" {
      QuoteSafe(s[1..]);
      assert s == [s[0]] + s[1..];
    }
  }

  // ---- identifiers ----

  /** What urlsplit reads off the authority of a URL. */
  datatype Authority = Authority(hostname: Option<string>, user: Option<string>, password: Option<string>,
                                 portValid: bool)

  type Reader = string -> Authority

  predicate EndsAuthority(c: char) { c == '/' || c == '?' || c == '#' }

  function AuthorityText(s: string): string {
    if s == "" || EndsAuthority(s[0]) then "" else [s[0]] + AuthorityText(s[1..])
  }

  predicate Falsy(s: Option<string>) { s.None? || s.value == "" }

  /** Tabs and line ends, which urlsplit takes out of a URL. */
  predicate IsDropped(c: char) { c == '\t' || c == '\r' || c == '\n' }

  /** create_service_scoped_agent_did accepts the host: it is all there is in the URL made of it. */
  predicate HostAccepted(read: Reader, host: string) {
    && host != "" && (forall i :: 0 <= i < |host| ==> !EndsAuthority(host[i]) && !IsDropped(host[i]))
    && read(host).hostname.Some? && read(host).user.None? && read(host).password.None?
  }

  lemma HostAcceptedMeans(read: Reader, host: string)
    ensures HostAccepted(read, host) <==>
              && host != "" && (forall c :: c in "/?#\t\r\n" ==> c !in host)
              && read(host).hostname != None && read(host).user == None && read(host).password == None
  {
    assert '/' in "/?#\t\r\n" && '?' in "/?#\t\r\n" && '#' in "/?#\t\r\n";
    assert '\t' in "/?#\t\r\n" && '\r' in "/?#\t\r\n" && '\n' in "/?#\t\r\n";
  }

  predicate IsVisibleAscii(s: string) {
    s != "" && forall i :: 0 <= i < |s| ==> '!' <= s[i] <= '~'
  }

  /** _did_web_parts accepts the decoded host; an empty query or fragment after it goes unnoticed. */
  predicate HostResolvable(read: Reader, host: string) {
    var authority := AuthorityText(host);
    var a := read(authority);
    && IsVisibleAscii(host) && a.portValid && !Falsy(a.hostname) && Falsy(a.user) && Falsy(a.password)
    && (host == authority || host == authority + "?" || host == authority + "#" || host == authority + "?#")
  }

  function Nonempty(parts: seq<string>): (r: seq<string>)
    ensures forall i :: 0 <= i < |r| ==> r[i] != "" && r[i] in parts
  {
    if parts == [] then []
    else if parts[0] == "" then Nonempty(parts[1..])
    else [parts[0]] + Nonempty(parts[1..])
  }

  lemma {:induction false} SplitIsFree(s: string, sep: char)
    ensures forall part :: part in Split(s, sep) ==> sep !in part && (IsOctets(s) ==> IsOctets(part))
    decreases |s|
  {
    if s != "" {
      var rest := Split(s[1..], sep);
      SplitIsFree(s[1..], sep);
      assert rest[0] in rest;
      var head := if s[0] == sep then "" else [s[0]] + rest[0];
      assert sep !in head;
      assert Split(s, sep) == if s[0] == sep then [""] + rest else [head] + rest[1..];
      assert forall part :: part in rest[1..] ==> part in rest;
    }
  }

  /** The parts of the path prefix; empty ones are dropped, so stripping the slashes first adds nothing. */
  function Segments(prefix: string): (r: seq<string>)
    ensures forall i :: 0 <= i < |r| ==> r[i] != "" && '/' !in r[i] && (IsOctets(prefix) ==> IsOctets(r[i]))
  {
    SplitIsFree(prefix, '/');
    Nonempty(Split(prefix, '/'))
  }

  predicate AllSlashes(s: string) { forall i :: 0 <= i < |s| ==> s[i] == '/' }

  /** The prefix is the parts in order, none of them empty or with a slash, with at least one slash between any two
      and any number around them. */
  ghost predicate Spells(prefix: string, parts: seq<string>)
    decreases |parts|
  {
    if parts == [] then AllSlashes(prefix)
    else exists lead, rest :: PartOf(prefix, lead, parts[0], rest) && Spells(rest, parts[1..])
  }

  predicate PartOf(prefix: string, lead: string, part: string, rest: string) {
    && prefix == lead + part + rest && AllSlashes(lead) && part != "" && '/' !in part
    && (rest == "" || rest[0] == '/')
  }

  lemma SlashAdds(s: string)
    ensures Segments("/" + s) == Segments(s)
  {
    SplitStep('/', s, '/');
    assert ("/" + s)[1..] == s;
    var r := Split(s, '/');
    assert ([""] + r)[1..] == r;
  }

  lemma {:induction false} SlashesAdd(lead: string, s: string)
    requires AllSlashes(lead)
    ensures Segments(lead + s) == Segments(s)
    decreases |lead|
  {
    hide Segments;
    if lead == "" {
      assert lead + s == s;
    } else {
      SlashesAdd(lead[1..], s);
      SlashAdds(lead[1..] + s);
      assert lead + s == "/" + (lead[1..] + s);
    }
  }

  lemma PartAdds(part: string, rest: string)
    requires part != "" && '/' !in part && (rest == "" || rest[0] == '/')
    ensures Segments(part + rest) == [part] + Segments(rest)
  {
    if rest == "" {
      assert part + rest == part;
      SplitWhole(part, '/');
    } else {
      var s := rest[1..];
      assert part + rest == part + ['/'] + s && rest == "/" + s;
      SplitHead(part, s, '/');
      SlashAdds(s);
      assert ([part] + Split(s, '/'))[1..] == Split(s, '/');
    }
  }

  lemma OnePart(prefix: string, lead: string, part: string, rest: string)
    requires PartOf(prefix, lead, part, rest)
    ensures Segments(prefix) == [part] + Segments(rest)
  {
    hide Segments;
    PartAdds(part, rest);
    SlashesAdd(lead, part + rest);
    assert lead + part + rest == lead + (part + rest);
  }

  lemma {:induction false} SpelledIsSegments(prefix: string, parts: seq<string>)
    requires Spells(prefix, parts)
    ensures Segments(prefix) == parts
    decreases |parts|
  {
    hide Segments, PartOf;
    if parts == [] {
      SlashesAdd(prefix, "");
      assert prefix + "" == prefix && Segments("") == [] by { NoSegments(); }
    } else {
      var lead, rest :| PartOf(prefix, lead, parts[0], rest) && Spells(rest, parts[1..]);
      SpelledIsSegments(rest, parts[1..]);
      OnePart(prefix, lead, parts[0], rest);
      assert parts == [parts[0]] + parts[1..];
    }
  }

  lemma NoSegments()
    ensures Segments("") == []
  {
  }

  lemma {:induction false} SegmentsAreSpelled(prefix: string)
    ensures Spells(prefix, Segments(prefix))
    decreases |prefix|
  {
    hide Segments;
    if prefix == "" {
      NoSegments();
    } else if prefix[0] == '/' {
      SegmentsAreSpelled(prefix[1..]);
      assert prefix == "/" + prefix[1..];
      SlashAdds(prefix[1..]);
      SlashKeepsSpelling(prefix[1..], Segments(prefix));
    } else {
      var part := Before(prefix, '/');
      PartitionJoins(prefix, '/');
      var rest := match Text.After(prefix, '/') case Some(r) => ['/'] + r case None => "";
      assert prefix == part + rest && |rest| < |prefix|;
      SegmentsAreSpelled(rest);
      PartAdds(part, rest);
      var parts := Segments(prefix);
      assert parts[0] == part && parts[1..] == Segments(rest);
      assert prefix == "" + part + rest;
      assert PartOf(prefix, "", part, rest);
    }
  }

  lemma SlashKeepsSpelling(s: string, parts: seq<string>)
    requires Spells(s, parts)
    ensures Spells("/" + s, parts)
  {
    if parts != [] {
      var lead, rest :| PartOf(s, lead, parts[0], rest) && Spells(rest, parts[1..]);
      assert "/" + s == ("/" + lead) + parts[0] + rest;
      assert PartOf("/" + s, "/" + lead, parts[0], rest);
    }
  }

  /** The path parts of an Agent DID are those the prefix spells, and no prefix spells two lists of parts. */
  lemma SegmentsMean(prefix: string, parts: seq<string>)
    ensures Segments(prefix) == parts <==> Spells(prefix, parts)
  {
    SegmentsAreSpelled(prefix);
    if Spells(prefix, parts) { SpelledIsSegments(prefix, parts); }
  }

  function QuoteAll(parts: seq<string>): (r: seq<string>)
    ensures |r| == |parts| && forall i :: 0 <= i < |parts| ==> r[i] == Quote(parts[i])
  {
    if parts == [] then [] else [Quote(parts[0])] + QuoteAll(parts[1..])
  }

  function AgentDid(read: Reader, host: string, prefix: string, id: string): Result<string, Error> {
    if !HostAccepted(read, host) || id == "" then Err(InvalidHost)
    else Ok(DID_WEB + Join([Quote(host)] + QuoteAll(Segments(prefix)) + [Quote(id)], ':'))
  }

  lemma JoinThird(a: string, b: string, rest: seq<string>)
    requires rest != []
    ensures Join([a, b] + rest, ':') == a + [':'] + b + [':'] + Join(rest, ':')
  {
    var all := [a, b] + rest;
    assert all[1..] == [b] + rest;
    assert all[1..][1..] == rest;
  }

  lemma JoinDidWeb(start: seq<string>, host: string, segments: seq<string>, id: string)
    requires start == ["did", "web", host]
    ensures Join(start + segments + [id], ':') == DID_WEB + Join([host] + segments + [id], ':')
  {
    var rest := [host] + segments + [id];
    assert start + segments + [id] == ["did", "web"] + rest;
    JoinThird("did", "web", rest);
    assert "did" + [':'] + "web" + [':'] == DID_WEB;
  }

  /** The loop over the parts of the path prefix. */
  method Extended(start: seq<string>, segments: seq<string>) returns (components: seq<string>)
    ensures components == start + QuoteAll(segments)
  {
    hide Quote;
    components := start;
    for i := 0 to |segments|
      invariant components == start + QuoteAll(segments)[..i]
    {
      components := components + [Quote(segments[i])];
    }
  }

  /** create_service_scoped_agent_did */
  method CreateAgentDid(read: Reader, host: string, prefix: string, id: string) returns (did: Result<string, Error>)
    ensures did == AgentDid(read, host, prefix, id)
    ensures did.Ok? <==>
              && host != "" && id != "" && (forall c :: c in "/?#\t\r\n" ==> c !in host)
              && read(host).hostname != None && read(host).user == None && read(host).password == None
  {
    HostAcceptedMeans(read, host);
    hide HostAccepted, Join, Quote, QuoteAll, Segments;
    if !HostAccepted(read, host) || id == "" {
      return Err(InvalidHost);
    }
    var start := ["did", "web", Quote(host)];
    var components := Extended(start, Segments(prefix));
    components := components + [Quote(id)];
    JoinDidWeb(start, Quote(host), QuoteAll(Segments(prefix)), Quote(id));
    return Ok(Join(components, ':'));
  }

  /** A path part a did:web identifier may hold, once decoded. */
  predicate Admissible(part: string) {
    part != "" && part != "." && part != ".." && '/' !in part && '\\' !in part && '?' !in part && '#' !in part
  }

  /** The checks on the parts of an identifier. */
  function TakeApart(read: Reader, parts: seq<string>): Result<(string, seq<string>), Error>
    requires parts != []
  {
    var host := Unquote(parts[0]);
    if parts[0] == "" || !(forall i :: 0 <= i < |parts| ==> WellEscaped(parts[i])) then Err(InvalidIdentifier)
    else if !HostResolvable(read, host) then Err(InvalidIdentifier)
    else if !(forall i :: 1 <= i < |parts| ==> parts[i] != "" && Admissible(Unquote(parts[i])))
        then Err(InvalidIdentifier)
    else Ok((host, parts[1..]))
  }

  predicate IsAscii(s: string) {
    forall i :: 0 <= i < |s| ==> s[i] as int < 128
  }

  const DID_WEB := "did:web:"

  /** _did_web_parts */
  function DidWebParts(read: Reader, did: string): Result<(string, seq<string>), Error> {
    if !(DID_WEB <= did) then Err(UnsupportedMethod)
    else if !IsAscii(did) then Err(InvalidIdentifier)
    else TakeApart(read, Split(did[|DID_WEB|..], ':'))
  }

  /** did_web_document_url, without insecure loopback */
  function DocumentUrl(read: Reader, did: string): Result<string, Error> {
    match DidWebParts(read, did)
    case Err(e) => Err(e)
    case Ok((host, parts)) =>
      Ok("https://" + host + if parts == [] then "/.well-known/did.json" else "/" + Join(parts, '/') + "/did.json")
  }

  /** Whatever the identifier, the URL made of it is on a visible host, and no part of its path, decoded, is empty, a
      dot segment or more than one part. */
  lemma DocumentPathIsPlain(read: Reader, did: string)
    requires DidWebParts(read, did).Ok?
    ensures var (host, parts) := DidWebParts(read, did).value;
            && host != "" && (forall c :: c in host ==> ' ' < c < '\U{7F}')
            && forall i :: 0 <= i < |parts| ==>
                 var part := Unquote(parts[i]);
                 && part != "" && part != "." && part != ".."
                 && '/' !in part && '\\' !in part && '?' !in part && '#' !in part
  {
    var parts := Split(did[|DID_WEB|..], ':');
    hide Split, Unquote, WellEscaped;
    assert forall i :: 1 <= i < |parts| ==> parts[1..][i - 1] == parts[i];
  }

  lemma {:induction false} JoinAscii(parts: seq<string>, sep: char)
    requires sep as int < 128 && forall i :: 0 <= i < |parts| ==> IsClean(parts[i])
    ensures IsAscii(Join(parts, sep))
    decreases |parts|
  {
    if |parts| > 1 { JoinAscii(parts[1..], sep); }
  }

  /** `code` is an encoding of `text` that survives in an identifier. */
  predicate Codes(code: string, text: string) {
    Unquote(code) == text && code != "" && IsClean(code) && WellEscaped(code)
  }

  lemma TakeApartCoded(read: Reader, parts: seq<string>, host: string, path: seq<string>)
    requires |parts| == |path| + 1 && Codes(parts[0], host)
    requires forall i :: 1 <= i < |parts| ==> Codes(parts[i], path[i - 1])
    ensures TakeApart(read, parts).Ok? <==>
            HostResolvable(read, host) && forall i :: 0 <= i < |path| ==> Admissible(path[i])
    ensures TakeApart(read, parts).Ok? ==> TakeApart(read, parts).value == (host, parts[1..])
  {
    assert forall i :: 0 <= i < |path| ==> Codes(parts[i + 1], path[i]);
    assert forall i :: 0 <= i < |parts| ==> WellEscaped(parts[i]);
  }

  lemma QuoteCodes(text: string)
    requires IsOctets(text) && text != ""
    ensures Codes(Quote(text), text) && ':' !in Quote(text)
  {
    QuoteRoundTrip(text);
  }

  /** The parts that went into an Agent DID come out of it: the host decoded, the path still encoded. It can be
      taken apart exactly when the host can be resolved and no part would be a path of its own. */
  lemma AgentDidRoundTrip(read: Reader, host: string, prefix: string, id: string)
    requires IsOctets(host) && IsOctets(prefix) && IsOctets(id) && AgentDid(read, host, prefix, id).Ok?
    ensures var did := AgentDid(read, host, prefix, id).value;
            var path := Segments(prefix) + [id];
            && (DidWebParts(read, did).Ok? <==>
                  HostResolvable(read, host) && forall i :: 0 <= i < |path| ==> Admissible(path[i]))
            && (DidWebParts(read, did).Ok? ==> DidWebParts(read, did).value == (host, QuoteAll(path)))
  {
    var path := Segments(prefix) + [id];
    var parts := [Quote(host)] + QuoteAll(path);
    AgentDidOf(read, host, prefix, id);
    hide *;
    CodedParts(host, path);
    TakeApartCoded(read, parts, host, path);
    assert parts[1..] == QuoteAll(path);
    DidWebPartsOf(read, parts);
  }

  lemma AgentDidOf(read: Reader, host: string, prefix: string, id: string)
    requires IsOctets(prefix) && IsOctets(id) && AgentDid(read, host, prefix, id).Ok?
    ensures var path := Segments(prefix) + [id];
            && host != "" && (forall i :: 0 <= i < |path| ==> IsOctets(path[i]) && path[i] != "")
            && AgentDid(read, host, prefix, id).value == DID_WEB + Join([Quote(host)] + QuoteAll(path), ':')
  {
    hide Join, Quote, Segments, IsOctets;
    var path := Segments(prefix) + [id];
    assert [Quote(host)] + QuoteAll(path) == [Quote(host)] + QuoteAll(Segments(prefix)) + [Quote(id)];
  }

  lemma DidWebPartsOf(read: Reader, parts: seq<string>)
    requires parts != [] && forall i :: 0 <= i < |parts| ==> ':' !in parts[i] && IsClean(parts[i])
    ensures DidWebParts(read, DID_WEB + Join(parts, ':')) == TakeApart(read, parts)
  {
    hide Join, Split, IsClean, TakeApart, IsAscii;
    DidSplits(parts);
  }

  lemma HeadedSplits(head: string, parts: seq<string>)
    requires IsAscii(head) && parts != [] && forall i :: 0 <= i < |parts| ==> ':' !in parts[i] && IsClean(parts[i])
    ensures var did := head + Join(parts, ':');
            head <= did && IsAscii(did) && Split(did[|head|..], ':') == parts
  {
    hide Join, Split, IsClean;
    var did := head + Join(parts, ':');
    assert did[|head|..] == Join(parts, ':');
    SplitUndoesJoin(parts, ':');
    JoinAscii(parts, ':');
  }

  lemma DidWebIsAscii()
    ensures IsAscii(DID_WEB)
  {
  }

  lemma DidSplits(parts: seq<string>)
    requires parts != [] && forall i :: 0 <= i < |parts| ==> ':' !in parts[i] && IsClean(parts[i])
    ensures var did := DID_WEB + Join(parts, ':');
            DID_WEB <= did && IsAscii(did) && Split(did[|DID_WEB|..], ':') == parts
  {
    hide *;
    DidWebIsAscii();
    HeadedSplits(DID_WEB, parts);
  }

  lemma CodedParts(host: string, path: seq<string>)
    requires IsOctets(host) && host != "" && forall i :: 0 <= i < |path| ==> IsOctets(path[i]) && path[i] != ""
    ensures var parts := [Quote(host)] + QuoteAll(path);
            && Codes(parts[0], host) && (forall i :: 1 <= i < |parts| ==> Codes(parts[i], path[i - 1]))
            && (forall i :: 0 <= i < |parts| ==> ':' !in parts[i] && IsClean(parts[i]))
  {
    hide Quote, IsOctets;
    QuoteCodes(host);
    var parts := [Quote(host)] + QuoteAll(path);
    forall i | 1 <= i < |parts| ensures Codes(parts[i], path[i - 1]) && ':' !in parts[i] {
      QuoteCodes(path[i - 1]);
    }
  }

  // ---- the URL template ----

  const PLACEHOLDER := "{agent_did_id}"

  /** The text before and after the first placeholder. */
  function Cut(template: string): Option<(string, string)>
    decreases |template|
  {
    if PLACEHOLDER <= template then Some(("", template[|PLACEHOLDER|..]))
    else if template == "" then None
    else
      match Cut(template[1..])
      case None => None
      case Some((before, after)) => Some(([template[0]] + before, after))
  }

  predicate IsHttpsUrl(read: Reader, url: string) {
    && |url| >= 8 && Lower(url[..8]) == "https://"
    && After(url, '#').GetOr("") == ""
    && var a := read(AuthorityText(url[8..]));
       a.hostname.Some? && a.user.None? && a.password.None?
  }

  /** render_did_url */
  function RenderDidUrl(read: Reader, template: string, id: string): Result<string, Error> {
    var cut := Cut(template);
    if cut.None? || Cut(cut.value.1).Some? then Err(NotOnePlaceholder)
    else
      var rendered := cut.value.0 + Quote(id) + cut.value.1;
      if IsHttpsUrl(read, rendered) then Ok(rendered) else Err(NotHttps)
  }

  /** The template yields the URL at which the Agent DID of `id` is resolved. */
  predicate Matches(read: Reader, host: string, prefix: string, template: string, id: string) {
    && RenderDidUrl(read, template, id).Ok?
    && AgentDid(read, host, prefix, id).Ok?
    && DocumentUrl(read, AgentDid(read, host, prefix, id).value) == RenderDidUrl(read, template, id)
  }

  const SAMPLE: string := "validation"

  /** Everything in a document URL before the part that is the identifier. */
  function UrlHead(host: string, segments: seq<string>): string {
    "https://" + host + "/" + Slashed(QuoteAll(segments))
  }

  function Slashed(parts: seq<string>): string {
    if parts == [] then "" else parts[0] + "/" + Slashed(parts[1..])
  }

  lemma {:induction false} JoinLast(parts: seq<string>, last: string)
    ensures Join(parts + [last], '/') == Slashed(parts) + last
    decreases |parts|
  {
    if parts == [] {
      assert parts + [last] == [last];
    } else {
      JoinLast(parts[1..], last);
      assert (parts + [last])[1..] == parts[1..] + [last];
    }
  }

  predicate Resolvable(read: Reader, host: string, prefix: string) {
    && HostAccepted(read, host) && HostResolvable(read, host)
    && forall i :: 0 <= i < |Segments(prefix)| ==> Admissible(Segments(prefix)[i])
  }

  lemma Regroup(a: string, b: string, c: string, d: string, e: string, f: string)
    ensures a + b + (c + (d + e) + f) == a + b + c + d + e + f
  {
  }

  lemma DocumentUrlOf(read: Reader, host: string, prefix: string, id: string)
    requires IsOctets(host) && IsOctets(prefix) && IsOctets(id) && AgentDid(read, host, prefix, id).Ok?
    ensures var url := DocumentUrl(read, AgentDid(read, host, prefix, id).value);
            && (url.Ok? <==> Resolvable(read, host, prefix) && Admissible(id))
            && (url.Ok? ==> url.value == UrlHead(host, Segments(prefix)) + Quote(id) + "/did.json")
  {
    AgentDidRoundTrip(read, host, prefix, id);
    assert HostAccepted(read, host);
    hide AgentDid, HostAccepted, HostResolvable, Admissible, Segments, DidWebParts, Quote, Slashed, Join, IsOctets;
    var segments := Segments(prefix);
    var path := segments + [id];
    assert forall i :: 0 <= i < |segments| ==> path[i] == segments[i];
    assert path[|segments|] == id;
    assert QuoteAll(path) == QuoteAll(segments) + [Quote(id)];
    JoinLast(QuoteAll(segments), Quote(id));
    Regroup("https://", host, "/", Slashed(QuoteAll(segments)), Quote(id), "/did.json");
  }

  lemma {:induction false} AuthorityTextEnds(a: string, s: string)
    requires forall i :: 0 <= i < |a| ==> !EndsAuthority(a[i])
    requires s != "" ==> EndsAuthority(s[0])
    ensures AuthorityText(a + s) == a
    decreases |a|
  {
    if a == "" {
      assert a + s == s;
    } else {
      assert (a + s)[1..] == a[1..] + s;
      AuthorityTextEnds(a[1..], s);
    }
  }

  lemma {:induction false} AfterNone(s: string, c: char)
    requires c !in s
    ensures After(s, c).None?
    decreases |s|
  {
    if s != "" { AfterNone(s[1..], c); }
  }

  lemma {:induction false} SlashedHasNoHash(parts: seq<string>)
    requires forall i :: 0 <= i < |parts| ==> IsClean(parts[i])
    ensures '#' !in Slashed(parts)
    decreases |parts|
  {
    if parts != [] { SlashedHasNoHash(parts[1..]); }
  }

  lemma {:induction false} LowerFixed(s: string)
    requires forall i :: 0 <= i < |s| ==> !('A' <= s[i] <= 'Z')
    ensures Lower(s) == s
    decreases |s|
  {
    if s != "" {
      LowerFixed(s[1..]);
      assert s == [s[0]] + s[1..];
    }
  }

  const HTTPS := "https://"

  lemma NotInSum(a: string, b: string, c: char)
    requires c !in a && c !in b
    ensures c !in a + b
  {
  }

  lemma NoHash(scheme: string, host: string, rest: string)
    requires '#' !in scheme && '#' !in host && '#' !in rest
    ensures After(scheme + host + "/" + rest, '#').None?
  {
    hide *;
    NotInSum(scheme, host, '#');
    assert '#' !in "/";
    NotInSum(scheme + host, "/", '#');
    NotInSum(scheme + host + "/", rest, '#');
    AfterNone(scheme + host + "/" + rest, '#');
  }

  lemma AuthorityIsHost(scheme: string, host: string, rest: string)
    requires |scheme| == 8 && forall i :: 0 <= i < |host| ==> !EndsAuthority(host[i])
    ensures AuthorityText((scheme + host + "/" + rest)[8..]) == host
    ensures (scheme + host + "/" + rest)[..8] == scheme
  {
    hide AuthorityText;
    AuthorityTextEnds(host, "/" + rest);
    assert (scheme + host + "/" + rest)[8..] == host + ("/" + rest);
  }

  /** A document URL passes the check on rendered templates. */
  lemma DocumentUrlIsHttps(read: Reader, host: string, rest: string)
    requires HostAccepted(read, host) && '#' !in rest
    ensures IsHttpsUrl(read, HTTPS + host + "/" + rest)
  {
    hide Lower, AuthorityText, After;
    LowerFixed(HTTPS);
    assert '#' !in HTTPS && '#' !in host;
    NoHash(HTTPS, host, rest);
    AuthorityIsHost(HTTPS, host, rest);
  }

  /** Where the placeholder stands: where the identifier stands in the document URL. */
  predicate Aligned(host: string, prefix: string, template: string) {
    Cut(template).Some? && |Cut(template).value.0| == |UrlHead(host, Segments(prefix))|
  }

  const DID_JSON := "/did.json"

  lemma MatchesMeans(read: Reader, host: string, prefix: string, template: string, id: string)
    requires IsOctets(host) && IsOctets(prefix) && IsOctets(id)
    ensures Matches(read, host, prefix, template, id) ==>
              && Resolvable(read, host, prefix) && Admissible(id) && Cut(template).Some?
                 && Cut(Cut(template).value.1).None?
              && Cut(template).value.0 + Quote(id) + Cut(template).value.1 ==
                 UrlHead(host, Segments(prefix)) + Quote(id) + DID_JSON
  {
    if AgentDid(read, host, prefix, id).Ok? {
      DocumentUrlOf(read, host, prefix, id);
    }
  }

  lemma PathHasNoHash(prefix: string, id: string)
    requires IsOctets(prefix) && IsOctets(id)
    ensures '#' !in Slashed(QuoteAll(Segments(prefix))) + Quote(id) + DID_JSON
  {
    hide Quote, Slashed;
    var segments := Segments(prefix);
    forall i | 0 <= i < |segments| ensures IsClean(QuoteAll(segments)[i]) {
      QuoteRoundTrip(segments[i]);
    }
    SlashedHasNoHash(QuoteAll(segments));
    QuoteRoundTrip(id);
  }

  lemma RenderedUrlIsHttps(read: Reader, host: string, prefix: string, id: string)
    requires HostAccepted(read, host) && IsOctets(prefix) && IsOctets(id)
    ensures IsHttpsUrl(read, UrlHead(host, Segments(prefix)) + Quote(id) + DID_JSON)
  {
    hide HostAccepted, IsHttpsUrl, Quote, Slashed;
    PathHasNoHash(prefix, id);
    var path := Slashed(QuoteAll(Segments(prefix)));
    DocumentUrlIsHttps(read, host, path + Quote(id) + DID_JSON);
    assert HTTPS + host + "/" + (path + Quote(id) + DID_JSON) == HTTPS + host + "/" + path + Quote(id) + DID_JSON;
  }

  /** A template that renders to the document URL of one identifier matches for it. */
  lemma FittingMatches(read: Reader, host: string, prefix: string, template: string, id: string)
    requires IsOctets(host) && IsOctets(prefix) && IsOctets(id) && Admissible(id) && Resolvable(read, host, prefix)
    requires Cut(template).Some? && Cut(Cut(template).value.1).None?
    requires Cut(template).value.0 + Quote(id) + Cut(template).value.1 ==
             UrlHead(host, Segments(prefix)) + Quote(id) + DID_JSON
    ensures Matches(read, host, prefix, template, id)
  {
    assert AgentDid(read, host, prefix, id).Ok?;
    hide HostAccepted, HostResolvable, Quote, DocumentUrl, IsHttpsUrl, Admissible, AgentDid, UrlHead, Cut;
    DocumentUrlOf(read, host, prefix, id);
    RenderedUrlIsHttps(read, host, prefix, id);
  }

  lemma SampleQuotes()
    ensures Quote(SAMPLE) == SAMPLE && Quote("0") == "0" && Quote("1") == "1" && IsOctets(SAMPLE)
  {
    hide Quote;
    QuoteSafe(SAMPLE);
    QuoteSafe("0");
    QuoteSafe("1");
  }

  lemma AlignedTemplate(host: string, prefix: string, template: string)
    requires Cut(template).Some? && Aligned(host, prefix, template)
    requires Cut(template).value.0 + SAMPLE + Cut(template).value.1 ==
             UrlHead(host, Segments(prefix)) + SAMPLE + DID_JSON
    ensures Cut(template) == Some((UrlHead(host, Segments(prefix)), DID_JSON))
  {
    hide Cut, UrlHead;
    var (before, after) := Cut(template).value;
    Parting(before, after, UrlHead(host, Segments(prefix)), DID_JSON, SAMPLE);
  }

  lemma DigitsAreAdmissible()
    ensures IsOctets("0") && IsOctets("1") && Admissible("0") && Admissible("1")
  {
    assert "0" != "." && "1" != ".";
  }

  lemma AlignedGeneralises(read: Reader, host: string, prefix: string, template: string, id: string)
    requires IsOctets(host) && IsOctets(prefix) && Matches(read, host, prefix, template, SAMPLE)
    requires Aligned(host, prefix, template) && IsOctets(id) && Admissible(id)
    ensures Matches(read, host, prefix, template, id)
  {
    hide Resolvable, Quote, Matches, Cut, UrlHead, Admissible, IsOctets, Segments;
    SampleQuotes();
    MatchesMeans(read, host, prefix, template, SAMPLE);
    AlignedTemplate(host, prefix, template);
    FittingMatches(read, host, prefix, template, id);
  }

  lemma GeneralIsAligned(read: Reader, host: string, prefix: string, template: string)
    requires IsOctets(host) && IsOctets(prefix)
    requires Matches(read, host, prefix, template, "0") && Matches(read, host, prefix, template, "1")
    ensures Aligned(host, prefix, template)
  {
    DigitsAreAdmissible();
    hide Resolvable, Quote, Matches, Cut, UrlHead, Admissible, IsOctets, Segments;
    SampleQuotes();
    MatchesMeans(read, host, prefix, template, "0");
    MatchesMeans(read, host, prefix, template, "1");
    SamePlace(Cut(template).value.0, Cut(template).value.1, UrlHead(host, Segments(prefix)), DID_JSON, '0', '1');
  }

  /** The constructor checks its template on one sample identifier. When that check passes, the template is right
      for every identifier a DID may hold if and only if the placeholder stands where the identifier belongs. */
  lemma TemplateCheckGeneralises(read: Reader, host: string, prefix: string, template: string)
    requires IsOctets(host) && IsOctets(prefix) && Matches(read, host, prefix, template, SAMPLE)
    ensures Aligned(host, prefix, template) <==>
            forall id :: IsOctets(id) && Admissible(id) ==> Matches(read, host, prefix, template, id)
  {
    DigitsAreAdmissible();
    hide *;
    if Aligned(host, prefix, template) {
      forall id | IsOctets(id) && Admissible(id) ensures Matches(read, host, prefix, template, id) {
        AlignedGeneralises(read, host, prefix, template, id);
      }
    } else if forall id :: IsOctets(id) && Admissible(id) ==> Matches(read, host, prefix, template, id) {
      GeneralIsAligned(read, host, prefix, template);
    }
  }

  lemma Parting(before: string, after: string, head: string, tail: string, word: string)
    requires |before| == |head| && before + word + after == head + word + tail
    ensures before == head && after == tail
  {
    assert (before + word + after)[..|before|] == before && (head + word + tail)[..|before|] == head;
    assert (before + word + after)[|before| + |word|..] == after && (head + word + tail)[|before| + |word|..] == tail;
  }

  lemma OneSpot(before: string, after: string, x: char, y: char, k: nat)
    requires x != y && k <= |before| + |after|
    ensures (before + [x] + after)[k] != (before + [y] + after)[k] <==> k == |before|
  {
  }

  lemma SamePlace(before: string, after: string, head: string, tail: string, x: char, y: char)
    requires x != y && before + [x] + after == head + [x] + tail && before + [y] + after == head + [y] + tail
    ensures |before| == |head|
  {
    assert |before + [x] + after| == |head + [x] + tail|;
    OneSpot(before, after, x, y, |before|);
    OneSpot(head, tail, x, y, |before|);
  }

  predicate OccursAt(s: string, word: string, k: int) {
    0 <= k && k + |word| <= |s| && s[k..k + |word|] == word
  }

  /** It is enough that the sample occurs only once in its document URL. */
  lemma TemplateCheckSuffices(read: Reader, host: string, prefix: string, template: string, id: string)
    requires IsOctets(host) && IsOctets(prefix) && Matches(read, host, prefix, template, SAMPLE)
    requires var url := RenderDidUrl(read, template, SAMPLE).value;
             forall j, k :: OccursAt(url, SAMPLE, j) && OccursAt(url, SAMPLE, k) ==> j == k
    requires IsOctets(id) && Admissible(id)
    ensures Matches(read, host, prefix, template, id)
  {
    SampleQuotes();
    MatchesMeans(read, host, prefix, template, SAMPLE);
    var url := RenderDidUrl(read, template, SAMPLE).value;
    var head := UrlHead(host, Segments(prefix));
    var before := Cut(template).value.0;
    assert OccursAt(url, SAMPLE, |before|);
    assert OccursAt(url, SAMPLE, |head|);
    TemplateCheckGeneralises(read, host, prefix, template);
  }

  lemma {:induction false} CutNone(s: string)
    requires '{' !in s
    ensures Cut(s).None?
    decreases |s|
  {
    assert PLACEHOLDER[0] == '{';
    if s != "" { CutNone(s[1..]); }
  }

  lemma {:induction false} CutAt(before: string, after: string)
    requires '{' !in before
    ensures Cut(before + PLACEHOLDER + after) == Some((before, after))
    decreases |before|
  {
    var all := before + PLACEHOLDER + after;
    assert PLACEHOLDER[0] == '{';
    if before == "" {
      assert all[|PLACEHOLDER|..] == after;
    } else {
      assert all[0] == before[0];
      assert !(PLACEHOLDER <= all) by {
        assert PLACEHOLDER[0] != all[0];
      }
      assert all[1..] == before[1..] + PLACEHOLDER + after;
      CutAt(before[1..], after);
      assert [before[0]] + before[1..] == before;
    }
  }

  const EXAMPLE := ".example"
  const DECOY := EXAMPLE + "/" + SAMPLE + DID_JSON

  lemma DecoyUrl(host: string)
    requires host == SAMPLE + EXAMPLE
    ensures UrlHead(host, Segments("")) == HTTPS + host + "/"
    ensures HTTPS + SAMPLE + DECOY == HTTPS + host + "/" + SAMPLE + DID_JSON
  {
    assert Segments("") == [];
  }

  lemma DecoyCut()
    ensures Cut(HTTPS + PLACEHOLDER + DECOY) == Some((HTTPS, DECOY)) && Cut(DECOY).None?
  {
    hide Cut;
    assert '{' !in HTTPS && '{' !in DECOY;
    CutAt(HTTPS, DECOY);
    CutNone(DECOY);
  }

  lemma DecoyPasses(read: Reader, host: string)
    requires host == SAMPLE + EXAMPLE && Resolvable(read, host, "")
    ensures IsOctets(host) && IsOctets("") && Matches(read, host, "", HTTPS + PLACEHOLDER + DECOY, SAMPLE)
    ensures !Aligned(host, "", HTTPS + PLACEHOLDER + DECOY)
  {
    assert Admissible(SAMPLE) && IsOctets(host) && IsOctets("");
    hide Cut, UrlHead, Resolvable, Matches, Quote, Segments, Admissible;
    SampleQuotes();
    DecoyUrl(host);
    DecoyCut();
    FittingMatches(read, host, "", HTTPS + PLACEHOLDER + DECOY, SAMPLE);
  }

  /** Without that the check does not generalise: on a host that begins with the sample, a template with the
      placeholder in the host passes although it is wrong for other identifiers. */
  lemma SampleCheckIsNotEnough(read: Reader)
    requires Resolvable(read, SAMPLE + EXAMPLE, "")
    ensures var template := HTTPS + PLACEHOLDER + DECOY;
            && Matches(read, SAMPLE + EXAMPLE, "", template, SAMPLE)
            && exists id :: IsOctets(id) && Admissible(id) && !Matches(read, SAMPLE + EXAMPLE, "", template, id)
  {
    hide *;
    DecoyPasses(read, SAMPLE + EXAMPLE);
    TemplateCheckGeneralises(read, SAMPLE + EXAMPLE, "", HTTPS + PLACEHOLDER + DECOY);
  }
}
