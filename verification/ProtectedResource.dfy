/** fetch_protected_resource: a loop that talks to a server it does not trust.

    Everything outside the loop is a World of arbitrary answers, one for each moment of the run, so a
    statement about every World is a statement about every behaviour of the server, the network, the
    cache and the credential store. The method returns the trace of what it did; its main result is that
    every event of every trace is admissible given the events before it. */
module ProtectedResource {
  import opened Prelude
  import opened Text
  import opened Urls
  import Challenge

  type Headers = map<string, string>

  datatype Response = Response(status: int, headers: seq<(string, string)>, size: nat)

  datatype Inspection = Inspection(serviceDid: string, methods: Option<seq<string>>)

  datatype Options = Options(
    url: Url, headers: Headers, additional: seq<(string, string)>, credentialId: Option<string>,
    grantType: Option<string>, maxRedirects: nat, allowLoopback: bool, maximumBytes: nat)

  /** How an awaited call ends. Unavailable is CredentialUnavailableError and Recoverable any other
      exception the discovery block swallows; Fatal is an exception it lets through. */
  datatype Outcome<T> = Got(value: T) | Unavailable | Recoverable | Fatal

  /** What the run meets after n events. `methods` are the authentication methods the OpenAPI document
      asks for, None when it says nothing usable; `parse` and `join` are urlsplit and urljoin. */
  datatype World = World(
    inspect: nat -> Outcome<Inspection>, methods: nat -> Outcome<Option<seq<string>>>, send: nat -> Outcome<Response>,
    present: nat -> Outcome<Headers>, grant: nat -> Outcome<()>, parse: string -> Url, join: (Url, string) -> Url)

  datatype Event =
    | Inspected(url: Url, inspection: Option<Inspection>)
    | Advised(url: Url, advice: Option<Option<seq<string>>>)
    | Anonymous(url: Url, headers: Headers, response: Option<Response>)
    | Presented(url: Url, methods: seq<string>, presentation: Option<Headers>)
    | Granted(url: Url, grantType: string, granted: bool)
    | Authenticated(url: Url, headers: Headers, controlled: Headers, response: Option<Response>)
  {
    predicate IsSend() { Anonymous? || Authenticated? }
  }

  datatype Error =
    | BadUrl | NoLocation | FragmentInLocation | WeakenedHttps | AmbiguousHeader | ForeignInspect | WrongService
    | GrantTypeNotPermitted | HeaderConflict | NoCredential | TooLarge | TooManyRedirects | Propagated

  // ---- headers ----

  predicate IsSecret(name: string) {
    Lower(name) in {"authorization", "aep-authorization", "proxy-authorization", "cookie", "payment",
                    "payment-signature", "x-payment", "x-api-key", "api-key"}
  }

  function AnonymousHeaders(headers: Headers): Headers {
    map name | name in headers && !IsSecret(name) :: headers[name]
  }

  predicate Names(headers: Headers, lower: string) {
    exists name :: name in headers && Lower(name) == lower
  }

  function WithoutName(headers: Headers, lower: string): Headers {
    map name | name in headers && Lower(name) != lower :: headers[name]
  }

  /** The loop over the additional headers; None when one of them conflicts with the presentation. */
  function Overlaid(headers: Headers, additional: seq<(string, string)>, controlled: Headers): Option<Headers>
    decreases |additional|
  {
    if additional == [] then Some(headers)
    else
      var (name, value) := additional[0];
      if Names(controlled, Lower(name)) || Lower(name) == "aep-authorization" then None
      else Overlaid(WithoutName(headers, Lower(name))[name := value], additional[1..], controlled)
  }

  function Combined(o: Options, controlled: Headers, original: bool): Option<Headers> {
    var overlaid := Overlaid(if original then AnonymousHeaders(o.headers) else map[],
                             if original then o.additional else [], controlled);
    if overlaid.None? then None
    else
      var uncontrolled := map name | name in overlaid.value && !Names(controlled, Lower(name)) :: overlaid.value[name];
      Some(uncontrolled + controlled)
  }

  /** _authenticated_headers */
  method AuthenticatedHeaders(o: Options, controlled: Headers, original: bool) returns (combined: Option<Headers>)
    ensures combined == Combined(o, controlled, original)
  {
    var headers := if original then AnonymousHeaders(o.headers) else map[];
    var additional := if original then o.additional else [];
    for i := 0 to |additional|
      invariant Overlaid(headers, additional[i..], controlled) ==
                Overlaid(if original then AnonymousHeaders(o.headers) else map[], additional, controlled)
    {
      var (name, value) := additional[i];
      assert additional[i..][0] == additional[i] && additional[i..][1..] == additional[i + 1..];
      if Names(controlled, Lower(name)) || Lower(name) == "aep-authorization" {
        return None;
      }
      headers := WithoutName(headers, Lower(name))[name := value];
    }
    headers := map name | name in headers && !Names(controlled, Lower(name)) :: headers[name];
    return Some(headers + controlled);
  }

  /** The last additional header spelled like `lower` in some case. */
  function LastNamed(additional: seq<(string, string)>, lower: string): Option<(string, string)> {
    if additional == [] then None
    else
      var last := additional[|additional| - 1];
      if Lower(last.0) == lower then Some(last) else LastNamed(additional[..|additional| - 1], lower)
  }

  lemma {:induction false} LastNamedOfFirst(additional: seq<(string, string)>, lower: string)
    requires additional != []
    ensures var later := LastNamed(additional[1..], lower);
            LastNamed(additional, lower) ==
            if later.Some? then later else if Lower(additional[0].0) == lower then Some(additional[0]) else None
    decreases |additional|
  {
    if |additional| > 1 {
      var shorter := additional[..|additional| - 1];
      assert shorter[1..] == additional[1..][..|additional| - 2];
      LastNamedOfFirst(shorter, lower);
    }
  }

  lemma {:induction false} OverlaidMeans(headers: Headers, additional: seq<(string, string)>, controlled: Headers,
                                         name: string)
    ensures var r := Overlaid(headers, additional, controlled);
            r.Some? ==>
              var last := LastNamed(additional, Lower(name));
              && (name in r.value <==> if last.Some? then last.value.0 == name else name in headers)
              && (name in r.value ==> r.value[name] == if last.Some? then last.value.1 else headers[name])
    decreases |additional|
  {
    if additional != [] {
      var (n, v) := additional[0];
      LastNamedOfFirst(additional, Lower(name));
      OverlaidMeans(WithoutName(headers, Lower(n))[n := v], additional[1..], controlled, name);
    }
  }

  /** What an authenticated request carries: the presentation as it is; on the original origin also the
      additional headers, the last spelling of each winning over the caller's, and the caller's headers that
      are not secret. On any other origin, nothing but the presentation. */
  lemma CombinedMeans(o: Options, controlled: Headers, original: bool, name: string)
    requires Combined(o, controlled, original).Some?
    ensures var r := Combined(o, controlled, original).value;
            var last := LastNamed(o.additional, Lower(name));
            && (!original ==> r == controlled)
            && (name in controlled ==> name in r && r[name] == controlled[name])
            && (name !in controlled ==>
                  (name in r <==>
                    original && !Names(controlled, Lower(name)) &&
                    if last.Some? then last.value.0 == name else name in o.headers && !IsSecret(name)))
            && (name !in controlled && name in r ==> r[name] == if last.Some? then last.value.1 else o.headers[name])
  {
    OverlaidMeans(if original then AnonymousHeaders(o.headers) else map[], if original then o.additional else [],
                  controlled, name);
    if !original {
      assert Combined(o, controlled, original).value == controlled;
    }
  }

  /** An additional header is refused exactly when it would collide with the presentation. */
  lemma {:induction false} ConflictIff(headers: Headers, additional: seq<(string, string)>, controlled: Headers)
    ensures Overlaid(headers, additional, controlled).None? <==>
            exists i :: 0 <= i < |additional| &&
              (Names(controlled, Lower(additional[i].0)) || Lower(additional[i].0) == "aep-authorization")
    decreases |additional|
  {
    if additional != [] {
      var (n, v) := additional[0];
      var next := WithoutName(headers, Lower(n))[n := v];
      ConflictIff(next, additional[1..], controlled);
      if Overlaid(next, additional[1..], controlled).None? {
        var i :| 0 <= i < |additional[1..]| &&
          (Names(controlled, Lower(additional[1..][i].0)) || Lower(additional[1..][i].0) == "aep-authorization");
        assert additional[1..][i] == additional[i + 1];
      }
      if i :| 0 < i < |additional| && (Names(controlled, Lower(additional[i].0))
                                       || Lower(additional[i].0) == "aep-authorization") {
        assert additional[1..][i - 1] == additional[i];
      }
    }
  }

  function Values(headers: seq<(string, string)>, name: string): seq<string> {
    if headers == [] then []
    else (if Lower(headers[0].0) == name then [headers[0].1] else []) + Values(headers[1..], name)
  }

  /** _header: the one value of a response header, empty when there is none. */
  function Header(headers: seq<(string, string)>, name: string): (value: Result<string, Error>)
    ensures value.Err? ==> value.error.AmbiguousHeader?
  {
    var values := Values(headers, name);
    if |values| > 1 then Err(AmbiguousHeader) else if |values| == 1 then Ok(values[0]) else Ok("")
  }

  /** Field k is the only field of that name. */
  predicate Sole(headers: seq<(string, string)>, name: string, k: int) {
    && 0 <= k < |headers| && Lower(headers[k].0) == name
    && forall j :: 0 <= j < |headers| && j != k ==> Lower(headers[j].0) != name
  }

  lemma {:induction false} NoValues(headers: seq<(string, string)>, name: string)
    ensures Values(headers, name) == [] <==> forall j :: 0 <= j < |headers| ==> Lower(headers[j].0) != name
  {
    if headers != [] {
      NoValues(headers[1..], name);
      assert headers == [headers[0]] + headers[1..];
    }
  }

  /** A value is read exactly when one field has the name. */
  lemma {:induction false} SoleValue(headers: seq<(string, string)>, name: string)
    ensures |Values(headers, name)| == 1 <==> exists k :: Sole(headers, name, k)
    ensures forall k :: Sole(headers, name, k) ==> Header(headers, name) == Ok(headers[k].1)
  {
    if headers != [] {
      var rest := headers[1..];
      SoleValue(rest, name);
      NoValues(rest, name);
      if Lower(headers[0].0) == name {
        if Values(rest, name) == [] { assert Sole(headers, name, 0); }
      } else {
        forall k ensures Sole(headers, name, k + 1) <==> Sole(rest, name, k) { }
        if k :| Sole(headers, name, k) { assert Sole(rest, name, k - 1); }
        if k :| Sole(rest, name, k) { assert Sole(headers, name, k + 1); }
        forall k | Sole(headers, name, k) ensures Header(headers, name) == Ok(headers[k].1) {
          assert Sole(rest, name, k - 1);
        }
      }
    }
  }

  function ChallengeOf(r: Response): (challenge: Result<Option<(string, string)>, Error>)
    ensures challenge.Err? ==> challenge.error.AmbiguousHeader?
  {
    match Header(r.headers, "www-authenticate")
    case Err(e) => Err(e)
    case Ok(value) => Ok(Challenge.Read(r.status, value))
  }

  predicate IsRedirect(status: int) {
    status in {301, 302, 303, 307, 308}
  }

  /** _redirect: the next target, and whether it is on another origin. */
  function Redirect(w: World, r: Response, target: Url, allowLoopback: bool): Result<(Url, bool), Error> {
    match Header(r.headers, "location")
    case Err(e) => Err(e)
    case Ok(location) =>
      if location == "" then Err(NoLocation)
      else if '#' in location then Err(FragmentInLocation)
      else
        var next := w.join(target, location);
        if !ValidResource(next, allowLoopback) then Err(BadUrl)
        else if target.scheme == "https" && next.scheme != "https" then Err(WeakenedHttps)
        else Ok((next, !SameOrigin(target, next)))
  }

  // ---- what a trace may contain ----

  predicate SafeTarget(o: Options, url: Url) {
    ValidResource(url, o.allowLoopback) && (o.url.scheme == "https" ==> url.scheme == "https")
  }

  /** Every request went to the origin of the caller's URL. */
  ghost predicate Home(o: Options, trace: seq<Event>) {
    forall j :: 0 <= j < |trace| && trace[j].IsSend() ==> SameOrigin(o.url, trace[j].url)
  }

  /** The run has left that origin, or is about to. */
  ghost predicate Departed(o: Options, past: seq<Event>, url: Url) {
    !SameOrigin(o.url, url) || !Home(o, past)
  }

  /** The last request sent was an anonymous one for the same URL, answered by a challenge whose Inspect URL is
      on the URL's origin and whose Service DID is the one Inspect then reported. */
  ghost predicate Challenged(w: World, past: seq<Event>, url: Url) {
    exists c :: 0 <= c < |past| - 1 && ChallengedAt(w, past, url, c)
  }

  ghost predicate ChallengedAt(w: World, past: seq<Event>, url: Url, c: int)
    requires 0 <= c < |past| - 1
  {
    && past[c].Anonymous? && past[c].url == url && past[c].response.Some?
    && (forall k :: c < k < |past| ==> !past[k].IsSend())
    && var challenge := ChallengeOf(past[c].response.value);
       && challenge.Ok? && challenge.value.Some?
       && SameOrigin(url, w.parse(challenge.value.value.1))
       && past[c + 1].Inspected? && past[c + 1].url == url && past[c + 1].inspection.Some?
       && past[c + 1].inspection.value.serviceDid == challenge.value.value.0
  }

  predicate Redirected(e: Event) {
    e.IsSend() && e.response.Some? && IsRedirect(e.response.value.status)
  }

  /** The run is at `url`: it started there, or stayed there, or the last response redirected it there. */
  predicate At(o: Options, w: World, past: seq<Event>, url: Url) {
    if past == [] then url == o.url
    else
      var last := past[|past| - 1];
      if Redirected(last) then Redirect(w, last.response.value, last.url, o.allowLoopback) ==
          Ok((url, !SameOrigin(last.url, url)))
      else url == last.url
  }

  /** What each event promises, given the events before it. */
  ghost predicate Admissible(o: Options, w: World, past: seq<Event>, e: Event) {
    At(o, w, past, e.url) &&
    match e
    case Anonymous(url, headers, _) =>
      SafeTarget(o, url) && headers == if SameOrigin(o.url, url) then AnonymousHeaders(o.headers) else map[]
    case Presented(url, methods, _) =>
      SafeTarget(o, url) && methods != [] && (o.grantType.Some? ==> o.grantType.value in methods)
    case Granted(url, grantType, _) =>
      o.credentialId.None? && past != [] && past[|past| - 1].Presented? && past[|past| - 1].url == url
      && grantType in past[|past| - 1].methods
    case Authenticated(url, headers, presentation, _) =>
      && SafeTarget(o, url)
      && past != [] && past[|past| - 1].Presented?
      && past[|past| - 1].url == url && past[|past| - 1].presentation == Some(presentation)
      && Combined(o, presentation, SameOrigin(o.url, url)) == Some(headers)
      && (Departed(o, past, url) ==> Challenged(w, past, url))
    case _ => true
  }

  function FirstGrant(methods: seq<string>): Option<string> {
    if methods == [] then None else if methods[0] != "aep-jwt" then Some(methods[0]) else FirstGrant(methods[1..])
  }

  /** The method the Agent asks a Grant for by itself: the first that is not presenting an assertion. */
  lemma {:induction false} FirstGrantMeans(methods: seq<string>)
    ensures FirstGrant(methods) == None <==> forall m :: m in methods ==> m == "aep-jwt"
    ensures FirstGrant(methods).Some? ==>
              exists k :: 0 <= k < |methods| && FirstGrant(methods) == Some(methods[k]) && methods[k] != "aep-jwt"
                          && forall j :: 0 <= j < k ==> methods[j] == "aep-jwt"
  {
    if methods != [] {
      FirstGrantMeans(methods[1..]);
      assert methods == [methods[0]] + methods[1..];
      assert forall m :: m in methods <==> m == methods[0] || m in methods[1..];
      if methods[0] != "aep-jwt" { assert methods[0] in methods; }
      if methods[0] == "aep-jwt" && FirstGrant(methods).Some? {
        var k :| 0 <= k < |methods[1..]| && FirstGrant(methods) == Some(methods[1..][k])
          && methods[1..][k] != "aep-jwt" && forall j :: 0 <= j < k ==> methods[1..][j] == "aep-jwt";
        assert methods[k + 1] == methods[1..][k];
        assert forall j :: 0 < j < k + 1 ==> methods[j] == methods[1..][j - 1];
      }
    }
  }

  lemma {:induction false} FirstGrantIsPermitted(methods: seq<string>)
    ensures FirstGrant(methods).Some? ==> FirstGrant(methods).value in methods
  {
    if methods != [] { FirstGrantIsPermitted(methods[1..]); }
  }

  function Received(o: Options, answer: Outcome<Response>): Result<Response, Error> {
    if !answer.Got? then Err(Propagated)
    else if answer.value.size > o.maximumBytes then Err(TooLarge)
    else Ok(answer.value)
  }

  /** How many of the responses were redirects. */
  function Hops(trace: seq<Event>): nat {
    if trace == [] then 0
    else Hops(trace[..|trace| - 1]) + if Redirected(trace[|trace| - 1]) then 1 else 0
  }

  /** The response to the last request sent. */
  function LastAnswer(trace: seq<Event>): Option<Response> {
    if trace == [] then None
    else if trace[|trace| - 1].IsSend() then trace[|trace| - 1].response
    else LastAnswer(trace[..|trace| - 1])
  }

  // ---- the one thing to do next ----

  /** What the source does next, given everything that has happened so far. */
  datatype Step =
    | ToInspect(url: Url) | ToConsult(url: Url) | ToProbe(url: Url) | ToPresent(url: Url, methods: seq<string>)
    | ToGrant(url: Url, grantType: string) | ToSend(url: Url, headers: Headers, controlled: Headers)
    | Stop(result: Result<Response, Error>)

  /** The event ends a turn of the loop, if the run goes on after it. */
  predicate Closes(e: Event) { e.Authenticated? || Redirected(e) }

  /** The current turn has not begun. */
  predicate Opening(trace: seq<Event>) { trace == [] || Closes(trace[|trace| - 1]) }

  /** The first usable advice of the current turn. */
  function Policy(trace: seq<Event>): Option<seq<string>> {
    if Opening(trace) then None
    else
      var before, e := trace[..|trace| - 1], trace[|trace| - 1];
      if e.Advised? && Policy(before).None? then e.advice.GetOr(None) else Policy(before)
  }

  /** The turn repeats one whose policy an authenticated answer refuted. */
  predicate Refuted(trace: seq<Event>) {
    if Opening(trace) then trace != [] && !Redirected(trace[|trace| - 1]) else Refuted(trace[..|trace| - 1])
  }

  /** The methods of the last answer of Inspect. */
  function LastListed(trace: seq<Event>): seq<string> {
    if trace == [] then []
    else
      var e := trace[|trace| - 1];
      if e.Inspected? && e.inspection.Some? then e.inspection.value.methods.GetOr([])
      else LastListed(trace[..|trace| - 1])
  }

  function Permitted(o: Options, url: Url, methods: seq<string>): Step {
    if o.grantType.Some? && o.grantType.value !in methods then Stop(Err(GrantTypeNotPermitted))
    else ToPresent(url, methods)
  }

  ghost function AfterDiscovery(o: Options, trace: seq<Event>, url: Url): Step {
    var policy := Policy(trace).GetOr([]);
    if policy == [] || Departed(o, trace, url) then ToProbe(url) else Permitted(o, url, policy)
  }

  /** After a challenge that Inspect has confirmed. */
  function AfterChallenge(o: Options, trace: seq<Event>, url: Url, response: Response): Step {
    var policy := Policy(trace).GetOr([]);
    var usable := if policy != [] then policy else LastListed(trace);
    if usable == [] then Stop(Ok(response)) else Permitted(o, url, usable)
  }

  function AfterRedirect(o: Options, w: World, trace: seq<Event>, url: Url, response: Response): Step {
    match Redirect(w, response, url, o.allowLoopback)
    case Err(e) => Stop(Err(e))
    case Ok((next, _)) => if Hops(trace) > o.maxRedirects then Stop(Err(TooManyRedirects)) else ToInspect(next)
  }

  function AfterProbe(o: Options, w: World, trace: seq<Event>, url: Url, response: Response): Step {
    if IsRedirect(response.status) then AfterRedirect(o, w, trace, url, response)
    else
      match ChallengeOf(response)
      case Err(e) => Stop(Err(e))
      case Ok(None) => Stop(Ok(response))
      case Ok(Some(challenge)) =>
        var inspect := w.parse(challenge.1);
        if !ValidResource(inspect, o.allowLoopback) then Stop(Err(BadUrl))
        else if !SameOrigin(url, inspect) then Stop(Err(ForeignInspect))
        else ToInspect(url)
  }

  /** After an authenticated answer; `policy` is what the turn relied on. */
  function AfterAnswer(o: Options, w: World, trace: seq<Event>, url: Url, policy: seq<string>, response: Response)
    : Step
  {
    var challenge := ChallengeOf(response);
    if policy != [] && challenge.Err? then Stop(Err(challenge.error))
    else if policy != [] && challenge.value.Some? then ToInspect(url)
    else if IsRedirect(response.status) then AfterRedirect(o, w, trace, url, response)
    else Stop(Ok(response))
  }

  /** After the Agent had no presentation to offer. */
  function AfterShortage(o: Options, url: Url, methods: seq<string>): Step {
    if o.credentialId.Some? then Stop(Err(NoCredential))
    else
      var grantType := if Truthy(o.grantType) then o.grantType else FirstGrant(methods);
      if grantType.None? then Stop(Err(NoCredential)) else ToGrant(url, grantType.value)
  }

  /** The step the source takes after the events of `trace`. */
  ghost function Due(o: Options, w: World, trace: seq<Event>): Step {
    if trace == [] then
      if ValidResource(o.url, o.allowLoopback) then ToInspect(o.url) else Stop(Err(BadUrl))
    else
      var before, n := trace[..|trace| - 1], |trace| - 1;
      match trace[n]
      case Inspected(url, inspection) =>
        if Opening(before) then
          if w.inspect(n).Fatal? then Stop(Err(Propagated))
          else if inspection.Some? && !Refuted(before) then ToConsult(url)
          else AfterDiscovery(o, trace, url)
        else if inspection.None? then Stop(Err(Propagated))
        else
          var response := LastAnswer(before);
          if response.None? then Stop(Err(Propagated))
          else
            var challenge := ChallengeOf(response.value);
            if challenge.Err? || challenge.value.None? || inspection.value.serviceDid != challenge.value.value.0 then
              Stop(Err(WrongService))
            else if Policy(trace) == Some([]) then ToConsult(url)
            else AfterChallenge(o, trace, url, response.value)
      case Advised(url, _) =>
        if w.methods(n).Fatal? then Stop(Err(Propagated))
        else if n == 0 || Opening(trace[..n - 1]) || LastAnswer(before).None? then AfterDiscovery(o, trace, url)
        else AfterChallenge(o, trace, url, LastAnswer(before).value)
      case Anonymous(url, _, _) =>
        var received := Received(o, w.send(n));
        if received.Err? then Stop(Err(received.error)) else AfterProbe(o, w, trace, url, received.value)
      case Presented(url, methods, presentation) =>
        if presentation.Some? then
          var combined := Combined(o, presentation.value, SameOrigin(o.url, url));
          if combined.None? then Stop(Err(HeaderConflict)) else ToSend(url, combined.value, presentation.value)
        else if !w.present(n).Unavailable? || (n > 0 && trace[n - 1].Granted?) then Stop(Err(Propagated))
        else AfterShortage(o, url, methods)
      case Granted(url, _, granted) =>
        if granted && n > 0 && trace[n - 1].Presented? then ToPresent(url, trace[n - 1].methods)
        else Stop(Err(Propagated))
      case Authenticated(url, _, _, _) =>
        var received := Received(o, w.send(n));
        if received.Err? then Stop(Err(received.error))
        else AfterAnswer(o, w, trace, url, Policy(before).GetOr([]), received.value)
  }

  function Known<T>(answer: Outcome<T>): Option<T> { if answer.Got? then Some(answer.value) else None }

  /** The event a step leads to when n events came before it. */
  function Happening(o: Options, w: World, step: Step, n: nat): Option<Event> {
    match step
    case ToInspect(url) => Some(Inspected(url, Known(w.inspect(n))))
    case ToConsult(url) => Some(Advised(url, Known(w.methods(n))))
    case ToProbe(url) =>
      Some(Anonymous(url, if SameOrigin(o.url, url) then AnonymousHeaders(o.headers) else map[], Known(w.send(n))))
    case ToPresent(url, methods) => Some(Presented(url, methods, Known(w.present(n))))
    case ToGrant(url, grantType) => Some(Granted(url, grantType, w.grant(n).Got?))
    case ToSend(url, headers, controlled) => Some(Authenticated(url, headers, controlled, Known(w.send(n))))
    case Stop(_) => None
  }

  /** Each event is the one that was due. */
  ghost predicate Runs(o: Options, w: World, trace: seq<Event>) {
    forall i :: 0 <= i < |trace| ==> Happening(o, w, Due(o, w, trace[..i]), i) == Some(trace[i])
  }

  /** Each event is the one that was due, and admissible. */
  ghost predicate Safe(o: Options, w: World, trace: seq<Event>) {
    Runs(o, w, trace) && forall i :: 0 <= i < |trace| ==> Admissible(o, w, trace[..i], trace[i])
  }

  lemma RunsOn(o: Options, w: World, trace: seq<Event>, e: Event)
    requires Runs(o, w, trace) && Happening(o, w, Due(o, w, trace), |trace|) == Some(e)
    ensures Runs(o, w, trace + [e])
  {
    hide Due, Happening;
    var longer := trace + [e];
    forall i | 0 <= i < |longer| ensures Happening(o, w, Due(o, w, longer[..i]), i) == Some(longer[i]) {
      if i < |trace| {
        assert longer[..i] == trace[..i];
      } else {
        assert longer[..i] == trace;
      }
    }
  }

  lemma SafeAppend(o: Options, w: World, trace: seq<Event>, e: Event)
    requires Safe(o, w, trace) && Admissible(o, w, trace, e)
    requires Happening(o, w, Due(o, w, trace), |trace|) == Some(e)
    ensures Safe(o, w, trace + [e])
  {
    hide Due, Happening, Admissible, Runs;
    RunsOn(o, w, trace, e);
    var longer := trace + [e];
    forall i | 0 <= i < |longer| ensures Admissible(o, w, longer[..i], longer[i]) {
      if i < |trace| {
        assert longer[..i] == trace[..i];
      } else {
        assert longer[..i] == trace;
      }
    }
  }

  /** Read off any safe trace: off the caller's origin a request carries nothing of the caller's; no secret
      header goes without authentication; a presentation is used at once and only for the URL it was made
      for; https is never given up. */
  lemma NothingLeaks(o: Options, w: World, trace: seq<Event>, i: nat)
    requires Safe(o, w, trace) && i < |trace| && trace[i].IsSend()
    ensures o.url.scheme == "https" ==> trace[i].url.scheme == "https"
    ensures !SameOrigin(o.url, trace[i].url) ==>
              trace[i].headers == if trace[i].Authenticated? then trace[i].controlled else map[]
    ensures trace[i].Anonymous? ==>
              forall name ::
                && (name in trace[i].headers <==>
                      SameOrigin(o.url, trace[i].url) && name in o.headers && !IsSecret(name))
                && (name in trace[i].headers ==> trace[i].headers[name] == o.headers[name])
    ensures trace[i].Authenticated? ==>
              && i > 0 && trace[i - 1].Presented? && trace[i - 1].url == trace[i].url
              && trace[i - 1].presentation == Some(trace[i].controlled)
  {
    hide Runs, At, Departed, Challenged, IsSecret, ValidResource, SameOrigin;
    assert Admissible(o, w, trace[..i], trace[i]);
    if trace[i].Authenticated? {
      assert trace[..i][i - 1] == trace[i - 1];
      if !SameOrigin(o.url, trace[i].url) {
        CombinedMeans(o, trace[i].controlled, false, "");
      }
    }
  }

  lemma SecretMeans(name: string)
    ensures IsSecret(name) <==>
              || Lower(name) in {"authorization", "aep-authorization", "proxy-authorization", "x-api-key", "api-key"}
              || Lower(name) in {"cookie", "payment", "payment-signature", "x-payment"}
  {
  }

  /** Every request goes to a URL over https, or over http to the loopback interface where that is allowed, that
      carries no user information, fragment or white space. */
  lemma OnlyValidUrls(o: Options, w: World, trace: seq<Event>, i: nat)
    requires Safe(o, w, trace) && i < |trace| && trace[i].IsSend()
    ensures var url := trace[i].url;
            && url.host != "" && url.port != BadPort && url.user == url.password == url.fragment == None && !url.spaced
            && (url.scheme == "https" || (o.allowLoopback && url.scheme == "http"
                                          && url.host in {"localhost", "127.0.0.1", "::1"}))
  {
    hide Runs, At, Combined, Departed, Challenged, AnonymousHeaders;
    assert Admissible(o, w, trace[..i], trace[i]);
  }

  /** Once any request has left the caller's origin, the run authenticates nowhere before the same URL has
      itself challenged an anonymous request and Inspect has confirmed the Service it named. */
  lemma NoAuthenticationUnchallenged(o: Options, w: World, trace: seq<Event>, j: nat, i: nat)
    requires Safe(o, w, trace) && j <= i < |trace|
    requires trace[j].IsSend() && !SameOrigin(o.url, trace[j].url) && trace[i].Authenticated?
    ensures exists c :: 0 <= c < i - 1 && ChallengedAt(w, trace[..i], trace[i].url, c)
  {
    hide Runs, ChallengedAt, Combined, At, SafeTarget;
    assert Admissible(o, w, trace[..i], trace[i]);
    if j < i {
      assert trace[..i][j] == trace[j];
      assert !Home(o, trace[..i]);
    }
    assert Challenged(w, trace[..i], trace[i].url);
  }

  /** The run changes its URL only by following a redirect: the one Location field of the last response, without a
      fragment, to a valid URL that does not give up https. */
  lemma OnlyRedirectsMove(o: Options, w: World, trace: seq<Event>, i: nat)
    requires Safe(o, w, trace) && 0 < i < |trace| && trace[i].url != trace[i - 1].url
    ensures Redirected(trace[i - 1])
    ensures var fields := trace[i - 1].response.value.headers;
            exists k :: Sole(fields, "location", k) && fields[k].1 != "" && '#' !in fields[k].1
                        && trace[i].url == w.join(trace[i - 1].url, fields[k].1)
    ensures ValidResource(trace[i].url, o.allowLoopback)
    ensures trace[i - 1].url.scheme == "https" ==> trace[i].url.scheme == "https"
  {
    hide ValidResource, Values, SameOrigin, Runs;
    assert Admissible(o, w, trace[..i], trace[i]);
    assert trace[..i][i - 1] == trace[i - 1];
    SoleValue(trace[i - 1].response.value.headers, "location");
  }

  /** How many requests for the resource a trace contains. */
  function Sends(trace: seq<Event>): nat {
    if trace == [] then 0
    else Sends(trace[..|trace| - 1]) + if trace[|trace| - 1].IsSend() then 1 else 0
  }

  lemma CountsAppend(trace: seq<Event>, e: Event)
    ensures Sends(trace + [e]) == Sends(trace) + if e.IsSend() then 1 else 0
    ensures Hops(trace + [e]) == Hops(trace) + if Redirected(e) then 1 else 0
    ensures LastAnswer(trace + [e]) == if e.IsSend() then e.response else LastAnswer(trace)
  {
    assert (trace + [e])[..|trace|] == trace;
  }

  lemma HomeAppend(o: Options, trace: seq<Event>, e: Event)
    ensures Home(o, trace + [e]) <==> Home(o, trace) && (e.IsSend() ==> SameOrigin(o.url, e.url))
  {
    assert (trace + [e])[|trace|] == e;
    if !Home(o, trace) {
      var j :| 0 <= j < |trace| && trace[j].IsSend() && !SameOrigin(o.url, trace[j].url);
      assert (trace + [e])[j] == trace[j];
    }
  }

  /** `later` continues `past` at the same URL without sending anything. */
  ghost predicate Quiet(o: Options, w: World, past: seq<Event>, later: seq<Event>, url: Url) {
    && past <= later && (forall k :: |past| <= k < |later| ==> !later[k].IsSend())
    && Safe(o, w, later) && At(o, w, later, url)
    && Sends(later) == Sends(past) && Hops(later) == Hops(past)
    && (Home(o, later) <==> Home(o, past))
    && (Challenged(w, past, url) ==> Challenged(w, later, url))
    && LastAnswer(later) == LastAnswer(past)
  }

  lemma StillChallenged(w: World, past: seq<Event>, url: Url, e: Event)
    requires Challenged(w, past, url) && !e.IsSend()
    ensures Challenged(w, past + [e], url)
  {
    var c :| 0 <= c < |past| - 1 && ChallengedAt(w, past, url, c);
    assert ChallengedAt(w, past + [e], url, c);
  }

  lemma QuietSoFar(o: Options, w: World, past: seq<Event>, url: Url)
    requires Safe(o, w, past) && At(o, w, past, url)
    ensures Quiet(o, w, past, past, url)
  {
    hide Safe, At, Sends, Hops, Home, Challenged, LastAnswer;
  }

  lemma QuietThen(o: Options, w: World, past: seq<Event>, middle: seq<Event>, later: seq<Event>, url: Url)
    requires Quiet(o, w, past, middle, url) && Quiet(o, w, middle, later, url)
    ensures Quiet(o, w, past, later, url)
  {
    hide Safe, At, Sends, Hops, Home, Challenged, LastAnswer;
  }

  /** An event that sends nothing. */
  lemma Note(o: Options, w: World, trace: seq<Event>, e: Event)
    requires Safe(o, w, trace) && Admissible(o, w, trace, e) && !e.IsSend()
    requires Happening(o, w, Due(o, w, trace), |trace|) == Some(e)
    ensures Quiet(o, w, trace, trace + [e], e.url)
  {
    hide Safe, Admissible, Due, Happening, Redirect, Home, Challenged, Sends, Hops, LastAnswer;
    SafeAppend(o, w, trace, e);
    CountsAppend(trace, e);
    HomeAppend(o, trace, e);
    if Challenged(w, trace, e.url) { StillChallenged(w, trace, e.url, e); }
  }

  lemma Sent(o: Options, w: World, trace: seq<Event>, e: Event)
    requires Safe(o, w, trace) && Admissible(o, w, trace, e) && e.IsSend()
    requires Happening(o, w, Due(o, w, trace), |trace|) == Some(e)
    ensures Safe(o, w, trace + [e]) && LastAnswer(trace + [e]) == e.response
    ensures Sends(trace + [e]) == Sends(trace) + 1 && Hops(trace + [e]) == Hops(trace) + if Redirected(e) then 1 else 0
    ensures Home(o, trace + [e]) <==> Home(o, trace) && SameOrigin(o.url, e.url)
  {
    hide Safe, Admissible, Due, Happening, Home, Sends, Hops, LastAnswer;
    SafeAppend(o, w, trace, e);
    CountsAppend(trace, e);
    HomeAppend(o, trace, e);
  }

  predicate IsRefusal(error: Error) {
    error.BadUrl? || error.NoLocation? || error.FragmentInLocation? || error.WeakenedHttps? || error.AmbiguousHeader?
        || error.ForeignInspect?
  }

  /** What is wrong with a response the run refuses to act on. */
  predicate Refused(o: Options, w: World, url: Url, r: Response, error: Error) {
    var challenge := ChallengeOf(r);
    || (IsRedirect(r.status) && Redirect(w, r, url, o.allowLoopback) == Err(error))
    || challenge == Err(error)
    || (challenge.Ok? && challenge.value.Some? && error.BadUrl?
        && !ValidResource(w.parse(challenge.value.value.1), o.allowLoopback))
    || (challenge.Ok? && challenge.value.Some? && error.ForeignInspect?
        && !SameOrigin(url, w.parse(challenge.value.value.1)))
  }

  /** The methods an event offers. */
  function OfferOf(e: Event): Option<seq<string>> {
    match e
    case Advised(_, advice) => advice.GetOr(None)
    case Inspected(_, inspection) => if inspection.Some? then Some(inspection.value.methods.GetOr([])) else None
    case _ => None
  }

  /** The methods were offered since the last redirect. */
  ghost predicate Offered(trace: seq<Event>, methods: seq<string>) {
    exists k :: 0 <= k < |trace| && OfferOf(trace[k]) == Some(methods)
      && forall l :: k < l < |trace| ==> !Redirected(trace[l])
  }

  lemma OfferedStays(trace: seq<Event>, later: seq<Event>, methods: seq<string>)
    requires Offered(trace, methods) && trace <= later
    requires forall l :: |trace| <= l < |later| ==> !Redirected(later[l])
    ensures Offered(later, methods)
  {
    var k :| 0 <= k < |trace| && OfferOf(trace[k]) == Some(methods) && forall l :: k < l < |trace| ==>
        !Redirected(trace[l]);
    assert OfferOf(later[k]) == Some(methods);
  }

  lemma OfferedNow(trace: seq<Event>, methods: seq<string>)
    requires trace != [] && OfferOf(trace[|trace| - 1]) == Some(methods)
    ensures Offered(trace, methods)
  {
  }

  /** The event records a call that failed. */
  predicate Failing(e: Event) {
    match e
    case Inspected(_, inspection) => inspection.None?
    case Advised(_, advice) => advice.None?
    case Anonymous(_, _, response) => response.None?
    case Presented(_, _, presentation) => presentation.None?
    case Granted(_, _, granted) => !granted
    case Authenticated(_, _, _, response) => response.None?
  }

  /** The last events show why the run fails with that error. */
  ghost predicate Excused(o: Options, w: World, trace: seq<Event>, error: Error) {
    if error.TooManyRedirects? then Hops(trace) == o.maxRedirects + 1
    else if error.GrantTypeNotPermitted? then
      o.grantType.Some? && exists methods :: Offered(trace, methods) && methods != [] && o.grantType.value !in methods
    else if trace == [] then error.BadUrl? && !ValidResource(o.url, o.allowLoopback)
    else
      var e := trace[|trace| - 1];
      if IsRefusal(error) then e.IsSend() && e.response.Some? && Refused(o, w, e.url, e.response.value, error)
      else if error.TooLarge? then e.IsSend() && e.response.Some? && e.response.value.size > o.maximumBytes
      else if error.Propagated? then Failing(e)
      else if error.HeaderConflict? then
        e.Presented? && e.presentation.Some? && Combined(o, e.presentation.value, SameOrigin(o.url, e.url)).None?
      else if error.NoCredential? then
        e.Presented? && e.presentation.None? && (o.credentialId.Some?
                                                 || (!Truthy(o.grantType) && FirstGrant(e.methods).None?))
      else
        && e.Inspected? && e.inspection.Some? && |trace| > 1 && trace[|trace| - 2].Anonymous?
        && trace[|trace| - 2].response.Some?
        && var challenge := ChallengeOf(trace[|trace| - 2].response.value);
           challenge.Ok? && challenge.value.Some? && challenge.value.value.0 != e.inspection.value.serviceDid
  }

  /** Inspect, noted in the trace. */
  method LookUp(o: Options, w: World, target: Url, past: seq<Event>)
    returns (live: Outcome<Inspection>, trace: seq<Event>)
    requires Safe(o, w, past) && At(o, w, past, target) && Due(o, w, past) == ToInspect(target)
    ensures Safe(o, w, trace) && At(o, w, trace, target)
    ensures Quiet(o, w, past, trace, target)
    ensures live == w.inspect(|past|) && trace == past + [Inspected(target, Known(live))]
  {
    hide Due, Safe, At, Sends, Hops, Home, Challenged, LastAnswer;
    live := w.inspect(|past|);
    var seen := Inspected(target, Known(live));
    Note(o, w, past, seen);
    trace := past + [seen];
  }

  /** The Service's OpenAPI document, noted in the trace. */
  method Consult(o: Options, w: World, target: Url, past: seq<Event>)
    returns (advice: Outcome<Option<seq<string>>>, trace: seq<Event>)
    requires Safe(o, w, past) && At(o, w, past, target) && Due(o, w, past) == ToConsult(target)
    ensures Safe(o, w, trace) && At(o, w, trace, target)
    ensures Quiet(o, w, past, trace, target)
    ensures advice == w.methods(|past|) && trace == past + [Advised(target, Known(advice))]
  {
    hide Due, Safe, At, Sends, Hops, Home, Challenged, LastAnswer;
    advice := w.methods(|past|);
    var advised := Advised(target, Known(advice));
    Note(o, w, past, advised);
    trace := past + [advised];
  }

  lemma DueAfterInspect(o: Options, w: World, past: seq<Event>, target: Url)
    requires Opening(past)
    ensures var answer := w.inspect(|past|);
            var trace := past + [Inspected(target, Known(answer))];
            && Policy(trace) == None && !Opening(trace)
            && Due(o, w, trace) ==
               if answer.Fatal? then Stop(Err(Propagated))
               else if answer.Got? && !Refuted(past) then ToConsult(target)
               else AfterDiscovery(o, trace, target)
  {
    hide AfterDiscovery, AfterChallenge, AfterRedirect, AfterProbe, AfterAnswer, AfterShortage, Permitted, Refuted,
        LastListed, LastAnswer, Departed, Combined, Received, ValidResource, SameOrigin, ChallengeOf, Redirect;
    var trace := past + [Inspected(target, Known(w.inspect(|past|)))];
    assert trace[..|trace| - 1] == past;
  }

  lemma DueAfterAdvice(o: Options, w: World, past: seq<Event>, trace: seq<Event>, target: Url)
    requires Opening(past) && w.inspect(|past|).Got?
    requires trace == past + [Inspected(target, Known(w.inspect(|past|))),
                              Advised(target, Known(w.methods(|past| + 1)))]
    ensures var advice := w.methods(|past| + 1);
            && Policy(trace) == (if advice.Got? then advice.value else None)
            && Due(o, w, trace) ==
               if advice.Fatal? then Stop(Err(Propagated)) else AfterDiscovery(o, trace, target)
  {
    hide AfterDiscovery, AfterChallenge, Due;
    var inspected := past + [Inspected(target, Known(w.inspect(|past|)))];
    assert trace[..|trace| - 1] == inspected && trace[..|trace| - 2] == past;
    DueAfterInspect(o, w, past, target);
    FirstAdvice(o, w, trace, target);
  }

  lemma FirstAdvice(o: Options, w: World, trace: seq<Event>, target: Url)
    requires |trace| > 1 && Opening(trace[..|trace| - 2])
    requires trace[|trace| - 1].Advised? && trace[|trace| - 1].url == target
    ensures Due(o, w, trace) ==
            if w.methods(|trace| - 1).Fatal? then Stop(Err(Propagated)) else AfterDiscovery(o, trace, target)
  {
    hide AfterDiscovery, AfterChallenge, AfterRedirect, AfterProbe, AfterAnswer, AfterShortage, Permitted, Policy,
        Refuted, LastListed, LastAnswer, Departed, Combined, Received, ValidResource, SameOrigin, ChallengeOf,
        Redirect;
  }

  /** The discovery block: which methods, if any, the Service's OpenAPI document asks for. */
  method Discover(o: Options, w: World, target: Url, useOpenapi: bool, past: seq<Event>)
    returns (methods: Option<seq<string>>, failed: bool, trace: seq<Event>)
    requires Safe(o, w, past) && At(o, w, past, target)
    requires Due(o, w, past) == ToInspect(target) && Opening(past) && (useOpenapi <==> !Refuted(past))
    ensures Quiet(o, w, past, trace, target)
    ensures !useOpenapi ==> methods.None?
    ensures Due(o, w, trace) == if failed then Stop(Err(Propagated)) else AfterDiscovery(o, trace, target)
    ensures !failed ==> methods == Policy(trace)
    ensures trace != past && !trace[|trace| - 1].Granted?
    ensures methods.Some? ==> Offered(trace, methods.value)
    ensures failed ==> Excused(o, w, trace, Propagated)
  {
    hide Sends, Hops, Home, Challenged, Redirect, ChallengeOf, LastAnswer, Safe, At, Due, Policy, Refuted;
    var answer;
    answer, trace := LookUp(o, w, target, past);
    DueAfterInspect(o, w, past, target);
    if !answer.Got? || !useOpenapi {
      return None, answer.Fatal?, trace;
    }
    var advice;
    advice, trace := Consult(o, w, target, trace);
    DueAfterAdvice(o, w, past, trace, target);
    if advice.Got? && advice.value.Some? {
      OfferedNow(trace, advice.value.value);
    }
    return if advice.Got? then advice.value else None, advice.Fatal?, trace;
  }

  /** What the anonymous request leads to: an answer to return, a redirect to follow, or methods to try. */
  datatype Probed =
    | Answered(response: Response) | Moved(response: Response) | Try(methods: seq<string>) | Failed(error: Error)

  /** What is due after the probing part of a turn, and what it leaves of the policy. */
  ghost predicate DueAfterProbe(o: Options, w: World, trace: seq<Event>, target: Url, methods: Option<seq<string>>,
                                probed: Probed) {
    match probed
    case Failed(error) => Due(o, w, trace) == Stop(Err(error))
    case Answered(response) => Due(o, w, trace) == Stop(Ok(response))
    case Moved(response) => Due(o, w, trace) == AfterRedirect(o, w, trace, target, response)
    case Try(usable) =>
      && Due(o, w, trace) == Permitted(o, target, usable) && Policy(trace) == methods
      && trace != [] && !trace[|trace| - 1].Granted?
  }

  lemma DueAfterAnonymous(o: Options, w: World, past: seq<Event>, e: Event)
    requires e.Anonymous? && e.response == Known(w.send(|past|))
    ensures var trace := past + [e];
            var received := Received(o, w.send(|past|));
            && Due(o, w, trace) ==
               (if received.Err? then Stop(Err(received.error)) else AfterProbe(o, w, trace, e.url, received.value))
            && (!Redirected(e) ==> !Opening(trace) && Policy(trace) == Policy(past))
            && LastAnswer(trace) == e.response
  {
    hide AfterDiscovery, AfterChallenge, AfterRedirect, AfterProbe, AfterAnswer, AfterShortage, Permitted, Refuted,
        LastListed, Departed, Combined, Received, ValidResource, SameOrigin, ChallengeOf, Redirect;
    assert (past + [e])[..|past|] == past;
  }

  /** The anonymous request. */
  method Knock(o: Options, w: World, target: Url, past: seq<Event>)
    returns (answer: Result<Response, Error>, trace: seq<Event>)
    requires Safe(o, w, past) && At(o, w, past, target) && SafeTarget(o, target) && Due(o, w, past) == ToProbe(target)
    ensures answer == Received(o, w.send(|past|))
    ensures |trace| == |past| + 1 && trace == past + [trace[|past|]] && Safe(o, w, trace)
    ensures trace[|past|].Anonymous? && trace[|past|].url == target && trace[|past|].response == Known(w.send(|past|))
    ensures Sends(trace) == Sends(past) + 1 && Hops(trace) == Hops(past) + if Redirected(trace[|past|]) then 1 else 0
    ensures Home(o, trace) <==> Home(o, past) && SameOrigin(o.url, target)
  {
    hide Redirect, Combined, ValidResource, ChallengeOf, Challenged, Departed, Sends, Hops, Home, AnonymousHeaders,
        SameOrigin, Due, Received, Safe, At;
    var headers := if SameOrigin(o.url, target) then AnonymousHeaders(o.headers) else map[];
    var reply := w.send(|past|);
    var sent := Anonymous(target, headers, Known(reply));
    Sent(o, w, past, sent);
    return Received(o, reply), past + [sent];
  }

  method Probe(o: Options, w: World, target: Url, methods: Option<seq<string>>, past: seq<Event>)
    returns (probed: Probed, trace: seq<Event>)
    requires Safe(o, w, past) && At(o, w, past, target) && SafeTarget(o, target)
    requires methods.Some? ==> Offered(past, methods.value)
    requires Due(o, w, past) == ToProbe(target) && !Opening(past) && methods == Policy(past)
    ensures past <= trace && Safe(o, w, trace) && Sends(trace) == Sends(past) + 1
    ensures DueAfterProbe(o, w, trace, target, methods, probed)
    ensures Home(o, trace) <==> Home(o, past) && SameOrigin(o.url, target)
    ensures probed.Failed? ==> !probed.error.TooManyRedirects? && Excused(o, w, trace, probed.error)
    ensures probed.Answered? ==> LastAnswer(trace) == Some(probed.response) && !IsRedirect(probed.response.status)
    ensures probed.Moved? ==>
              && trace != [] && trace[|trace| - 1].url == target && Redirected(trace[|trace| - 1])
              && trace[|trace| - 1].response == Some(probed.response) && Hops(trace) == Hops(past) + 1
    ensures probed.Try? ==>
              && At(o, w, trace, target) && Challenged(w, trace, target) && Hops(trace) == Hops(past)
              && Offered(trace, probed.methods)
              && probed.methods != [] && (methods.Some? && methods.value != [] ==> probed.methods == methods.value)
  {
    hide Redirect, Combined, ValidResource, ChallengeOf, Challenged, Departed, Sends, Hops, Home, SameOrigin, Due,
        Policy,
        Permitted, Safe;
    var anonymous;
    anonymous, trace := Knock(o, w, target, past);
    DueAfterAnonymous(o, w, past, trace[|past|]);
    if anonymous.Err? {
      return Failed(anonymous.error), trace;
    }
    if IsRedirect(anonymous.value.status) {
      return Moved(anonymous.value), trace;
    }
    var challenge := ChallengeOf(anonymous.value);
    if challenge.Err? {
      return Failed(challenge.error), trace;
    }
    if challenge.value.None? {
      return Answered(anonymous.value), trace;
    }
    if methods.Some? {
      OfferedStays(past, trace, methods.value);
    }
    probed, trace := Confirm(o, w, target, methods, anonymous.value, challenge.value.value, trace);
  }

  lemma DueAfterLive(o: Options, w: World, past: seq<Event>, target: Url, response: Response,
                     challenge: (string, string))
    requires past != [] && past[|past| - 1].Anonymous? && past[|past| - 1].response == Some(response)
    requires ChallengeOf(response) == Ok(Some(challenge)) && !IsRedirect(response.status)
    ensures var live := w.inspect(|past|);
            var trace := past + [Inspected(target, Known(live))];
            Due(o, w, trace) ==
            if !live.Got? then Stop(Err(Propagated))
            else if live.value.serviceDid != challenge.0 then Stop(Err(WrongService))
            else if Policy(past) == Some([]) then ToConsult(target)
            else AfterChallenge(o, trace, target, response)
  {
    hide AfterDiscovery, AfterChallenge, AfterRedirect, AfterProbe, AfterAnswer, AfterShortage, Permitted, Policy,
        Refuted, LastListed, Departed, Combined, Received, ValidResource, SameOrigin, ChallengeOf, Redirect;
    assert (past + [Inspected(target, Known(w.inspect(|past|)))])[..|past|] == past;
    LiveKeepsPolicy(past, Inspected(target, Known(w.inspect(|past|))));
  }

  lemma LiveKeepsPolicy(past: seq<Event>, e: Event)
    requires e.Inspected?
    ensures Policy(past + [e]) == Policy(past)
    ensures e.inspection.Some? ==> LastListed(past + [e]) == e.inspection.value.methods.GetOr([])
  {
    assert (past + [e])[..|past|] == past;
  }

  lemma DueAfterRefresh(o: Options, w: World, past: seq<Event>, trace: seq<Event>, target: Url, response: Response,
                        challenge: (string, string))
    requires past != [] && past[|past| - 1].Anonymous? && past[|past| - 1].response == Some(response)
    requires ChallengeOf(response) == Ok(Some(challenge)) && !IsRedirect(response.status) && Policy(past) == Some([])
    requires w.inspect(|past|).Got?
    requires trace == past + [Inspected(target, Known(w.inspect(|past|))),
                              Advised(target, Known(w.methods(|past| + 1)))]
    ensures Policy(trace) == Policy(past) && LastListed(trace) == w.inspect(|past|).value.methods.GetOr([])
    ensures Due(o, w, trace) ==
            if w.methods(|past| + 1).Fatal? then Stop(Err(Propagated)) else AfterChallenge(o, trace, target, response)
  {
    hide AfterChallenge, ChallengeOf, Due;
    LiveKeepsPolicy(past, Inspected(target, Known(w.inspect(|past|))));
    var inspected := past + [Inspected(target, Known(w.inspect(|past|)))];
    assert trace[..|trace| - 1] == inspected && inspected[..|past|] == past && trace[..|trace| - 2] == past;
    AdviceAgain(o, w, past, trace, target, response);
  }

  lemma AdviceAgain(o: Options, w: World, past: seq<Event>, trace: seq<Event>, target: Url, response: Response)
    requires past != [] && past[|past| - 1].Anonymous? && past[|past| - 1].response == Some(response)
    requires !IsRedirect(response.status) && |trace| == |past| + 2 && past == trace[..|past|]
    requires trace[|past|].Inspected? && trace[|past| + 1] == Advised(target, Known(w.methods(|past| + 1)))
    ensures Due(o, w, trace) ==
            if w.methods(|past| + 1).Fatal? then Stop(Err(Propagated)) else AfterChallenge(o, trace, target, response)
  {
    hide AfterDiscovery, AfterChallenge, AfterRedirect, AfterProbe, AfterAnswer, AfterShortage, Permitted, Policy,
        Refuted, LastListed, Departed, Combined, Received, ValidResource, SameOrigin, ChallengeOf, Redirect;
    var before := trace[..|trace| - 1];
    assert before[..|before| - 1] == past;
    assert LastAnswer(before) == LastAnswer(past);
  }

  /** The document is read once more, for its effect on the caches only. */
  method Refresh(o: Options, w: World, target: Url, response: Response, challenge: (string, string), past: seq<Event>,
                 confirmed: seq<Event>)
    returns (failed: bool, trace: seq<Event>)
    requires past != [] && past[|past| - 1].Anonymous? && past[|past| - 1].response == Some(response)
    requires ChallengeOf(response) == Ok(Some(challenge)) && !IsRedirect(response.status) && Policy(past) == Some([])
    requires w.inspect(|past|).Got? && confirmed == past + [Inspected(target, Known(w.inspect(|past|)))]
    requires Safe(o, w, confirmed) && At(o, w, confirmed, target) && Due(o, w, confirmed) == ToConsult(target)
    requires Quiet(o, w, past, confirmed, target) && Challenged(w, confirmed, target)
    ensures Quiet(o, w, past, trace, target) && Challenged(w, trace, target)
    ensures |trace| == |confirmed| + 1 && trace == confirmed + [trace[|confirmed|]] && trace[|confirmed|].Advised?
    ensures Policy(trace) == Policy(past) && LastListed(trace) == w.inspect(|past|).value.methods.GetOr([])
    ensures failed ==> Due(o, w, trace) == Stop(Err(Propagated)) && Excused(o, w, trace, Propagated)
    ensures !failed ==> Due(o, w, trace) == AfterChallenge(o, trace, target, response)
  {
    hide ChallengeOf, Safe, Due, At, Policy, LastListed, AfterChallenge, Quiet, Challenged;
    var advice;
    advice, trace := Consult(o, w, target, confirmed);
    QuietThen(o, w, past, confirmed, trace, target);
    StillChallenged(w, confirmed, target, trace[|confirmed|]);
    DueAfterRefresh(o, w, past, trace, target, response, challenge);
    return advice.Fatal?, trace;
  }

  /** The challenge is believed only when Inspect, on the same origin, reports the same Service. */
  method Confirm(o: Options, w: World, target: Url, methods: Option<seq<string>>, response: Response,
                 challenge: (string, string), past: seq<Event>)
    returns (probed: Probed, trace: seq<Event>)
    requires Safe(o, w, past) && At(o, w, past, target)
    requires past != [] && past[|past| - 1].Anonymous? && past[|past| - 1].url == target
             && past[|past| - 1].response == Some(response)
    requires ChallengeOf(response) == Ok(Some(challenge)) && !IsRedirect(response.status)
    requires methods.Some? ==> Offered(past, methods.value)
    requires methods == Policy(past)
    requires Due(o, w, past) ==
             if !ValidResource(w.parse(challenge.1), o.allowLoopback) then Stop(Err(BadUrl))
             else if !SameOrigin(target, w.parse(challenge.1)) then Stop(Err(ForeignInspect)) else ToInspect(target)
    ensures Quiet(o, w, past, trace, target)
    ensures DueAfterProbe(o, w, trace, target, methods, probed)
    ensures probed.Try? ==>
              && Challenged(w, trace, target) && Offered(trace, probed.methods)
              && probed.methods != [] && (methods.Some? && methods.value != [] ==> probed.methods == methods.value)
    ensures probed.Answered? ==> probed.response == response
    ensures !probed.Moved?
    ensures probed.Failed? ==> !probed.error.TooManyRedirects? && Excused(o, w, trace, probed.error)
  {
    hide Redirect, Combined, ValidResource, ChallengeOf, Sends, Hops, LastAnswer, Home, Received, At, Safe, Due, Policy,
        LastListed, Permitted, SameOrigin, Quiet;
    QuietSoFar(o, w, past, target);
    trace := past;
    if !ValidResource(w.parse(challenge.1), o.allowLoopback) {
      return Failed(BadUrl), trace;
    }
    if !SameOrigin(target, w.parse(challenge.1)) {
      return Failed(ForeignInspect), trace;
    }
    var live;
    live, trace := LookUp(o, w, target, past);
    DueAfterLive(o, w, past, target, response, challenge);
    LiveKeepsPolicy(past, trace[|past|]);
    if !live.Got? {
      return Failed(Propagated), trace;
    }
    if live.value.serviceDid != challenge.0 {
      return Failed(WrongService), trace;
    }
    ConfirmedIsChallenged(w, past, target, response, challenge, live.value);
    OfferedNow(trace, live.value.methods.GetOr([]));
    ghost var confirmed := trace;
    if methods == Some([]) {
      var failed;
      failed, trace := Refresh(o, w, target, response, challenge, past, trace);
      if failed {
        return Failed(Propagated), trace;
      }
    }
    var usable := if methods.Some? && methods.value != [] then methods.value else live.value.methods.GetOr([]);
    OfferedStays(if methods.Some? && methods.value != [] then past else confirmed, trace, usable);
    return if usable == [] then Answered(response) else Try(usable), trace;
  }

  lemma ConfirmedIsChallenged(w: World, past: seq<Event>, url: Url, response: Response, challenge: (string, string),
                              inspection: Inspection)
    requires past != [] && past[|past| - 1].Anonymous? && past[|past| - 1].url == url
             && past[|past| - 1].response == Some(response)
    requires ChallengeOf(response) == Ok(Some(challenge)) && SameOrigin(url, w.parse(challenge.1))
    requires inspection.serviceDid == challenge.0
    ensures Challenged(w, past + [Inspected(url, Some(inspection))], url)
  {
    hide ChallengeOf, SameOrigin;
    assert ChallengedAt(w, past + [Inspected(url, Some(inspection))], url, |past| - 1);
  }

  method Ask(o: Options, w: World, target: Url, methods: seq<string>, past: seq<Event>)
    returns (presented: Outcome<Headers>, trace: seq<Event>)
    requires Safe(o, w, past) && At(o, w, past, target) && SafeTarget(o, target) && methods != []
    requires o.grantType.Some? ==> o.grantType.value in methods
    requires Due(o, w, past) == ToPresent(target, methods)
    ensures Quiet(o, w, past, trace, target)
    ensures presented == w.present(|past|) && trace == past + [Presented(target, methods, Known(presented))]
  {
    hide Due, Safe, Quiet, At, SafeTarget;
    presented := w.present(|past|);
    var asked := Presented(target, methods, Known(presented));
    Note(o, w, past, asked);
    trace := past + [asked];
  }

  lemma DueAfterGrant(o: Options, w: World, past: seq<Event>, e: Event)
    requires past != [] && past[|past| - 1].Presented? && e.Granted?
    ensures Due(o, w, past + [e]) == if e.granted then ToPresent(e.url, past[|past| - 1].methods)
                                     else Stop(Err(Propagated))
  {
    hide AfterDiscovery, AfterChallenge, AfterRedirect, AfterProbe, AfterAnswer, AfterShortage, Permitted, Policy,
        Refuted, LastListed, LastAnswer, Departed, Combined, Received, ValidResource, SameOrigin, ChallengeOf,
        Redirect;
  }

  lemma DueAfterPresented(o: Options, w: World, past: seq<Event>, e: Event)
    requires e.Presented?
    ensures Due(o, w, past + [e]) ==
            if e.presentation.Some? then
              var combined := Combined(o, e.presentation.value, SameOrigin(o.url, e.url));
              if combined.None? then Stop(Err(HeaderConflict)) else ToSend(e.url, combined.value, e.presentation.value)
            else if !w.present(|past|).Unavailable? || (past != [] && past[|past| - 1].Granted?) then
              Stop(Err(Propagated))
            else AfterShortage(o, e.url, e.methods)
  {
    hide AfterDiscovery, AfterChallenge, AfterRedirect, AfterProbe, AfterAnswer, AfterShortage, Permitted, Policy,
        Refuted, LastListed, LastAnswer, Departed, Combined, Received, ValidResource, SameOrigin, ChallengeOf,
        Redirect;
  }

  lemma PolicyStays(past: seq<Event>, e: Event)
    requires e.Presented? || e.Granted?
    ensures Policy(past + [e]) == Policy(past)
  {
    assert (past + [e])[..|past|] == past;
  }

  /** The Grant the Agent asks for by itself: only without a chosen credential, and only by a permitted method. */
  method Obtain(o: Options, w: World, target: Url, methods: seq<string>, past: seq<Event>)
    returns (refused: Option<Error>, trace: seq<Event>)
    requires Safe(o, w, past) && At(o, w, past, target)
    requires past != [] && past[|past| - 1] == Presented(target, methods, None)
    requires o.grantType.Some? ==> o.grantType.value in methods
    requires Due(o, w, past) == AfterShortage(o, target, methods)
    ensures Quiet(o, w, past, trace, target)
    ensures Due(o, w, trace) == if refused.Some? then Stop(Err(refused.value)) else ToPresent(target, methods)
    ensures |trace| <= |past| + 1 && forall k :: |past| <= k < |trace| ==> trace[k].Granted?
    ensures refused.None? ==> |trace| == |past| + 1
    ensures refused.Some? ==> !refused.value.TooManyRedirects? && Excused(o, w, trace, refused.value)
  {
    hide Safe, At, Quiet, Due, Redirect, Combined;
    QuietSoFar(o, w, past, target);
    trace := past;
    if o.credentialId.Some? {
      return Some(NoCredential), trace;
    }
    FirstGrantIsPermitted(methods);
    var grantType := if Truthy(o.grantType) then o.grantType else FirstGrant(methods);
    if grantType.None? {
      return Some(NoCredential), trace;
    }
    var granted := w.grant(|trace|);
    Note(o, w, trace, Granted(target, grantType.value, granted.Got?));
    trace := trace + [Granted(target, grantType.value, granted.Got?)];
    DueAfterGrant(o, w, past, trace[|past|]);
    return if granted.Got? then None else Some(Propagated), trace;
  }

  /** A presentation for exactly this URL, asking the Service for a Grant once when there is none. */
  method Present(o: Options, w: World, target: Url, methods: seq<string>, past: seq<Event>)
    returns (presentation: Result<Headers, Error>, trace: seq<Event>)
    requires Safe(o, w, past) && At(o, w, past, target) && SafeTarget(o, target)
    requires methods != [] && Offered(past, methods)
    requires Due(o, w, past) == Permitted(o, target, methods) && past != [] && !past[|past| - 1].Granted?
    ensures Quiet(o, w, past, trace, target) && Policy(trace) == Policy(past)
    ensures presentation.Err? ==> Due(o, w, trace) == Stop(Err(presentation.error))
    ensures presentation.Ok? ==>
              var combined := Combined(o, presentation.value, SameOrigin(o.url, target));
              Due(o, w, trace) == if combined.None? then Stop(Err(HeaderConflict))
                                  else ToSend(target, combined.value, presentation.value)
    ensures presentation.Err? ==> !presentation.error.TooManyRedirects? && Excused(o, w, trace, presentation.error)
    ensures presentation.Ok? ==>
              && trace != [] && trace[|trace| - 1] == Presented(target, methods, Some(presentation.value))
  {
    hide Redirect, Combined, ValidResource, Challenged, Safe, At, SafeTarget, Sends, Hops, Home, LastAnswer,
        ChallengeOf, Due, Policy, SameOrigin, AfterShortage;
    if o.grantType.Some? && o.grantType.value !in methods {
      return Err(GrantTypeNotPermitted), past;
    }
    var presented;
    presented, trace := Ask(o, w, target, methods, past);
    DueAfterPresented(o, w, past, trace[|past|]);
    PolicyStays(past, trace[|past|]);
    if presented.Unavailable? {
      var refused;
      ghost var asked := trace;
      refused, trace := Obtain(o, w, target, methods, trace);
      if |trace| > |asked| {
        assert trace == asked + [trace[|asked|]];
        PolicyStays(asked, trace[|asked|]);
      } else {
        assert trace == asked;
      }
      if refused.Some? {
        return Err(refused.value), trace;
      }
      ghost var granted := trace;
      presented, trace := Ask(o, w, target, methods, trace);
      DueAfterPresented(o, w, granted, trace[|granted|]);
      PolicyStays(granted, trace[|granted|]);
    }
    return if presented.Got? then Ok(presented.value) else Err(Propagated), trace;
  }

  lemma DueAfterSent(o: Options, w: World, past: seq<Event>, e: Event)
    requires e.Authenticated?
    ensures var received := Received(o, w.send(|past|));
            Due(o, w, past + [e]) ==
            if received.Err? then Stop(Err(received.error))
            else AfterAnswer(o, w, past + [e], e.url, Policy(past).GetOr([]), received.value)
  {
    hide AfterDiscovery, AfterChallenge, AfterRedirect, AfterProbe, AfterAnswer, AfterShortage, Permitted, Policy,
        Refuted, LastListed, LastAnswer, Departed, Combined, Received, ValidResource, SameOrigin, ChallengeOf,
        Redirect;
    assert (past + [e])[..|past|] == past;
  }

  /** The authenticated request, with the presentation that was just made for it. */
  method Authenticate(o: Options, w: World, target: Url, presentation: Headers, past: seq<Event>)
    returns (response: Result<Response, Error>, trace: seq<Event>)
    requires Safe(o, w, past) && At(o, w, past, target) && SafeTarget(o, target)
    requires past != [] && past[|past| - 1].Presented? && past[|past| - 1].url == target
    requires past[|past| - 1].presentation == Some(presentation)
    requires Departed(o, past, target) ==> Challenged(w, past, target)
    requires var combined := Combined(o, presentation, SameOrigin(o.url, target));
             Due(o, w, past) == if combined.None? then Stop(Err(HeaderConflict))
                                else ToSend(target, combined.value, presentation)
    ensures past <= trace && Safe(o, w, trace) && Sends(past) <= Sends(trace) <= Sends(past) + 1
    ensures Due(o, w, trace) ==
            match response
            case Err(error) => Stop(Err(error))
            case Ok(answer) => AfterAnswer(o, w, trace, target, Policy(past).GetOr([]), answer)
    ensures Home(o, trace) ==> Home(o, past)
    ensures response.Err? ==> !response.error.TooManyRedirects? && Excused(o, w, trace, response.error)
    ensures response.Ok? ==>
              && Sends(trace) == Sends(past) + 1 && LastAnswer(trace) == Some(response.value)
              && (Home(o, trace) <==> Home(o, past) && SameOrigin(o.url, target))
              && Hops(trace) == Hops(past) + (if IsRedirect(response.value.status) then 1 else 0)
              && trace != [] && trace[|trace| - 1].Authenticated? && trace[|trace| - 1].url == target
              && trace[|trace| - 1].response == Some(response.value)
  {
    hide Combined, Redirect, ValidResource, ChallengeOf, Refused, Challenged, Departed, Sends, Hops, Home, Due, Policy,
        AfterAnswer, SameOrigin;
    var combined := AuthenticatedHeaders(o, presentation, SameOrigin(o.url, target));
    if combined.None? {
      return Err(HeaderConflict), past;
    }
    var reply := w.send(|past|);
    var sent := Authenticated(target, combined.value, presentation, Known(reply));
    Sent(o, w, past, sent);
    DueAfterSent(o, w, past, sent);
    return Received(o, reply), past + [sent];
  }

  lemma RedirectMeans(o: Options, w: World, r: Response, target: Url)
    requires SafeTarget(o, target)
    ensures var next := Redirect(w, r, target, o.allowLoopback);
            && (next.Ok? ==> SafeTarget(o, next.value.0) && next.value.1 == !SameOrigin(target, next.value.0))
            && (next.Err? ==>
                  next.error != TooManyRedirects && next.error != GrantTypeNotPermitted && IsRefusal(next.error))
  {
  }

  lemma ChallengedMeans401(r: Response)
    requires ChallengeOf(r).Ok? && ChallengeOf(r).value.Some?
    ensures !IsRedirect(r.status)
  {
  }

  // ---- what the rules amount to ----

  lemma {:induction false} RunIsPrefix(o: Options, w: World, trace: seq<Event>, other: seq<Event>, n: nat)
    requires Runs(o, w, trace) && Runs(o, w, other) && Due(o, w, other).Stop? && n <= |trace|
    ensures n <= |other| && trace[..n] == other[..n]
    decreases n
  {
    hide Due;
    if n > 0 {
      RunIsPrefix(o, w, trace, other, n - 1);
      assert Happening(o, w, Due(o, w, trace[..n - 1]), n - 1) == Some(trace[n - 1]);
      assert other[..n - 1] == other || |other| >= n;
      assert trace[..n] == trace[..n - 1] + [trace[n - 1]] && other[..n] == other[..n - 1] + [other[n - 1]];
      assert Happening(o, w, Due(o, w, other[..n - 1]), n - 1) == Some(other[n - 1]);
    }
  }

  /** The rules leave one run: whatever the world, there is a single trace that obeys them to the end, and a single
      result it ends with. */
  lemma RunIsDetermined(o: Options, w: World, trace: seq<Event>, result: Result<Response, Error>, other: seq<Event>,
                        outcome: Result<Response, Error>)
    requires Runs(o, w, trace) && Due(o, w, trace) == Stop(result)
    requires Runs(o, w, other) && Due(o, w, other) == Stop(outcome)
    ensures trace == other && result == outcome
  {
    hide Due, Runs;
    RunIsPrefix(o, w, trace, other, |trace|);
    RunIsPrefix(o, w, other, trace, |other|);
    assert trace == trace[..|trace|] && other == other[..|other|];
  }

  lemma StepBefore(o: Options, w: World, trace: seq<Event>)
    requires Runs(o, w, trace) && trace != []
    ensures var n := |trace| - 1;
            Runs(o, w, trace[..n]) && Happening(o, w, Due(o, w, trace[..n]), n) == Some(trace[n])
  {
    hide Due, Happening;
    var n := |trace| - 1;
    forall i | 0 <= i < n ensures Happening(o, w, Due(o, w, trace[..n][..i]), i) == Some(trace[..n][i]) {
      assert trace[..n][..i] == trace[..i];
    }
  }

  lemma EventMeans(o: Options, w: World, trace: seq<Event>)
    requires Runs(o, w, trace) && trace != []
    ensures var e, n := trace[|trace| - 1], |trace| - 1;
            && (e.IsSend() ==> e.response == Known(w.send(n)))
            && (e.Inspected? ==> e.inspection == Known(w.inspect(n)) && Due(o, w, trace[..n]) == ToInspect(e.url))
            && (e.Advised? ==> Due(o, w, trace[..n]) == ToConsult(e.url))
  {
    hide Due, Runs;
    StepBefore(o, w, trace);
  }

  /** Inspect within a turn only follows an anonymous request and a challenge that points to the same origin. */
  lemma LiveFollowsProbe(o: Options, w: World, before: seq<Event>, url: Url)
    requires Runs(o, w, before) && Due(o, w, before) == ToInspect(url) && !Opening(before)
    ensures var e := before[|before| - 1];
            && e.Anonymous? && e.url == url && e.response.Some? && e.response.value.size <= o.maximumBytes
            && var challenge := ChallengeOf(e.response.value);
               challenge.Ok? && challenge.value.Some? && SameOrigin(url, w.parse(challenge.value.value.1))
  {
    hide ChallengeOf, SameOrigin, Policy, Refuted, LastAnswer, LastListed, Departed, Combined, Redirect, ValidResource,
        Runs;
    EventMeans(o, w, before);
    match before[|before| - 1]
    case Inspected(_, _) =>
    case Advised(_, _) =>
    case Anonymous(_, _, _) =>
    case Presented(_, _, _) =>
    case Granted(_, _, _) =>
    case Authenticated(_, _, _, _) =>
  }

  /** The OpenAPI document is only read right after Inspect has answered. */
  lemma AdviceFollowsInspect(o: Options, w: World, before: seq<Event>, url: Url)
    requires Due(o, w, before) == ToConsult(url)
    ensures before != [] && before[|before| - 1].Inspected? && before[|before| - 1].inspection.Some?
            && before[|before| - 1].url == url
    ensures var earlier := before[..|before| - 1];
            !Opening(earlier) && LastAnswer(earlier).Some? ==>
              var challenge := ChallengeOf(LastAnswer(earlier).value);
              challenge.Ok? && challenge.value.Some? &&
              before[|before| - 1].inspection.value.serviceDid == challenge.value.value.0
  {
    hide ChallengeOf, SameOrigin, Policy, Refuted, LastAnswer, LastListed, Departed, Combined, Redirect, ValidResource;
  }

  /** Event k is usable advice of the current turn. */
  predicate AdvisedAt(trace: seq<Event>, k: int) {
    && 0 <= k < |trace| && trace[k].Advised? && trace[k].advice.GetOr(None).Some?
    && forall l :: k < l < |trace| ==> !Closes(trace[l])
  }

  /** The policy is the first usable advice since the last answer that ended a turn, if there is one. */
  lemma {:induction false} PolicyMeans(trace: seq<Event>)
    ensures Policy(trace).None? <==> forall k :: !AdvisedAt(trace, k)
    ensures Policy(trace).Some? ==>
              exists k :: AdvisedAt(trace, k) && trace[k].advice == Some(Policy(trace))
                          && forall j :: j < k ==> !AdvisedAt(trace, j)
    decreases |trace|
  {
    if Opening(trace) {
      if trace != [] { assert Closes(trace[|trace| - 1]); }
    } else {
      var n := |trace| - 1;
      var before := trace[..n];
      PolicyMeans(before);
      forall k | k != n ensures AdvisedAt(trace, k) <==> AdvisedAt(before, k) { }
      if Policy(before).Some? {
        var k :| AdvisedAt(before, k) && before[k].advice == Some(Policy(before))
                 && forall j :: j < k ==> !AdvisedAt(before, j);
        assert AdvisedAt(trace, k) && trace[k].advice == Some(Policy(trace));
      } else if Policy(trace).Some? {
        assert AdvisedAt(trace, n) && trace[n].advice == Some(Policy(trace));
      }
    }
  }

  /** Inspect has confirmed the challenge that answered the last request. */
  ghost predicate Confirmed(w: World, trace: seq<Event>, c: int) {
    && 0 <= c < |trace| - 1 && ChallengedAt(w, trace, trace[c].url, c)
    && (|trace| == c + 2 || (|trace| == c + 3 && trace[c + 2].Advised?))
  }

  /** A run may only return an answer for one of three reasons: it answers a presentation, and if the OpenAPI
      document had asked for that presentation it is no challenge; it answers an anonymous request without a
      challenge; or it is a challenge, Inspect has confirmed it, and neither the OpenAPI document nor Inspect
      lists a method to authenticate with. */
  ghost predicate MayReturn(w: World, trace: seq<Event>, r: Response) {
    trace != [] &&
    var n := |trace|;
    || (trace[n - 1].Authenticated? && trace[n - 1].response == Some(r) && !IsRedirect(r.status)
        && (Policy(trace[..n - 1]).GetOr([]) != [] ==> ChallengeOf(r) == Ok(None)))
    || (trace[n - 1].Anonymous? && trace[n - 1].response == Some(r) && !IsRedirect(r.status)
        && ChallengeOf(r) == Ok(None))
    || exists c :: Confirmed(w, trace, c) && trace[c].response == Some(r)
                   && trace[c + 1].inspection.value.methods.GetOr([]) == [] && Policy(trace).GetOr([]) == []
  }

  lemma RefreshReturns(o: Options, w: World, trace: seq<Event>, before: seq<Event>, url: Url, r: Response)
    requires trace != [] && before == trace[..|trace| - 1] && Runs(o, w, before) && Due(o, w, before) == ToConsult(url)
    requires trace[|trace| - 1].Advised? && trace[|trace| - 1].url == url && Due(o, w, trace) == Stop(Ok(r))
    ensures MayReturn(w, trace, r) && r.size <= o.maximumBytes
  {
    hide ChallengeOf, SameOrigin, Policy, Refuted, Departed, Combined, Redirect, ValidResource, Runs;
    AdviceFollowsInspect(o, w, before, url);
    StepBefore(o, w, before);
    EventMeans(o, w, before);
    var earlier := before[..|before| - 1];
    assert earlier == trace[..|trace| - 2];
    LiveFollowsProbe(o, w, earlier, url);
    assert LastAnswer(before) == LastAnswer(earlier);
    assert LastListed(trace) == LastListed(before);
    assert Confirmed(w, trace, |trace| - 3);
  }

  lemma ReturnsFor(o: Options, w: World, trace: seq<Event>, r: Response)
    requires Safe(o, w, trace) && Due(o, w, trace) == Stop(Ok(r))
    ensures MayReturn(w, trace, r) && r.size <= o.maximumBytes
  {
    hide ChallengeOf, SameOrigin, Policy, Refuted, Departed, Combined, Redirect, ValidResource, Runs, Admissible;
    EventMeans(o, w, trace);
    match trace[|trace| - 1]
    case Inspected(url, _) =>
      StepBefore(o, w, trace);
      LiveFollowsProbe(o, w, trace[..|trace| - 1], url);
      assert Confirmed(w, trace, |trace| - 2);
    case Advised(url, _) =>
      StepBefore(o, w, trace);
      RefreshReturns(o, w, trace, trace[..|trace| - 1], url, r);
    case Anonymous(_, _, _) =>
    case Presented(_, _, _) =>
    case Granted(_, _, _) =>
    case Authenticated(_, _, _, _) =>
  }

  /** Only the Inspect answer that follows the challenge counts: methods that discovery saw listed, and that are
      gone by then, are not tried, and the challenge is returned. */
  lemma EarlierListingDoesNotCount(o: Options, w: World, r: Response, did: string, inspect: string)
    requires ValidResource(o.url, o.allowLoopback) && ChallengeOf(r) == Ok(Some((did, inspect)))
    requires ValidResource(w.parse(inspect), o.allowLoopback) && SameOrigin(o.url, w.parse(inspect))
    requires w.inspect(0) == Got(Inspection(did, Some(["aep-jwt"]))) && w.methods(1) == Got(None)
    requires w.send(2) == Got(r) && r.size <= o.maximumBytes && w.inspect(3) == Got(Inspection(did, None))
    requires SameOrigin(o.url, o.url)
    ensures var trace := [
              Inspected(o.url, Some(Inspection(did, Some(["aep-jwt"])))), Advised(o.url, Some(None)),
              Anonymous(o.url, AnonymousHeaders(o.headers), Some(r)), Inspected(o.url, Some(Inspection(did, None)))];
            Runs(o, w, trace) && Due(o, w, trace) == Stop(Ok(r)) && Offered(trace, ["aep-jwt"])
  {
    hide ChallengeOf, ValidResource, SameOrigin, AnonymousHeaders, Due, Runs, Policy, LastListed, LastAnswer;
    ChallengedMeans401(r);
    NothingSent(o, w);
    var first := [Inspected(o.url, Some(Inspection(did, Some(["aep-jwt"]))))];
    var second := first + [Advised(o.url, Some(None))];
    var third := second + [Anonymous(o.url, AnonymousHeaders(o.headers), Some(r))];
    assert [] + first == first;
    RunsOn(o, w, [], first[0]);
    DueAfterInspect(o, w, [], o.url);
    RunsOn(o, w, first, second[1]);
    DueAfterAdvice(o, w, [], second, o.url);
    RunsOn(o, w, second, third[2]);
    DueAfterAnonymous(o, w, second, third[2]);
    RunsOn(o, w, third, Inspected(o.url, Some(Inspection(did, None))));
    DueAfterLive(o, w, third, o.url, r, (did, inspect));
    LiveKeepsPolicy(third, Inspected(o.url, Some(Inspection(did, None))));
    var trace := [first[0], second[1], third[2], Inspected(o.url, Some(Inspection(did, None)))];
    assert third + [trace[3]] == trace;
    OfferedNow(first, ["aep-jwt"]);
    OfferedStays(first, trace, ["aep-jwt"]);
  }

  /** What one turn of the loop leads to. */
  datatype Turn = Done(result: Result<Response, Error>) | Retry | Follow(response: Response)

  /** How a turn may leave the trace. `retry` tells that the challenge refuted the policy. */
  ghost predicate Turns(o: Options, w: World, past: seq<Event>, trace: seq<Event>, target: Url, turn: Turn) {
    && past <= trace && Safe(o, w, trace)
    && Due(o, w, trace) == (match turn
                            case Done(result) => Stop(result)
                            case Retry => ToInspect(target)
                            case Follow(response) => AfterRedirect(o, w, trace, target, response))
    && (Home(o, trace) ==> Home(o, past))
    && (turn.Done? && turn.result.Ok? ==>
          LastAnswer(trace) == Some(turn.result.value) && !IsRedirect(turn.result.value.status))
    && (turn.Done? && turn.result.Err? ==>
          !turn.result.error.TooManyRedirects? && Excused(o, w, trace, turn.result.error))
    && (!turn.Done? ==>
          && (Home(o, trace) <==> Home(o, past) && SameOrigin(o.url, target))
          && trace != [] && trace[|trace| - 1].url == target)
    && (turn.Retry? ==> At(o, w, trace, target) && Hops(trace) == Hops(past) && Opening(trace) && Refuted(trace))
    && (turn.Follow? ==>
          && Redirected(trace[|trace| - 1]) && trace[|trace| - 1].response == Some(turn.response)
          && Hops(trace) == Hops(past) + 1)
  }

  /** The authenticated half of a turn. */
  method Exchange(o: Options, w: World, target: Url, methods: seq<string>, policyUsed: bool, past: seq<Event>)
    returns (turn: Turn, trace: seq<Event>)
    requires Safe(o, w, past) && At(o, w, past, target) && SafeTarget(o, target)
    requires methods != [] && Offered(past, methods)
    requires Departed(o, past, target) ==> Challenged(w, past, target)
    requires Due(o, w, past) == Permitted(o, target, methods) && past != [] && !past[|past| - 1].Granted?
    requires policyUsed <==> Policy(past).GetOr([]) != []
    ensures Turns(o, w, past, trace, target, turn)
    ensures Sends(trace) <= Sends(past) + 1 && (turn.Retry? ==> policyUsed)
  {
    hide Combined, Redirect, ValidResource, ChallengeOf, Challenged, Safe, Sends, Hops, Home, Due, Policy, Permitted,
        AfterRedirect, SameOrigin;
    var presentation;
    presentation, trace := Present(o, w, target, methods, past);
    if presentation.Err? {
      return Done(Err(presentation.error)), trace;
    }
    var answer;
    answer, trace := Authenticate(o, w, target, presentation.value, trace);
    if answer.Err? {
      return Done(Err(answer.error)), trace;
    }
    var response := answer.value;
    if policyUsed {
      var challenge := ChallengeOf(response);
      if challenge.Err? {
        return Done(Err(challenge.error)), trace;
      }
      if challenge.value.Some? {
        ChallengedMeans401(response);
        return Retry, trace;
      }
    }
    return if IsRedirect(response.status) then Follow(response) else Done(Ok(response)), trace;
  }

  /** One turn of the loop of _fetch, up to the point where a redirect is followed. */
  method TakeTurn(o: Options, w: World, target: Url, requireChallenge: bool, useOpenapi: bool, past: seq<Event>)
    returns (turn: Turn, trace: seq<Event>)
    requires Safe(o, w, past) && At(o, w, past, target) && SafeTarget(o, target)
    requires requireChallenge <==> Departed(o, past, target)
    requires Due(o, w, past) == ToInspect(target) && Opening(past) && (useOpenapi <==> !Refuted(past))
    ensures Turns(o, w, past, trace, target, turn)
    ensures Sends(trace) <= Sends(past) + if turn.Retry? && !requireChallenge then 1 else 2
    ensures turn.Retry? ==> useOpenapi
  {
    hide Combined, Redirect, ValidResource, ChallengeOf, Challenged, Safe, Sends, Hops, Home, Excused, Due, Policy,
        AfterRedirect, SameOrigin, Permitted;
    var methods, failed;
    methods, failed, trace := Discover(o, w, target, useOpenapi, past);
    if failed {
      return Done(Err(Propagated)), trace;
    }
    var policyUsed := methods.Some? && methods.value != [];
    if !policyUsed || requireChallenge {
      var probed;
      probed, trace := Probe(o, w, target, methods, trace);
      match probed {
        case Failed(error) => return Done(Err(error)), trace;
        case Answered(answer) => return Done(Ok(answer)), trace;
        case Moved(answer) => return Follow(answer), trace;
        case Try(usable) => methods := Some(usable);
      }
    }
    turn, trace := Exchange(o, w, target, methods.value, policyUsed, trace);
  }

  /** Until the run leaves the caller's origin it makes at most three requests for each redirect it has met, and
      three before the first. */
  ghost predicate Paced(o: Options, trace: seq<Event>) {
    forall n :: 0 <= n <= |trace| && Home(o, trace[..n]) ==> Sends(trace[..n]) <= 3 * (Hops(trace[..n]) + 1)
  }

  lemma {:induction false} CountsGrow(o: Options, trace: seq<Event>, n: nat)
    requires n <= |trace|
    ensures Sends(trace[..n]) <= Sends(trace) && Hops(trace[..n]) <= Hops(trace)
    ensures Home(o, trace) ==> Home(o, trace[..n])
    decreases |trace|
  {
    if n == |trace| {
      assert trace[..n] == trace;
    } else {
      var shorter := trace[..|trace| - 1];
      CountsGrow(o, shorter, n);
      assert shorter[..n] == trace[..n];
    }
  }

  lemma PacedTurn(o: Options, past: seq<Event>, trace: seq<Event>)
    requires Paced(o, past) && past <= trace && Sends(trace) <= Sends(past) + 2
    requires Home(o, past) ==> Sends(past) <= 3 * Hops(past) + 1
    ensures Paced(o, trace)
  {
    forall n | 0 <= n <= |trace| && Home(o, trace[..n]) ensures Sends(trace[..n]) <= 3 * (Hops(trace[..n]) + 1) {
      if n < |past| {
        assert trace[..n] == past[..n];
      } else {
        assert trace[..n][..|past|] == past;
        CountsGrow(o, trace, n);
        CountsGrow(o, trace[..n], |past|);
      }
    }
  }

  lemma NothingSent(o: Options, w: World)
    ensures Safe(o, w, []) && Paced(o, []) && Home(o, []) && Sends([]) == Hops([]) == 0
    ensures Due(o, w, []) == if ValidResource(o.url, o.allowLoopback) then ToInspect(o.url) else Stop(Err(BadUrl))
  {
  }

  /** _fetch. Every event is the one that was due and the result is the one due at the end, so RunIsDetermined
      makes this the only run. What it returns is the answer to the last request, never a redirect, and a
      challenge only when no method is left to try; when it fails, the trace shows why, and it fails for redirects
      only after following every one it was allowed to. */
  method Fetch(o: Options, w: World) returns (result: Result<Response, Error>, trace: seq<Event>)
    ensures Safe(o, w, trace) && Due(o, w, trace) == Stop(result)
    ensures Sends(trace) <= 4 * (o.maxRedirects + 1)
    ensures Paced(o, trace)
    ensures Home(o, trace) ==> Sends(trace) <= 3 * (o.maxRedirects + 1)
    ensures result.Ok? ==>
              && LastAnswer(trace) == Some(result.value) && result.value.status !in {301, 302, 303, 307, 308}
              && result.value.size <= o.maximumBytes && MayReturn(w, trace, result.value)
    ensures result.Err? ==> Excused(o, w, trace, result.error)
    ensures !ValidResource(o.url, o.allowLoopback) ==> result == Err(BadUrl) && trace == []
  {
    hide Combined, Redirect, ChallengeOf, Paced, Sends, Hops, Home, Safe, Due, MayReturn;
    NothingSent(o, w);
    trace := [];
    var target := o.url;
    if !ValidResource(target, o.allowLoopback) {
      return Err(BadUrl), trace;
    }
    var redirects, requireChallenge, useOpenapi := 0, false, true;
    while redirects <= o.maxRedirects
      invariant redirects <= o.maxRedirects + 1 && redirects == Hops(trace)
      invariant Safe(o, w, trace) && SafeTarget(o, target) && At(o, w, trace, target)
      invariant requireChallenge <==> Departed(o, trace, target)
      invariant redirects <= o.maxRedirects ==> Due(o, w, trace) == ToInspect(target)
      invariant redirects > o.maxRedirects ==> Due(o, w, trace) == Stop(Err(TooManyRedirects))
      invariant Opening(trace) && (useOpenapi <==> !Refuted(trace))
      invariant Paced(o, trace)
      invariant Sends(trace) <= 4 * redirects + if useOpenapi then 0 else if requireChallenge then 2 else 1
      invariant Home(o, trace) ==> Sends(trace) <= 3 * redirects + if useOpenapi then 0 else 1
      invariant !useOpenapi ==> redirects <= o.maxRedirects && (requireChallenge ==> !Home(o, trace))
      decreases o.maxRedirects + 1 - redirects, useOpenapi
    {
      ghost var past := trace;
      var turn;
      turn, trace := TakeTurn(o, w, target, requireChallenge, useOpenapi, trace);
      PacedTurn(o, past, trace);
      match turn {
        case Done(outcome) =>
          if outcome.Ok? {
            ReturnsFor(o, w, trace, outcome.value);
          }
          return outcome, trace;
        case Retry => useOpenapi := false;
        case Follow(response) =>
          RedirectMeans(o, w, response, target);
          var next := Redirect(w, response, target, o.allowLoopback);
          if next.Err? {
            return Err(next.error), trace;
          }
          target, requireChallenge := next.value.0, requireChallenge || next.value.1;
          useOpenapi, redirects := true, redirects + 1;
      }
    }
    return Err(TooManyRedirects), trace;
  }
}
