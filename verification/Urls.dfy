/** URLs as urllib.parse.urlsplit takes them apart, their origins, and the checks the Agent makes. */
module Urls {
  import opened Prelude

  /** `BadPort` stands for a port that is not a number in range, on which reading the port raises. */
  datatype Port = NoPort | Port(number: nat) | BadPort

  /** Scheme and host are in lower case, as urlsplit reports them; an empty host stands for none.
      `spaced` tells whether the text contains white space or a control character. */
  datatype Url = Url(
    scheme: string, host: string, port: Port, user: Option<string>, password: Option<string>,
    path: string, query: Option<string>, fragment: Option<string>, spaced: bool)

  datatype Origin = Origin(scheme: string, host: string, port: nat)

  /** None where the computation of the origin raises. */
  function OriginOf(u: Url): Option<Origin> {
    if u.host == "" || u.port.BadPort? then None
    else Some(Origin(u.scheme, u.host, if u.port.Port? then u.port.number else if u.scheme == "https" then 443 else 80))
  }

  predicate SameOrigin(a: Url, b: Url) {
    OriginOf(a).Some? && OriginOf(a) == OriginOf(b)
  }

  predicate IsLoopback(host: string) {
    host == "localhost" || host == "127.0.0.1" || host == "::1"
  }

  predicate SecureEnough(u: Url, allowLoopback: bool) {
    u.scheme == "https" || (allowLoopback && u.scheme == "http" && IsLoopback(u.host))
  }

  predicate Truthy(s: Option<string>) { s.Some? && s.value != "" }

  /** _validate_url of the protected-resource helper */
  predicate ValidResource(u: Url, allowLoopback: bool) {
    && !u.port.BadPort? && u.host != "" && u.user.None? && u.password.None? && u.fragment.None? && !u.spaced
    && SecureEnough(u, allowLoopback)
  }

  /** _valid_https_url of the Agent, which accepts empty user information and an empty fragment */
  predicate ValidHttps(u: Url, allowLoopback: bool) {
    !Truthy(u.user) && !Truthy(u.password) && !Truthy(u.fragment) && u.host != "" && SecureEnough(u, allowLoopback)
  }

  /** Scheme, host and port decide: hosts must be there, a port that is not stated is the one of the scheme, and one
      that cannot be read is no port. */
  lemma SameOriginMeans(a: Url, b: Url)
    ensures SameOrigin(a, b) <==>
            && a.scheme == b.scheme && a.host == b.host != "" && a.port != BadPort && b.port != BadPort
            && (a.port == b.port || (a.port == NoPort && b.port == Port(if b.scheme == "https" then 443 else 80))
                || (b.port == NoPort && a.port == Port(if a.scheme == "https" then 443 else 80)))
  {
  }
}
