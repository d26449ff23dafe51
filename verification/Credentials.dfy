/** The Service's in-memory credential store. Digests are taken to be injective: a verifier stands for the secret,
    the salt and the algorithm it was made from. */
module Credentials {
  import opened Prelude
  import opened Text
  import Authorization

  datatype GrantType = ApiKeyGrant | BasicGrant | BearerGrant

  datatype Credential =
    | ApiKey(header: string, apiKey: string)
    | UserPass(username: string, password: string)
    | Token(accessToken: string)

  /** What an issuer hands over; the credential repeats its identifier and expiry. */
  datatype Issued = Issued(
    agentDid: string, credentialId: string, createdAt: int, expiresAt: int, grantType: GrantType,
    credential: Credential, statedId: string, statedExpiry: int, scopes: seq<string>)

  datatype Digest = Digest(secret: string, salt: string, password: bool)

  datatype Record = Record(
    agentDid: string, credentialId: string, expiresAt: int, grantType: GrantType, header: string,
    scopes: seq<string>, salt: string, username: string, verifier: Digest, revokedAt: Option<int>)

  datatype Match = Match(agentDid: string, credentialId: string, expiresAt: int, grantType: GrantType,
                         scopes: seq<string>)

  datatype Error = InvalidRecord | IdentifierTaken | SecretTaken

  type Records = map<string, Record>

  type Headers = map<string, seq<string>>

  /** Base64 of the octets of a text, and back; decoding fails on other texts. */
  datatype Codec = Codec(encode: string -> string, decode: string -> Option<string>)

  ghost predicate Inverts(c: Codec) {
    forall x :: c.decode(c.encode(x)) == Some(x)
  }

  type Base64 = c: Codec | Inverts(c) ghost witness Codec(x => x, x => Some(x))

  // ---- what may be stored ----

  predicate IsControl(c: char) {
    c as int < 0x20 || c as int == 0x7F
  }

  predicate IsTokenChar(c: char) {
    'a' <= c <= 'z' || 'A' <= c <= 'Z' || '0' <= c <= '9' || c in "!#$%&'*+-.^_`|~"
  }

  predicate IsKeyChar(c: char) {
    '!' <= c <= '~' && c !in ['"', ',', ';', '\\']
  }

  predicate WellFormed(c: Credential) {
    match c
    case ApiKey(header, apiKey) =>
      && header != "" && (forall i :: 0 <= i < |header| ==> IsTokenChar(header[i]))
      && apiKey != "" && (forall i :: 0 <= i < |apiKey| ==> IsKeyChar(apiKey[i]))
    case UserPass(username, password) =>
      && username != "" && ':' !in username && password != ""
      && (forall i :: 0 <= i < |username| ==> !IsControl(username[i]))
      && (forall i :: 0 <= i < |password| ==> !IsControl(password[i]))
    case Token(accessToken) => accessToken != ""
  }

  predicate OfType(g: GrantType, c: Credential) {
    match g
    case ApiKeyGrant => c.ApiKey?
    case BasicGrant => c.UserPass?
    case BearerGrant => c.Token?
  }

  predicate Storable(i: Issued) {
    && i.agentDid != "" && i.credentialId != "" && i.createdAt < i.expiresAt
    && OfType(i.grantType, i.credential) && WellFormed(i.credential)
    && i.statedId == i.credentialId && i.statedExpiry == i.expiresAt
  }

  /** _credential_secret: what is presented. */
  function Secret(codec: Base64, c: Credential): string {
    match c
    case ApiKey(_, apiKey) => apiKey
    case UserPass(username, password) => codec.encode(username + ":" + password)
    case Token(accessToken) => accessToken
  }

  /** _memory_credential_record, past its checks */
  function Stored(codec: Base64, i: Issued, salt: string): Record {
    Record(i.agentDid, i.credentialId, i.expiresAt, i.grantType,
           if i.credential.ApiKey? then Lower(i.credential.header) else "authorization",
           i.scopes, salt, if i.credential.UserPass? then i.credential.username else "",
           Digest(Secret(codec, i.credential), salt, i.credential.UserPass?), None)
  }

  /** A presentation of this value, header and user name is for this record, whatever its state. */
  predicate IsFor(r: Record, grantType: GrantType, header: string, username: string, value: string) {
    && r.grantType == grantType && r.header == header && r.username == username
    && r.verifier == Digest(value, r.salt, grantType.BasicGrant?)
  }

  predicate Live(r: Record, now: int) {
    r.revokedAt.None? && r.expiresAt > now
  }

  /** No presentation is for two records. */
  ghost predicate Valid(records: Records) {
    && (forall id :: id in records ==> records[id].credentialId == id)
    && forall a, b, grantType, header, username, value ::
         (a in records && b in records
          && IsFor(records[a], grantType, header, username, value)
          && IsFor(records[b], grantType, header, username, value))
         ==> a == b
  }

  // ---- what is presented ----

  function ValuesOf(headers: Headers, name: string): seq<string> {
    if name in headers then headers[name] else []
  }

  /** The credentials of the values that parse with the scheme. */
  function WithScheme(values: seq<string>, carrier: Authorization.Carrier, scheme: Authorization.Scheme): seq<string> {
    if values == [] then []
    else
      var parsed := Authorization.Parse(values[0], carrier);
      (if parsed.Some? && parsed.value.scheme == scheme then [parsed.value.credentials] else [])
      + WithScheme(values[1..], carrier, scheme)
  }

  function SchemeOf(grantType: GrantType): Authorization.Scheme {
    if grantType.BasicGrant? then Authorization.Basic else Authorization.Bearer
  }

  function InAuthorization(headers: Headers, grantType: GrantType): seq<string> {
    WithScheme(ValuesOf(headers, "authorization"), Authorization.Standard, SchemeOf(grantType))
    + WithScheme(ValuesOf(headers, "aep-authorization"), Authorization.Dedicated, SchemeOf(grantType))
  }

  /** The header names under which API keys are stored. */
  function KeyHeaders(records: Records): set<string> {
    set id | id in records && records[id].grantType.ApiKeyGrant? :: records[id].header
  }

  /** Among the named headers there is one value in all, and this is it. */
  ghost predicate Sole(headers: Headers, names: set<string>, header: string, value: string) {
    && header in names && ValuesOf(headers, header) == [value]
    && forall name :: name in names && name != header ==> ValuesOf(headers, name) == []
  }

  /** The request makes exactly one presentation of this grant type. */
  ghost predicate Presents(records: Records, headers: Headers, grantType: GrantType, header: string, value: string) {
    if grantType.ApiKeyGrant? then Sole(headers, KeyHeaders(records), header, value)
    else header == "authorization" && InAuthorization(headers, grantType) == [value]
  }

  /** There are two values or more. */
  ghost predicate Crowded(headers: Headers, names: set<string>) {
    || (exists name :: name in names && |ValuesOf(headers, name)| > 1)
    || (exists a, b :: a in names && b in names && a != b && ValuesOf(headers, a) != [] && ValuesOf(headers, b) != [])
  }

  lemma SoleIsUnique(headers: Headers, names: set<string>, header: string, value: string, other: string,
                     otherValue: string)
    requires Sole(headers, names, header, value) && Sole(headers, names, other, otherValue)
    ensures header == other && value == otherValue
  {
  }

  /** The presentations found under those names. */
  ghost predicate Counted(headers: Headers, names: set<string>, presentations: seq<(string, string)>) {
    && (presentations == [] <==> forall name :: name in names ==> ValuesOf(headers, name) == [])
    && (|presentations| == 1 ==> Sole(headers, names, presentations[0].0, presentations[0].1))
    && (|presentations| > 1 ==> Crowded(headers, names))
  }

  lemma CountedMore(headers: Headers, names: set<string>, presentations: seq<(string, string)>, name: string)
    requires Counted(headers, names, presentations) && name !in names
    ensures Counted(headers, names + {name}, presentations + Paired(name, ValuesOf(headers, name)))
  {
    hide ValuesOf, Paired;
    var values := ValuesOf(headers, name);
    if |presentations| == 1 && values != [] {
      assert Crowded(headers, names + {name}) by {
        assert presentations[0].0 in names + {name} && name in names + {name};
      }
    }
  }

  lemma CountedAll(headers: Headers, names: set<string>, presentations: seq<(string, string)>, header: string,
                   value: string)
    requires Counted(headers, names, presentations)
    ensures Sole(headers, names, header, value) <==> presentations == [(header, value)]
  {
    hide ValuesOf;
    if Sole(headers, names, header, value) && |presentations| == 1 {
      SoleIsUnique(headers, names, header, value, presentations[0].0, presentations[0].1);
    }
  }

  /** The loop over the header names of API keys, in no particular order. */
  method KeyPresentations(headers: Headers, names: set<string>) returns (presentations: seq<(string, string)>)
    ensures forall header, value :: Sole(headers, names, header, value) <==> presentations == [(header, value)]
  {
    presentations := [];
    var rest := names;
    while rest != {}
      invariant rest <= names && Counted(headers, names - rest, presentations)
      decreases |rest|
    {
      var name :| name in rest;
      CountedMore(headers, names - rest, presentations, name);
      assert names - (rest - {name}) == (names - rest) + {name};
      rest := rest - {name};
      presentations := presentations + Paired(name, ValuesOf(headers, name));
    }
    assert names - rest == names;
    forall header, value { CountedAll(headers, names, presentations, header, value); }
  }

  function Paired(name: string, values: seq<string>): (r: seq<(string, string)>)
    ensures |r| == |values| && forall i :: 0 <= i < |r| ==> r[i] == (name, values[i])
  {
    if values == [] then [] else [(name, values[0])] + Paired(name, values[1..])
  }

  /** _credential_presentations */
  method Presentations(records: Records, headers: Headers, grantType: GrantType)
          returns (presentations: seq<(string, string)>)
    ensures forall header, value :: Presents(records, headers, grantType, header, value) <==>
            presentations == [(header, value)]
  {
    if grantType.ApiKeyGrant? {
      presentations := KeyPresentations(headers, KeyHeaders(records));
    } else {
      presentations := Paired("authorization", InAuthorization(headers, grantType));
    }
  }

  /** The user name a presentation names, None when it cannot be decoded. */
  function UsernameOf(codec: Base64, grantType: GrantType, value: string): Option<string> {
    if !grantType.BasicGrant? then Some("")
    else
      match codec.decode(value)
      case None => None
      case Some(userPass) => Some(Before(userPass, ':'))
  }

  /** The record a request authenticates. */
  ghost predicate Authenticates(codec: Base64, records: Records, headers: Headers, grantType: GrantType, now: int,
                                id: string) {
    && id in records && Live(records[id], now)
    && exists header, value :: Presents(records, headers, grantType, header, value)
         && UsernameOf(codec, grantType, value).Some?
         && IsFor(records[id], grantType, header, UsernameOf(codec, grantType, value).value, value)
  }

  /** The match tells whose record it is, and what for. */
  predicate Describes(m: Match, r: Record) {
    m.agentDid == r.agentDid && m.expiresAt == r.expiresAt && m.grantType == r.grantType && m.scopes == r.scopes
  }

  function MatchOf(r: Record): Match {
    Match(r.agentDid, r.credentialId, r.expiresAt, r.grantType, r.scopes)
  }

  /** The part of authenticate_credential after its snapshot of the records. The records are visited in any order;
      what is returned does not depend on it. */
  method MatchSnapshot(codec: Base64, records: Records, headers: Headers, grantType: GrantType, now: int)
    returns (found: Option<Match>)
    requires Valid(records)
    ensures found.None? <==> forall id :: !Authenticates(codec, records, headers, grantType, now, id)
    ensures forall id :: Authenticates(codec, records, headers, grantType, now, id) ==>
              && found.Some? && Describes(found.value, records[id])
              && found.value.credentialId == records[id].credentialId
  {
    var presentations := Presentations(records, headers, grantType);
    if |presentations| != 1 {
      return None;
    }
    var (header, value) := presentations[0];
    assert Presents(records, headers, grantType, header, value);
    var username := UsernameOf(codec, grantType, value);
    if username.None? {
      return None;
    }
    var rest := records.Keys;
    while rest != {}
      invariant rest <= records.Keys
      invariant forall id :: id in records.Keys - rest ==>
                  !(Live(records[id], now) && IsFor(records[id], grantType, header, username.value, value))
      decreases |rest|
    {
      var id :| id in rest;
      if Live(records[id], now) && IsFor(records[id], grantType, header, username.value, value) {
        assert Authenticates(codec, records, headers, grantType, now, id);
        return Some(MatchOf(records[id]));
      }
      rest := rest - {id};
    }
    return None;
  }

  function Revoked(records: Records, agentDid: string, grantType: GrantType, only: Option<string>, at: int): Records {
    map id | id in records ::
      if records[id].agentDid == agentDid && records[id].grantType == grantType && (only.None? || only.value == id)
      then records[id].(revokedAt := Some(at)) else records[id]
  }

  predicate Clashes(codec: Base64, records: Records, i: Issued, id: string)
    requires id in records
  {
    var r := Stored(codec, i, records[id].salt);
    IsFor(records[id], r.grantType, r.header, r.username, Secret(codec, i.credential))
  }

  /** The outcome of save_credential, and the records after it. */
  function Saved(codec: Base64, records: Records, i: Issued, salt: string): (Result<(), Error>, Records) {
    if !Storable(i) then (Err(InvalidRecord), records)
    else if i.credentialId in records then (Err(IdentifierTaken), records)
    else if exists id :: id in records && Clashes(codec, records, i, id) then (Err(SecretTaken), records)
    else (Ok(()), records[i.credentialId := Stored(codec, i, salt)])
  }

  class MemoryServiceCredentialStore {
    const codec: Base64
    var records: Records

    constructor (codec: Base64)
      ensures this.codec == codec && records == map[]
    {
      this.codec := codec;
      records := map[];
    }

    /** save_credential */
    method SaveCredential(i: Issued, salt: string) returns (saved: Result<(), Error>)
      requires Valid(records)
      modifies this
      ensures Valid(records)
      ensures (saved, records) == Saved(codec, old(records), i, salt)
    {
      if !Storable(i) {
        return Err(InvalidRecord);
      }
      if i.credentialId in records {
        return Err(IdentifierTaken);
      }
      var rest := records.Keys;
      while rest != {}
        invariant rest <= records.Keys && records == old(records)
        invariant forall id :: id in records.Keys - rest ==> !Clashes(codec, records, i, id)
        decreases |rest|
      {
        var id :| id in rest;
        if Clashes(codec, records, i, id) {
          return Err(SecretTaken);
        }
        rest := rest - {id};
      }
      SaveKeepsValid(codec, records, i, salt);
      records := records[i.credentialId := Stored(codec, i, salt)];
      return Ok(());
    }

    /** authenticate_credential */
    method AuthenticateCredential(headers: Headers, grantType: GrantType, now: int) returns (found: Option<Match>)
      requires Valid(records)
      ensures found.None? <==> forall id :: !Authenticates(codec, records, headers, grantType, now, id)
      ensures forall id :: Authenticates(codec, records, headers, grantType, now, id) ==>
                && found.Some? && Describes(found.value, records[id])
                && found.value.credentialId == records[id].credentialId
    {
      found := MatchSnapshot(codec, records, headers, grantType, now);
    }

    /** revoke_credential */
    method RevokeCredential(agentDid: string, grantType: GrantType, id: string, at: int)
      requires Valid(records)
      modifies this
      ensures Valid(records) && records == Revoked(old(records), agentDid, grantType, Some(id), at)
    {
      RevokeKeepsValid(records, agentDid, grantType, Some(id), at);
      if id !in records || records[id].agentDid != agentDid || records[id].grantType != grantType {
        assert records == Revoked(records, agentDid, grantType, Some(id), at);
        return;
      }
      records := records[id := records[id].(revokedAt := Some(at))];
    }

    /** revoke_grant_type */
    method RevokeGrantType(agentDid: string, grantType: GrantType, at: int)
      requires Valid(records)
      modifies this
      ensures Valid(records) && records == Revoked(old(records), agentDid, grantType, None, at)
    {
      RevokeKeepsValid(records, agentDid, grantType, None, at);
      var rest := records.Keys;
      assert PartlyRevoked(records, records, rest, agentDid, grantType, at);
      hide Valid, Revoked, PartlyRevoked;
      while rest != {}
        invariant rest <= records.Keys
        invariant PartlyRevoked(records, old(records), rest, agentDid, grantType, at)
        decreases |rest|
      {
        var id :| id in rest;
        assert id in records;
        OneMoreRevoked(records, old(records), rest, id, agentDid, grantType, at);
        if records[id].agentDid == agentDid && records[id].grantType == grantType {
          records := records[id := records[id].(revokedAt := Some(at))];
        }
        rest := rest - {id};
      }
      AllRevoked(records, old(records), agentDid, grantType, at);
    }
  }

  /** The records of the grant type are revoked but for the rest. */
  ghost predicate PartlyRevoked(records: Records, before: Records, rest: set<string>, agentDid: string,
                                grantType: GrantType, at: int) {
    && records.Keys == before.Keys
    && forall id :: id in records ==>
         records[id] == if id in rest then before[id] else Revoked(before, agentDid, grantType, None, at)[id]
  }

  lemma OneMoreRevoked(records: Records, before: Records, rest: set<string>, id: string, agentDid: string,
                       grantType: GrantType, at: int)
    requires PartlyRevoked(records, before, rest, agentDid, grantType, at) && id in rest && id in records
    ensures var r := records[id];
            var later := if r.agentDid == agentDid && r.grantType == grantType
                         then records[id := r.(revokedAt := Some(at))] else records;
            later.Keys == records.Keys && PartlyRevoked(later, before, rest - {id}, agentDid, grantType, at)
  {
  }

  lemma AllRevoked(records: Records, before: Records, agentDid: string, grantType: GrantType, at: int)
    requires PartlyRevoked(records, before, {}, agentDid, grantType, at)
    ensures records == Revoked(before, agentDid, grantType, None, at)
  {
  }

  lemma SaveKeepsValid(codec: Base64, records: Records, i: Issued, salt: string)
    requires Valid(records) && Storable(i) && i.credentialId !in records
    requires forall id :: id in records ==> !Clashes(codec, records, i, id)
    ensures Valid(records[i.credentialId := Stored(codec, i, salt)])
  {
    var r := Stored(codec, i, salt);
    forall id, grantType, header, username, value | id in records
        && IsFor(records[id], grantType, header, username, value)
      ensures !IsFor(r, grantType, header, username, value)
    {
      assert !Clashes(codec, records, i, id);
    }
  }

  lemma RevokeKeepsValid(records: Records, agentDid: string, grantType: GrantType, only: Option<string>, at: int)
    requires Valid(records)
    ensures Valid(Revoked(records, agentDid, grantType, only, at))
  {
    var z := Revoked(records, agentDid, grantType, only, at);
    assert forall id, g, header, username, value :: id in records ==>
      (IsFor(z[id], g, header, username, value) <==> IsFor(records[id], g, header, username, value));
  }

  // ---- what a client of the store can rely on ----

  /** Whatever the order of the records, a request authenticates at most one of them. */
  lemma AtMostOneMatch(codec: Base64, records: Records, headers: Headers, grantType: GrantType, now: int, a: string,
                       b: string)
    requires Valid(records)
    requires Authenticates(codec, records, headers, grantType, now, a)
             && Authenticates(codec, records, headers, grantType, now, b)
    ensures a == b
  {
    var header, value :| Presents(records, headers, grantType, header, value)
      && UsernameOf(codec, grantType, value).Some?
      && IsFor(records[a], grantType, header, UsernameOf(codec, grantType, value).value, value);
    var other, otherValue :| Presents(records, headers, grantType, other, otherValue)
      && UsernameOf(codec, grantType, otherValue).Some?
      && IsFor(records[b], grantType, other, UsernameOf(codec, grantType, otherValue).value, otherValue);
    if grantType.ApiKeyGrant? {
      SoleIsUnique(headers, KeyHeaders(records), header, value, other, otherValue);
    } else {
      assert InAuthorization(headers, grantType)[0] == value == otherValue;
    }
  }

  lemma {:induction false} BeforeColon(username: string, password: string)
    requires ':' !in username
    ensures Before(username + ":" + password, ':') == username
    decreases |username|
  {
    var s := username + ":" + password;
    if username != "" {
      assert s[1..] == username[1..] + ":" + password;
      BeforeColon(username[1..], password);
      assert username == [username[0]] + username[1..];
    }
  }

  /** The record that a saved credential leaves, in the state it was saved in or since revoked. */
  predicate Holds(codec: Base64, records: Records, i: Issued, salt: string) {
    && Storable(i) && i.credentialId in records
    && records[i.credentialId].(revokedAt := None) == Stored(codec, i, salt)
  }

  /** A saved credential authenticates as itself, exactly as long as it is neither revoked nor expired, whenever it
      is the one presentation a request makes. A user name is found again although it travels encoded. */
  lemma SavedAuthenticatesAsItself(codec: Base64, records: Records, headers: Headers, i: Issued, salt: string, now: int)
    requires Holds(codec, records, i, salt)
    requires Presents(records, headers, i.grantType, Stored(codec, i, salt).header, Secret(codec, i.credential))
    ensures Authenticates(codec, records, headers, i.grantType, now, i.credentialId) <==>
            records[i.credentialId].revokedAt.None? && now < i.expiresAt
  {
    var r := records[i.credentialId];
    var value := Secret(codec, i.credential);
    if i.credential.UserPass? {
      BeforeColon(i.credential.username, i.credential.password);
      assert codec.decode(codec.encode(i.credential.username + ":" + i.credential.password)).Some?;
    }
    assert UsernameOf(codec, i.grantType, value) == Some(r.username);
    assert IsFor(r, i.grantType, r.header, r.username, value);
  }

  /** What may be stored: an identified, unexpired credential of its grant type, for which handler and record agree.
      An API key fits in a header and in a list; a user name has no colon; nothing is empty. */
  lemma StorableMeans(i: Issued)
    ensures Storable(i) <==>
            && i.agentDid != "" && i.credentialId != "" && i.statedId == i.credentialId
            && i.createdAt < i.expiresAt == i.statedExpiry
            && match i.credential
               case ApiKey(header, key) =>
                 && i.grantType == ApiKeyGrant && header != "" && key != ""
                 && (forall c :: c in header ==> 'a' <= LowerChar(c) <= 'z' || '0' <= c <= '9'
                                                 || c in "!#$%&'*+-.^_`|~")
                 && (forall c :: c in key ==> ' ' < c < '\U{7F}') && '"' !in key && ',' !in key && ';' !in key
                 && '\\' !in key
               case UserPass(user, password) =>
                 && i.grantType == BasicGrant && user != "" && password != "" && ':' !in user
                 && (forall c :: c in user ==> ' ' <= c && c != '\U{7F}')
                 && (forall c :: c in password ==> ' ' <= c && c != '\U{7F}')
               case Token(token) => i.grantType == BearerGrant && token != ""
  {
    match i.credential
    case ApiKey(header, key) => KeyCharacters(header, key);
    case UserPass(user, password) =>
      NoControls(user);
      NoControls(password);
    case Token(_) =>
    hide IsTokenChar, IsKeyChar, IsControl;
  }

  lemma KeyCharacters(header: string, key: string)
    ensures (forall k :: 0 <= k < |header| ==> IsTokenChar(header[k])) <==>
            forall c :: c in header ==> 'a' <= LowerChar(c) <= 'z' || '0' <= c <= '9' || c in "!#$%&'*+-.^_`|~"
    ensures (forall k :: 0 <= k < |key| ==> IsKeyChar(key[k])) <==>
            && (forall c :: c in key ==> ' ' < c < '\U{7F}') && '"' !in key && ',' !in key && ';' !in key
            && '\\' !in key
  {
    assert forall c: char :: IsTokenChar(c) <==>
        'a' <= LowerChar(c) <= 'z' || '0' <= c <= '9' || c in "!#$%&'*+-.^_`|~";
    assert (forall k :: 0 <= k < |header| ==> IsTokenChar(header[k])) <==> (forall c :: c in header ==> IsTokenChar(c));
    assert (forall k :: 0 <= k < |key| ==> IsKeyChar(key[k])) <==> (forall c :: c in key ==> IsKeyChar(c));
  }

  lemma NoControls(text: string)
    ensures (forall k :: 0 <= k < |text| ==> !IsControl(text[k])) <==>
            forall c :: c in text ==> ' ' <= c && c != '\U{7F}'
  {
    assert (forall k :: 0 <= k < |text| ==> !IsControl(text[k])) <==> (forall c :: c in text ==> !IsControl(c));
  }

  /** Nothing but its own secret authenticates a saved credential: exactly a request whose one presentation of its
      grant type is that secret, in the header of an API key, while the record is neither revoked nor expired. */
  lemma OnlyItsSecretAuthenticates(codec: Base64, records: Records, headers: Headers, i: Issued, salt: string, now: int,
                                   grantType: GrantType, header: string, value: string)
    requires Holds(codec, records, i, salt) && Presents(records, headers, grantType, header, value)
    ensures Authenticates(codec, records, headers, grantType, now, i.credentialId) <==>
            && grantType == i.grantType && records[i.credentialId].revokedAt == None && now < i.expiresAt
            && match i.credential
               case ApiKey(name, key) => header == Lower(name) && value == key
               case UserPass(user, password) => value == codec.encode(user + ":" + password)
               case Token(token) => value == token
  {
    if Authenticates(codec, records, headers, grantType, now, i.credentialId) {
      var other, presented :| Presents(records, headers, grantType, other, presented)
        && UsernameOf(codec, grantType, presented).Some?
        && IsFor(records[i.credentialId], grantType, other, UsernameOf(codec, grantType, presented).value, presented);
      if grantType.ApiKeyGrant? {
        SoleIsUnique(headers, KeyHeaders(records), header, value, other, presented);
      } else {
        assert InAuthorization(headers, grantType)[0] == value == presented;
      }
    } else if grantType == i.grantType && header == Stored(codec, i, salt).header &&
              value == Secret(codec, i.credential) {
      SavedAuthenticatesAsItself(codec, records, headers, i, salt, now);
    }
  }

  lemma WithSchemeNone(values: seq<string>, carrier: Authorization.Carrier, scheme: Authorization.Scheme)
    requires forall value :: value in values ==> Authorization.Parse(value, carrier).None?
    ensures WithScheme(values, carrier, scheme) == []
  {
  }

  /** A request presents a credential once: an API key in its own header, when no other key header is used;
      anything else rendered in one field, when nothing in the other one parses. */
  lemma FieldIsPresented(codec: Base64, records: Records, headers: Headers, i: Issued, salt: string,
                        carrier: Authorization.Carrier)
    requires Holds(codec, records, i, salt)
    requires var a := Authorization.Authorization(carrier, SchemeOf(i.grantType), Secret(codec, i.credential));
             var other := ValuesOf(headers, if carrier.Standard? then "aep-authorization" else "authorization");
             var beside := if carrier.Standard? then Authorization.Dedicated else Authorization.Standard;
             if i.grantType.ApiKeyGrant? then
               && ValuesOf(headers, Lower(i.credential.header)) == [i.credential.apiKey]
               && forall name :: name in KeyHeaders(records) && name != Lower(i.credential.header) ==>
                  ValuesOf(headers, name) == []
             else
               && Authorization.Render(a).Ok? && (carrier.Dedicated? ==> ',' !in a.credentials)
               && ValuesOf(headers, if carrier.Standard? then "authorization" else "aep-authorization") ==
                  [Authorization.Render(a).value.1]
               && forall value :: value in other ==> Authorization.Parse(value, beside).None?
    ensures Presents(records, headers, i.grantType, Stored(codec, i, salt).header, Secret(codec, i.credential))
  {
    if i.grantType.ApiKeyGrant? {
      assert records[i.credentialId].header in KeyHeaders(records);
    } else {
      var a := Authorization.Authorization(carrier, SchemeOf(i.grantType), Secret(codec, i.credential));
      Authorization.RenderRoundTrip(a);
      hide Authorization.Parse, Authorization.Render;
      var value := Authorization.Render(a).value.1;
      assert [value][1..] == [];
      assert WithScheme([value], carrier, a.scheme) == [a.credentials];
      if carrier.Standard? {
        WithSchemeNone(ValuesOf(headers, "aep-authorization"), Authorization.Dedicated, a.scheme);
      } else {
        WithSchemeNone(ValuesOf(headers, "authorization"), Authorization.Standard, a.scheme);
      }
    }
  }

  /** _credential_headers of the Agent: the one header it sends for a credential. */
  function CredentialHeader(codec: Base64, c: Credential, carrier: Authorization.Carrier):
      Result<(string, string), Authorization.Error>
  {
    match c
    case ApiKey(header, apiKey) => Ok((header, apiKey))
    case Token(accessToken) =>
      Authorization.Render(Authorization.Authorization(carrier, Authorization.Bearer, accessToken))
    case UserPass(username, password) =>
      Authorization.Render(Authorization.Authorization(carrier, Authorization.Basic,
                                                       codec.encode(username + ":" + password)))
  }

  /** The headers of a request as they arrive, some of them repeated or in another case. */
  type RawHeaders = seq<(string, seq<string>)>

  function ValuesNamed(raw: RawHeaders, name: string): seq<string>
    decreases |raw|
  {
    if raw == [] then []
    else
      var last := raw[|raw| - 1];
      ValuesNamed(raw[..|raw| - 1], name) + if Lower(last.0) == name then last.1 else []
  }

  ghost predicate Normalizes(raw: RawHeaders, headers: Headers) {
    forall name :: ValuesOf(headers, name) == ValuesNamed(raw, name)
  }

  lemma NormalizesMore(raw: RawHeaders, headers: Headers, next: (string, seq<string>))
    requires Normalizes(raw, headers)
    ensures var key := Lower(next.0); Normalizes(raw + [next], headers[key := ValuesOf(headers, key) + next.1])
  {
    hide Lower;
    assert (raw + [next])[..|raw|] == raw;
    forall name ensures ValuesNamed(raw + [next], name) ==
                        ValuesNamed(raw, name) + (if Lower(next.0) == name then next.1 else []) {}
    assert forall values: seq<string> :: values + [] == values;
  }

  /** _normalize_headers of the Service */
  method NormalizeHeaders(raw: RawHeaders) returns (headers: Headers)
    ensures Normalizes(raw, headers)
  {
    headers := map[];
    assert Normalizes(raw[..0], headers);
    hide Lower, Normalizes, ValuesOf;
    for i := 0 to |raw|
      invariant Normalizes(raw[..i], headers)
    {
      var (name, values) := raw[i];
      NormalizesMore(raw[..i], headers, raw[i]);
      assert raw[..i + 1] == raw[..i] + [raw[i]];
      headers := headers[Lower(name) := ValuesOf(headers, Lower(name)) + values];
    }
    assert raw[..|raw|] == raw;
  }

  lemma {:induction false} ValuesBeside(before: RawHeaders, sent: (string, seq<string>), beside: RawHeaders,
                                        name: string)
    ensures ValuesNamed(before + [sent] + beside, name) ==
            ValuesNamed(before, name) + (if Lower(sent.0) == name then sent.1 else []) + ValuesNamed(beside, name)
    decreases |beside|
  {
    hide Lower;
    var all := before + [sent] + beside;
    if beside == [] {
      assert all[..|all| - 1] == before;
      assert ValuesNamed(all, name) + [] == ValuesNamed(all, name);
    } else {
      assert all[..|all| - 1] == before + [sent] + beside[..|beside| - 1];
      ValuesBeside(before, sent, beside[..|beside| - 1], name);
    }
  }

  function FieldOf(carrier: Authorization.Carrier): string {
    if carrier.Standard? then "authorization" else "aep-authorization"
  }

  function OtherCarrier(carrier: Authorization.Carrier): Authorization.Carrier {
    if carrier.Standard? then Authorization.Dedicated else Authorization.Standard
  }

  /** What else a request carries does not present a credential of that grant type in the place of this one. */
  ghost predicate Unobtrusive(records: Records, raw: RawHeaders, grantType: GrantType, carrier: Authorization.Carrier) {
    if grantType.ApiKeyGrant? then forall name :: name in KeyHeaders(records) ==> ValuesNamed(raw, name) == []
    else
      && ValuesNamed(raw, FieldOf(carrier)) == []
      && forall value :: value in ValuesNamed(raw, FieldOf(OtherCarrier(carrier))) ==>
           Authorization.Parse(value, OtherCarrier(carrier)).None?
  }

  lemma LowerOfSum(a: string, b: string, rest: string)
    requires Lower(a) == b && forall i :: 0 <= i < |rest| ==> !('A' <= rest[i] <= 'Z')
    ensures Lower(a + rest) == b + rest
  {
    hide Lower;
    assert forall i :: 0 <= i < |a| ==> (a + rest)[i] == a[i];
    assert forall i :: 0 <= i < |rest| ==> (a + rest)[|a| + i] == rest[i];
  }

  lemma Spellings()
    ensures "Authorization" == "A" + "uthorization" && "authorization" == "a" + "uthorization"
    ensures "AEP-Authorization" == "AEP-A" + "uthorization" && "aep-authorization" == "aep-a" + "uthorization"
    ensures forall i :: 0 <= i < |"uthorization"| ==> !('A' <= "uthorization"[i] <= 'Z')
  {
  }

  lemma Beginnings()
    ensures Lower("A") == "a" && Lower("AEP-A") == "aep-a"
  {
    hide Lower;
    assert Lower("A")[0] == 'a';
    var s := "AEP-A";
    assert LowerChar(s[0]) == 'a' && LowerChar(s[1]) == 'e' && LowerChar(s[2]) == 'p';
    assert LowerChar(s[3]) == '-' && LowerChar(s[4]) == 'a';
  }

  lemma FieldNames()
    ensures Lower("Authorization") == "authorization" && Lower("AEP-Authorization") == "aep-authorization"
  {
    hide *;
    Spellings();
    Beginnings();
    LowerOfSum("A", "a", "uthorization");
    LowerOfSum("AEP-A", "aep-a", "uthorization");
  }

  lemma RenderedField(a: Authorization.Authorization)
    requires Authorization.Render(a).Ok?
    ensures Lower(Authorization.Render(a).value.0) == FieldOf(a.carrier)
  {
    hide Lower;
    FieldNames();
  }

  /** A header that is alone in its field, among others that present nothing. */
  lemma AloneInField(before: RawHeaders, name: string, value: string, beside: RawHeaders, headers: Headers,
                     field: string)
    requires Normalizes(before + [(name, [value])] + beside, headers)
    requires Lower(name) == field ==> ValuesNamed(before, field) == ValuesNamed(beside, field) == []
    ensures ValuesOf(headers, field) ==
            if Lower(name) == field then [value] else ValuesNamed(before, field) + ValuesNamed(beside, field)
  {
    ValuesBeside(before, (name, [value]), beside, field);
    hide Lower, ValuesNamed, ValuesOf;
    assert ValuesOf(headers, field) == ValuesNamed(before + [(name, [value])] + beside, field);
    assert ValuesNamed(before, field) + [] == ValuesNamed(before, field);
  }

  lemma KeyIsPresented(codec: Base64, records: Records, i: Issued, salt: string, before: RawHeaders, beside: RawHeaders,
                       headers: Headers)
    requires Holds(codec, records, i, salt) && i.grantType.ApiKeyGrant?
    requires Unobtrusive(records, before, i.grantType, Authorization.Standard)
    requires Unobtrusive(records, beside, i.grantType, Authorization.Standard)
    requires Normalizes(before + [(i.credential.header, [i.credential.apiKey])] + beside, headers)
    ensures Presents(records, headers, i.grantType, Stored(codec, i, salt).header, Secret(codec, i.credential))
  {
    assert records[i.credentialId].header in KeyHeaders(records);
    hide Lower, ValuesNamed, ValuesOf, KeyHeaders, Normalizes;
    forall name | name in KeyHeaders(records)
      ensures ValuesOf(headers, name) == if Lower(i.credential.header) == name then [i.credential.apiKey] else []
    {
      AloneInField(before, i.credential.header, i.credential.apiKey, beside, headers, name);
    }
    FieldIsPresented(codec, records, headers, i, salt, Authorization.Standard);
  }

  lemma RenderedIsPresented(codec: Base64, records: Records, i: Issued, salt: string, carrier: Authorization.Carrier,
                            before: RawHeaders, beside: RawHeaders, headers: Headers, name: string, value: string)
    requires Holds(codec, records, i, salt) && !i.grantType.ApiKeyGrant?
    requires carrier.Standard? || ',' !in Secret(codec, i.credential)
    requires Unobtrusive(records, before, i.grantType, carrier) && Unobtrusive(records, beside, i.grantType, carrier)
    requires Authorization.Render(Authorization.Authorization(carrier, SchemeOf(i.grantType),
                                                              Secret(codec, i.credential)))
             == Ok((name, value))
    requires Lower(name) == FieldOf(carrier) && Normalizes(before + [(name, [value])] + beside, headers)
    ensures Presents(records, headers, i.grantType, Stored(codec, i, salt).header, Secret(codec, i.credential))
  {
    hide Lower, ValuesNamed, ValuesOf, Normalizes, Holds, Stored, Secret, Authorization.Parse, Authorization.Render;
    var other := OtherCarrier(carrier);
    AloneInField(before, name, value, beside, headers, FieldOf(carrier));
    assert FieldOf(other) != FieldOf(carrier) by { assert |FieldOf(Authorization.Standard)| == 13; }
    AloneInField(before, name, value, beside, headers, FieldOf(other));
    FieldIsPresented(codec, records, headers, i, salt, carrier);
  }

  lemma SentKey(codec: Base64, i: Issued, carrier: Authorization.Carrier)
    requires OfType(i.grantType, i.credential) && i.grantType.ApiKeyGrant?
    ensures i.credential.ApiKey?
    ensures CredentialHeader(codec, i.credential, carrier) == Ok((i.credential.header, i.credential.apiKey))
  {
  }

  lemma SentAuthorization(codec: Base64, i: Issued, carrier: Authorization.Carrier)
    requires OfType(i.grantType, i.credential) && !i.grantType.ApiKeyGrant?
    requires CredentialHeader(codec, i.credential, carrier).Ok?
    ensures var a := Authorization.Authorization(carrier, SchemeOf(i.grantType), Secret(codec, i.credential));
            && CredentialHeader(codec, i.credential, carrier) == Authorization.Render(a)
            && Lower(CredentialHeader(codec, i.credential, carrier).value.0) == FieldOf(carrier)
  {
    hide Lower, Authorization.Render;
    RenderedField(Authorization.Authorization(carrier, SchemeOf(i.grantType), Secret(codec, i.credential)));
  }

  /** The header the Agent sends for a stored credential, among headers that present nothing else, makes exactly the
      presentation of that credential. Only credentials with a comma are lost in the dedicated field. */
  lemma SentIsPresented(codec: Base64, records: Records, i: Issued, salt: string, carrier: Authorization.Carrier,
                        before: RawHeaders, beside: RawHeaders, headers: Headers)
    requires Holds(codec, records, i, salt) && CredentialHeader(codec, i.credential, carrier).Ok?
    requires i.grantType.ApiKeyGrant? || carrier.Standard? || ',' !in Secret(codec, i.credential)
    requires Unobtrusive(records, before, i.grantType, carrier) && Unobtrusive(records, beside, i.grantType, carrier)
    requires var (name, value) := CredentialHeader(codec, i.credential, carrier).value;
             Normalizes(before + [(name, [value])] + beside, headers)
    ensures Presents(records, headers, i.grantType, Stored(codec, i, salt).header, Secret(codec, i.credential))
  {
    var (name, value) := CredentialHeader(codec, i.credential, carrier).value;
    assert OfType(i.grantType, i.credential);
    if i.grantType.ApiKeyGrant? {
      hide *;
      SentKey(codec, i, carrier);
      KeyIsPresented(codec, records, i, salt, before, beside, headers);
    } else {
      hide *;
      SentAuthorization(codec, i, carrier);
      RenderedIsPresented(codec, records, i, salt, carrier, before, beside, headers, name, value);
    }
  }

  datatype Operation =
    | Save(issued: Issued, salt: string)
    | Revoke(agentDid: string, grantType: GrantType, only: Option<string>, at: int)

  function Apply(codec: Base64, records: Records, op: Operation): Records {
    match op
    case Save(i, salt) => Saved(codec, records, i, salt).1
    case Revoke(agentDid, grantType, only, at) => Revoked(records, agentDid, grantType, only, at)
  }

  function After(codec: Base64, records: Records, ops: seq<Operation>): Records
    decreases |ops|
  {
    if ops == [] then records else After(codec, Apply(codec, records, ops[0]), ops[1..])
  }

  lemma {:induction false} RunKeepsValid(codec: Base64, records: Records, ops: seq<Operation>)
    requires Valid(records)
    ensures Valid(After(codec, records, ops))
    decreases |ops|
  {
    if ops != [] {
      match ops[0] {
        case Save(i, salt) => if Saved(codec, records, i, salt).0.Ok? { SaveKeepsValid(codec, records, i, salt); }
        case Revoke(agentDid, grantType, only, at) => RevokeKeepsValid(records, agentDid, grantType, only, at);
      }
      RunKeepsValid(codec, Apply(codec, records, ops[0]), ops[1..]);
    }
  }

  /** Nothing a store does afterwards changes a record but its revocation, and that is never taken back. */
  lemma {:induction false} RecordsStay(codec: Base64, records: Records, ops: seq<Operation>, id: string)
    requires id in records
    ensures var z := After(codec, records, ops);
            && id in z && z[id].(revokedAt := None) == records[id].(revokedAt := None)
            && (records[id].revokedAt.Some? ==> z[id].revokedAt.Some?)
    decreases |ops|
  {
    if ops != [] {
      RecordsStay(codec, Apply(codec, records, ops[0]), ops[1..], id);
    }
  }

  /** A saved credential stays what it was saved as, and authenticates no request that takes its snapshot after a
      revocation of it, whatever the store does in between. */
  lemma RevokedNeverAuthenticates(codec: Base64, records: Records, i: Issued, salt: string, before: seq<Operation>,
                                  only: Option<string>, at: int, later: seq<Operation>, headers: Headers, now: int)
    requires Saved(codec, records, i, salt).0.Ok? && (only.None? || only.value == i.credentialId)
    ensures var saved := After(codec, Saved(codec, records, i, salt).1, before);
            var z := After(codec, Revoked(saved, i.agentDid, i.grantType, only, at), later);
            && Holds(codec, saved, i, salt) && Holds(codec, z, i, salt)
            && !Authenticates(codec, z, headers, i.grantType, now, i.credentialId)
  {
    var saved := After(codec, Saved(codec, records, i, salt).1, before);
    RecordsStay(codec, Saved(codec, records, i, salt).1, before, i.credentialId);
    RecordsStay(codec, Revoked(saved, i.agentDid, i.grantType, only, at), later, i.credentialId);
  }

  /** Authentication works on its snapshot of the records. A revocation that comes between the snapshot and the
      search is not seen: the search still finds the credential that the store no longer accepts. */
  lemma SnapshotOutlivesRevocation(codec: Base64, snapshot: Records, headers: Headers, i: Issued, salt: string,
                                   now: int, only: Option<string>, at: int)
    requires Holds(codec, snapshot, i, salt) && Live(snapshot[i.credentialId], now)
    requires Presents(snapshot, headers, i.grantType, Stored(codec, i, salt).header, Secret(codec, i.credential))
    requires only.None? || only.value == i.credentialId
    ensures Authenticates(codec, snapshot, headers, i.grantType, now, i.credentialId)
    ensures !Authenticates(codec, Revoked(snapshot, i.agentDid, i.grantType, only, at), headers, i.grantType, now,
                           i.credentialId)
  {
    SavedAuthenticatesAsItself(codec, snapshot, headers, i, salt, now);
  }

  /** Such a revocation exists: one credential, its snapshot, and a request that presents it. */
  lemma LateRevocationIsMissed(codec: Base64)
    returns (snapshot: Records, headers: Headers, i: Issued, now: int, at: int)
    ensures Valid(snapshot) && Authenticates(codec, snapshot, headers, i.grantType, now, i.credentialId)
    ensures var z := Revoked(snapshot, i.agentDid, i.grantType, Some(i.credentialId), at);
            !Authenticates(codec, z, headers, i.grantType, now, i.credentialId)
  {
    i := Issued("did:web:a", "c", 0, 10, ApiKeyGrant, ApiKey("k", "s"), "c", 10, []);
    snapshot := map["c" := Stored(codec, i, "")];
    headers := map["k" := ["s"]];
    now, at := 5, 5;
    assert Lower("k") == "k";
    assert snapshot["c"].header in KeyHeaders(snapshot);
    SnapshotOutlivesRevocation(codec, snapshot, headers, i, "", now, Some("c"), at);
  }
}
