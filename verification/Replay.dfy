/** The replay stores of the Service and the Platform, and the assertion checks in front of them.

    Main results: exactly when a used assertion identifier is accepted again in any sequence of calls
    (only if the `now` values run backwards over its expiry), and exactly when the Service authenticates an
    assertion again, for uses in the order in which they reach the store. */
module Replay {
  import opened Prelude

  // ---- consume ----

  function Purged<K>(records: map<K, int>, now: int): map<K, int> {
    map k | k in records && records[k] > now :: records[k]
  }

  /** Both stores accept an identifier that expires in the future and is not on file. */
  predicate Accepts<K(==)>(records: map<K, int>, key: K, expiresAt: int, now: int) {
    expiresAt > now && key !in Purged(records, now)
  }

  function Consumed<K(==)>(records: map<K, int>, key: K, expiresAt: int, now: int): map<K, int> {
    if Accepts(records, key, expiresAt, now) then Purged(records, now)[key := expiresAt] else Purged(records, now)
  }

  type Subject = (string, string)

  datatype Verdict = InvalidRecord | Used | Accepted

  /** The Service's store; InvalidRecord stands for its ValueError. */
  class MemoryReplayStore {
    var records: map<Subject, int>

    constructor ()
      ensures records == map[]
    {
      records := map[];
    }

    method Consume(subject: string, jwtId: string, expiresAt: int, now: int) returns (verdict: Verdict)
      modifies this
      ensures verdict.InvalidRecord? <==> expiresAt <= now || subject == "" || jwtId == ""
      ensures verdict.Accepted? <==>
              subject != "" && jwtId != "" && Accepts(old(records), (subject, jwtId), expiresAt, now)
      ensures records == if verdict.Accepted? then Purged(old(records), now)[(subject, jwtId) := expiresAt]
                         else Purged(old(records), now)
    {
      var key := (subject, jwtId);
      records := Purged(records, now);
      if expiresAt <= now || subject == "" || jwtId == "" {
        return InvalidRecord;
      }
      if key in records {
        return Used;
      }
      records := records[key := expiresAt];
      return Accepted;
    }
  }

  /** The Platform's store, which refuses an expired identifier instead of raising. */
  class PlatformReplayStore {
    var records: map<string, int>

    constructor ()
      ensures records == map[]
    {
      records := map[];
    }

    method Consume(key: string, expiresAt: int, now: int) returns (verdict: Verdict)
      modifies this
      ensures verdict.InvalidRecord? <==> key == ""
      ensures key == "" ==> records == old(records)
      ensures key != "" ==> records == Consumed(old(records), key, expiresAt, now)
      ensures key != "" ==> (verdict.Accepted? <==> Accepts(old(records), key, expiresAt, now))
    {
      if key == "" {
        return InvalidRecord;
      }
      records := Purged(records, now);
      if expiresAt <= now || key in records {
        return Used;
      }
      records := records[key := expiresAt];
      return Accepted;
    }
  }

  // ---- sequences of calls ----

  datatype Call<K> = Call(key: K, expiresAt: int, now: int)

  function After<K(==)>(calls: seq<Call<K>>): map<K, int> {
    if calls == [] then map[]
    else
      var last := calls[|calls| - 1];
      Consumed(After(calls[..|calls| - 1]), last.key, last.expiresAt, last.now)
  }

  predicate AcceptedAt<K(==)>(calls: seq<Call<K>>, i: nat)
    requires i < |calls|
  {
    Accepts(After(calls[..i]), calls[i].key, calls[i].expiresAt, calls[i].now)
  }

  predicate ClockReached<K>(calls: seq<Call<K>>, from: nat, to: nat, time: int)
    requires to <= |calls|
  {
    exists m :: from <= m < to && calls[m].now >= time
  }

  /** What an accepted identifier leaves behind while it is not accepted again: its expiry, until the
      clock of some later call reaches it. */
  lemma {:induction false} KeptUntilClockReached<K(!new)>(calls: seq<Call<K>>, i: nat, n: nat)
    requires i < n <= |calls| && AcceptedAt(calls, i)
    requires forall k :: i < k < n && calls[k].key == calls[i].key ==> !AcceptedAt(calls, k)
    ensures var state := After(calls[..n]);
            if ClockReached(calls, i + 1, n, calls[i].expiresAt) then calls[i].key !in state
            else calls[i].key in state && state[calls[i].key] == calls[i].expiresAt
    decreases n
  {
    assert calls[..n][..n - 1] == calls[..n - 1];
    if n > i + 1 {
      KeptUntilClockReached(calls, i, n - 1);
      if ClockReached(calls, i + 1, n - 1, calls[i].expiresAt) {
        var m :| i + 1 <= m < n - 1 && calls[m].now >= calls[i].expiresAt;
        assert ClockReached(calls, i + 1, n, calls[i].expiresAt);
      } else if calls[n - 1].now >= calls[i].expiresAt {
        assert ClockReached(calls, i + 1, n, calls[i].expiresAt);
      }
      assert AcceptedAt(calls, n - 1) <==> Accepts(After(calls[..n - 1]), calls[n - 1].key, calls[n - 1].expiresAt,
                                                   calls[n - 1].now);
    }
  }

  /** Exactly when an identifier is accepted again: the new expiry is ahead of this call's clock, and
      the clock of some call since the last acceptance (this one included) had reached the old one. */
  lemma AcceptedAgainIff<K(!new)>(calls: seq<Call<K>>, i: nat, j: nat)
    requires i < j < |calls| && AcceptedAt(calls, i) && calls[j].key == calls[i].key
    requires forall k :: i < k < j && calls[k].key == calls[i].key ==> !AcceptedAt(calls, k)
    ensures AcceptedAt(calls, j) <==>
            calls[j].now < calls[j].expiresAt && ClockReached(calls, i + 1, j + 1, calls[i].expiresAt)
  {
    KeptUntilClockReached(calls, i, j);
    if ClockReached(calls, i + 1, j + 1, calls[i].expiresAt) {
      var m :| i + 1 <= m < j + 1 && calls[m].now >= calls[i].expiresAt;
      if m < j { assert ClockReached(calls, i + 1, j, calls[i].expiresAt); }
    } else {
      assert forall m :: i + 1 <= m < j ==> calls[m].now < calls[i].expiresAt;
    }
  }

  /** One call with a clock 5 behind its predecessor's is enough for a second acceptance. */
  lemma BackwardClockReplays()
    ensures var calls := [Call("a", 10, 0), Call("b", 20, 15), Call("a", 10, 5)];
            AcceptedAt(calls, 0) && AcceptedAt(calls, 2)
  {
    var calls := [Call("a", 10, 0), Call("b", 20, 15), Call("a", 10, 5)];
    assert AcceptedAt(calls, 0);
    assert !AcceptedAt(calls, 1) || calls[1].key != calls[0].key;
    assert calls[1].now >= calls[0].expiresAt;
    AcceptedAgainIff(calls, 0, 2);
  }

  predicate Nondecreasing<K>(calls: seq<Call<K>>) {
    forall i, j :: 0 <= i < j < |calls| ==> calls[i].now <= calls[j].now
  }

  /** With clocks that do not run backwards, the same identifier and expiry is accepted once. */
  lemma {:induction false} AcceptedOnce<K(!new)>(calls: seq<Call<K>>, i: nat, j: nat)
    requires i < j < |calls| && Nondecreasing(calls) && AcceptedAt(calls, i)
    requires calls[j].key == calls[i].key && calls[j].expiresAt == calls[i].expiresAt
    ensures !AcceptedAt(calls, j)
  {
    if AcceptedAt(calls, j) {
      var k := LastAcceptance(calls, i, j);
      AcceptedAgainIff(calls, k, j);
      var m :| k + 1 <= m < j + 1 && calls[m].now >= calls[k].expiresAt;
      if k > i { LaterAcceptanceMeansExpired(calls, i, k); }
    }
  }

  lemma {:induction false} LastAcceptance<K(!new)>(calls: seq<Call<K>>, i: nat, j: nat) returns (k: nat)
    requires i < j < |calls| && AcceptedAt(calls, i)
    ensures i <= k < j && calls[k].key == calls[i].key && AcceptedAt(calls, k)
    ensures forall l :: k < l < j && calls[l].key == calls[i].key ==> !AcceptedAt(calls, l)
    decreases j
  {
    if j == i + 1 || (calls[j - 1].key == calls[i].key && AcceptedAt(calls, j - 1)) {
      k := j - 1;
    } else {
      k := LastAcceptance(calls, i, j - 1);
    }
  }

  /** A second acceptance of a key means that its first expiry had passed. */
  lemma {:induction false} LaterAcceptanceMeansExpired<K(!new)>(calls: seq<Call<K>>, i: nat, j: nat)
    requires i < j < |calls| && Nondecreasing(calls) && AcceptedAt(calls, i)
    requires calls[j].key == calls[i].key && AcceptedAt(calls, j)
    ensures calls[i].expiresAt <= calls[j].now
    decreases j
  {
    var k := LastAcceptance(calls, i, j);
    AcceptedAgainIff(calls, k, j);
    if k > i {
      LaterAcceptanceMeansExpired(calls, i, k);
    } else {
      var m :| k + 1 <= m < j + 1 && calls[m].now >= calls[k].expiresAt;
    }
  }

  // ---- the Service's assertion checks ----

  datatype Operation = EnrollOp | GrantOp | RevokeOp | StatusOp | AuthenticateOp

  datatype Assertion = Assertion(
    aud: string, exp: int, iat: int, iss: string, jti: string, op: Operation, resource: Option<string>, sub: string)
  {
    /** ClientAssertionClaims' own validation; the shape of the resource URI is not modelled. */
    predicate WellFormed() {
      && aud != "" && iss != "" && jti != "" && sub != ""
      && iss == sub && 0 < exp - iat <= 300 && (op.AuthenticateOp? <==> resource.Some?)
    }
  }

  datatype Header = Header(typ: string, kid: Option<string>, alg: string)

  /** What the Service is configured with; `normalize` stands for resource URI normalization, which
      fails on URIs that are not allowed. */
  datatype Policy = Policy(
    serviceDid: string, algorithms: set<string>, identityMethods: set<string>, tolerance: int, maximumLifetime: int,
    normalize: string -> Option<string>)

  function UpTo(s: string, stop: char): string {
    if s == "" || s[0] == stop then "" else [s[0]] + UpTo(s[1..], stop)
  }

  /** `did:<method>` when the value has three parts and the second is not empty, else empty. */
  function IdentityMethod(did: string): string {
    var scheme := UpTo(did, ':');
    if scheme != "did" || |did| <= 4 then ""
    else
      var method_ := UpTo(did[4..], ':');
      if method_ == "" || |did| <= 4 + |method_| then "" else "did:" + method_
  }

  /** _valid_assertion */
  predicate ValidAssertion(p: Policy, header: Header, a: Assertion, op: Operation, resource: Option<string>, now: int) {
    && a.WellFormed()
    && (a.resource.Some? ==> p.normalize(a.resource.value).Some?)
    && header.typ == "JWT" && header.kid.Some? && UpTo(header.kid.value, '#') == a.sub
    && header.alg in p.algorithms
    && a.aud == p.serviceDid && a.iss == a.sub && a.op == op
    && (if a.resource.Some? then p.normalize(a.resource.value) else None) == resource
    && IdentityMethod(a.sub) in p.identityMethods
    && a.exp - a.iat <= p.maximumLifetime
    && a.iat <= now + p.tolerance
    && a.exp > now - p.tolerance
  }

  /** A use of an assertion whose signature the verifier has checked; `now` is the clock as it was read before
      the verifier was called. */
  datatype Use = Use(header: Header, assertion: Assertion, op: Operation, resource: Option<string>, now: int)

  predicate Passes(p: Policy, u: Use) {
    ValidAssertion(p, u.header, u.assertion, u.op, u.resource, u.now)
  }

  /** The key identifier names a key of that subject: it is the subject, alone or with a fragment. */
  predicate NamesKeyOf(kid: string, sub: string) {
    '#' !in sub && (kid == sub || sub + "#" <= kid)
  }

  /** The DID is of that method. */
  predicate HasMethod(did: string, name: string) {
    name != "" && ':' !in name && "did:" + name + ":" <= did
  }

  /** The DID's method is accepted; an identifier of no method counts as the empty one. */
  ghost predicate MethodAccepted(p: Policy, did: string) {
    if name :| HasMethod(did, name) then "did:" + name in p.identityMethods else "" in p.identityMethods
  }

  /** What the Service asks of an assertion: it is meant for this Service, this operation and this resource, by the
      Agent that issued it and under one of its keys, lives no longer than allowed, and the clock, as it was read,
      is in its window up to the tolerance. */
  ghost predicate Meets(p: Policy, u: Use) {
    var a, header := u.assertion, u.header;
    && a.aud == p.serviceDid && a.op == u.op
    && (match a.resource
        case Some(uri) => p.normalize(uri).Some? && u.resource == p.normalize(uri)
        case None => u.resource == None)
    && a.iss == a.sub && a.aud != "" && a.sub != "" && a.jti != ""
    && (a.op == AuthenticateOp <==> a.resource != None)
    && header.typ == "JWT" && header.alg in p.algorithms
    && header.kid != None && NamesKeyOf(header.kid.value, a.sub)
    && MethodAccepted(p, a.sub)
    && a.iat < a.exp <= a.iat + 300 && a.exp <= a.iat + p.maximumLifetime
    && a.iat - p.tolerance <= u.now < a.exp + p.tolerance
  }

  lemma {:induction false} UpToMeans(s: string, stop: char, t: string)
    ensures UpTo(s, stop) == t <==> stop !in t && (s == t || t + [stop] <= s)
  {
    if s != "" && s[0] != stop {
      if t != "" {
        UpToMeans(s[1..], stop, t[1..]);
        assert s == [s[0]] + s[1..] && t == [t[0]] + t[1..];
        assert t + [stop] == [t[0]] + (t[1..] + [stop]);
      }
    }
  }

  lemma IdentityMethodMeans(did: string, name: string)
    requires name != "" && ':' !in name
    ensures IdentityMethod(did) == "did:" + name <==> HasMethod(did, name)
  {
    UpToMeans(did, ':', "did");
    assert "did" + [':'] == "did:";
    if "did:" <= did {
      assert did[..4] == "did:" && did == "did:" + did[4..];
      var method_ := UpTo(did[4..], ':');
      UpToMeans(did[4..], ':', name);
      UpToMeans(did[4..], ':', method_);
      MethodSuffix(did, name);
      assert ("did:" + method_)[4..] == method_ && ("did:" + name)[4..] == name;
      assert IdentityMethod(did) == "did:" + name <==> method_ == name && |did| > 4 + |name|;
    }
  }

  lemma MethodSuffix(did: string, name: string)
    requires "did:" <= did
    ensures name + ":" <= did[4..] <==> "did:" + name + ":" <= did
  {
    assert did == "did:" + did[4..];
    assert "did:" + name + ":" == "did:" + (name + ":");
    if "did:" + name + ":" <= did {
      assert ("did:" + (name + ":"))[4..] == name + ":";
      assert did[4..][..|name| + 1] == did[..|name| + 5][4..];
    }
  }

  lemma IdentityMethodIsOne(did: string) returns (name: string)
    requires IdentityMethod(did) != ""
    ensures name != "" && ':' !in name && IdentityMethod(did) == "did:" + name
  {
    name := UpTo(did[4..], ':');
    UpToMeans(did[4..], ':', name);
  }

  lemma MethodAcceptedMeans(p: Policy, did: string)
    ensures MethodAccepted(p, did) <==> IdentityMethod(did) in p.identityMethods
  {
    if name :| HasMethod(did, name) {
      forall n | HasMethod(did, n) ensures IdentityMethod(did) == "did:" + n { IdentityMethodMeans(did, n); }
    } else if IdentityMethod(did) != "" {
      var name := IdentityMethodIsOne(did);
      IdentityMethodMeans(did, name);
    }
  }

  /** The checks let a use pass exactly when it meets what is asked of it. */
  lemma PassesMeans(p: Policy, u: Use)
    ensures Passes(p, u) <==> Meets(p, u)
  {
    MethodAcceptedMeans(p, u.assertion.sub);
    if u.header.kid.Some? { UpToMeans(u.header.kid.value, '#', u.assertion.sub); }
    hide UpTo, IdentityMethod, MethodAccepted;
  }

  function CallOf(p: Policy, u: Use): Call<Subject> {
    Call((u.assertion.sub, u.assertion.jti), u.assertion.exp + p.tolerance, u.now)
  }

  /** The calls that reach the replay store. */
  function Calls(p: Policy, uses: seq<Use>): seq<Call<Subject>> {
    if uses == [] then []
    else
      var u := uses[|uses| - 1];
      Calls(p, uses[..|uses| - 1]) + (if Passes(p, u) then [CallOf(p, u)] else [])
  }

  /** _authenticate_assertion, after the uses before it */
  predicate Authenticated(p: Policy, uses: seq<Use>, i: nat)
    requires i < |uses|
  {
    var call := CallOf(p, uses[i]);
    Passes(p, uses[i]) && Accepts(After(Calls(p, uses[..i])), call.key, call.expiresAt, call.now)
  }

  /** A valid assertion never trips the store's invalid-record error, and is filed for exactly as long
      as the checks would let it through. */
  lemma ConsumeNeverRaises(p: Policy, u: Use, later: int)
    requires Passes(p, u)
    ensures var call := CallOf(p, u); call.key.0 != "" && call.key.1 != "" && call.expiresAt > call.now
    ensures u.assertion.exp > later - p.tolerance <==> CallOf(p, u).expiresAt > later
  {
  }

  /** What the store holds after those uses. */
  function Filed(p: Policy, uses: seq<Use>): map<Subject, int> {
    After(Calls(p, uses))
  }

  lemma FiledAfter(p: Policy, uses: seq<Use>, u: Use)
    ensures var call := CallOf(p, u);
            Filed(p, uses + [u]) ==
            if Passes(p, u) then Consumed(Filed(p, uses), call.key, call.expiresAt, call.now) else Filed(p, uses)
  {
    assert (uses + [u])[..|uses|] == uses;
    var calls := Calls(p, uses);
    assert calls + [] == calls && (calls + [CallOf(p, u)])[..|calls|] == calls;
  }

  predicate SameKey(u: Use, v: Use) { u.assertion.sub == v.assertion.sub && u.assertion.jti == v.assertion.jti }

  /** Some use that passed the checks reached the store with a clock read at or after `time`. */
  predicate PurgedAfter(p: Policy, uses: seq<Use>, from: nat, to: nat, time: int)
    requires to <= |uses|
  {
    exists m :: from <= m < to && Passes(p, uses[m]) && uses[m].now >= time
  }

  lemma FiledAtOnce(p: Policy, uses: seq<Use>, i: nat)
    requires i < |uses| && Authenticated(p, uses, i)
    ensures var call, filed := CallOf(p, uses[i]), Filed(p, uses[..i + 1]);
            call.key in filed && filed[call.key] == call.expiresAt
  {
    assert uses[..i + 1] == uses[..i] + [uses[i]];
    FiledAfter(p, uses[..i], uses[i]);
    hide Passes, Calls;
  }

  /** One more use leaves a filed identifier on file or purges it; only when authenticated does it file it anew. */
  lemma FiledOneMore(p: Policy, uses: seq<Use>, n: nat, key: Subject, expiry: int)
    requires n < |uses| && (CallOf(p, uses[n]).key == key ==> !Authenticated(p, uses, n))
    requires key in Filed(p, uses[..n]) ==> Filed(p, uses[..n])[key] == expiry
    ensures var filed := Filed(p, uses[..n + 1]);
            if key in Filed(p, uses[..n]) && !(Passes(p, uses[n]) && uses[n].now >= expiry)
            then key in filed && filed[key] == expiry else key !in filed
  {
    assert uses[..n + 1] == uses[..n] + [uses[n]];
    FiledAfter(p, uses[..n], uses[n]);
    hide Passes, Filed;
  }

  lemma {:induction false} FiledUntilPurged(p: Policy, uses: seq<Use>, i: nat, n: nat)
    requires i < n <= |uses| && Authenticated(p, uses, i)
    requires forall k :: i < k < n && SameKey(uses[k], uses[i]) ==> !Authenticated(p, uses, k)
    ensures var call, filed := CallOf(p, uses[i]), Filed(p, uses[..n]);
            if PurgedAfter(p, uses, i + 1, n, call.expiresAt) then call.key !in filed
            else call.key in filed && filed[call.key] == call.expiresAt
    decreases n
  {
    var call, last := CallOf(p, uses[i]), uses[n - 1];
    hide Passes, Filed, Authenticated;
    if n == i + 1 {
      FiledAtOnce(p, uses, i);
    } else {
      FiledUntilPurged(p, uses, i, n - 1);
      assert SameKey(last, uses[i]) <==> CallOf(p, last).key == call.key;
      FiledOneMore(p, uses, n - 1, call.key, call.expiresAt);
      assert PurgedAfter(p, uses, i + 1, n, call.expiresAt) <==>
             PurgedAfter(p, uses, i + 1, n - 1, call.expiresAt) || (Passes(p, last) && last.now >= call.expiresAt);
    }
  }

  /** Uses in the order in which they reach the store, whatever the order in which they read the clock. After the
      last acceptance of its identifier an assertion is authenticated again if and only if it passes at its own
      clock read and some use since then reached the store with a clock read at or past the filed expiry. */
  lemma AuthenticatedAgainIff(p: Policy, uses: seq<Use>, i: nat, j: nat)
    requires i < j < |uses| && Authenticated(p, uses, i) && SameKey(uses[i], uses[j])
    requires forall k :: i < k < j && SameKey(uses[k], uses[i]) ==> !Authenticated(p, uses, k)
    ensures Authenticated(p, uses, j) <==>
            Passes(p, uses[j]) && PurgedAfter(p, uses, i + 1, j + 1, uses[i].assertion.exp + p.tolerance)
  {
    FiledUntilPurged(p, uses, i, j);
    var expiry := uses[i].assertion.exp + p.tolerance;
    assert PurgedAfter(p, uses, i + 1, j + 1, expiry) <==>
           PurgedAfter(p, uses, i + 1, j, expiry) || (Passes(p, uses[j]) && uses[j].now >= expiry);
  }

  lemma {:induction false} NextAuthentication(p: Policy, uses: seq<Use>, i: nat, j: nat) returns (n: nat)
    requires i < j < |uses| && SameKey(uses[i], uses[j]) && Authenticated(p, uses, j)
    ensures i < n <= j && SameKey(uses[i], uses[n]) && Authenticated(p, uses, n)
    ensures forall k :: i < k < n && SameKey(uses[k], uses[i]) ==> !Authenticated(p, uses, k)
    decreases j
  {
    n := j;
    if k :| i < k < j && SameKey(uses[k], uses[i]) && Authenticated(p, uses, k) {
      n := NextAuthentication(p, uses, i, k);
    }
  }

  lemma AuthenticatedInTime(p: Policy, uses: seq<Use>, i: nat)
    requires i < |uses| && Authenticated(p, uses, i)
    ensures Passes(p, uses[i]) && uses[i].now < uses[i].assertion.exp + p.tolerance
  {
  }

  /** A second authentication of an assertion needs a use in between that read the clock later than it did and yet
      reached the store earlier. */
  lemma ReplayNeedsOvertaking(p: Policy, uses: seq<Use>, i: nat, j: nat) returns (m: nat)
    requires i < j < |uses| && uses[i].assertion == uses[j].assertion
    requires Authenticated(p, uses, i) && Authenticated(p, uses, j)
    ensures i < m < j && Passes(p, uses[m])
    ensures uses[j].now < uses[i].assertion.exp + p.tolerance <= uses[m].now
  {
    hide Passes, Authenticated;
    AuthenticatedInTime(p, uses, j);
    var n := NextAuthentication(p, uses, i, j);
    AuthenticatedAgainIff(p, uses, i, n);
    var l :| i + 1 <= l < n + 1 && Passes(p, uses[l]) && uses[l].now >= uses[i].assertion.exp + p.tolerance;
    m := l;
  }

  /** When uses reach the store in the order of their clock reads, no assertion is authenticated twice, whatever is
      presented in between and for whichever operation. */
  lemma AssertionAcceptedOnce(p: Policy, uses: seq<Use>, i: nat, j: nat)
    requires forall k, l :: 0 <= k < l < |uses| ==> uses[k].now <= uses[l].now
    requires i < j < |uses| && uses[i].assertion == uses[j].assertion && Authenticated(p, uses, i)
    ensures !Authenticated(p, uses, j)
  {
    if Authenticated(p, uses, j) {
      var m := ReplayNeedsOvertaking(p, uses, i, j);
    }
  }

  lemma {:induction false} NotFiled(p: Policy, uses: seq<Use>, u: Use, n: nat)
    requires n <= |uses| && forall k :: 0 <= k < n && SameKey(uses[k], u) ==> !Passes(p, uses[k])
    ensures CallOf(p, u).key !in Filed(p, uses[..n])
    decreases n
  {
    if n > 0 {
      NotFiled(p, uses, u, n - 1);
      assert uses[..n] == uses[..n - 1] + [uses[n - 1]];
      FiledAfter(p, uses[..n - 1], uses[n - 1]);
      hide Passes, Filed;
    }
  }

  /** Authentication in terms of the assertion: what is authenticated meets what is asked of it, and the first use of an
      identifier that does is authenticated. */
  lemma AuthenticatedMeans(p: Policy, uses: seq<Use>, i: nat)
    requires i < |uses|
    ensures Authenticated(p, uses, i) ==> Meets(p, uses[i])
    ensures (forall k :: 0 <= k < i && SameKey(uses[k], uses[i]) ==> !Meets(p, uses[k])) ==>
              (Authenticated(p, uses, i) <==> Meets(p, uses[i]))
  {
    forall k | 0 <= k <= i ensures Passes(p, uses[k]) <==> Meets(p, uses[k]) { PassesMeans(p, uses[k]); }
    hide Passes, Calls, After;
    if (forall k :: 0 <= k < i && SameKey(uses[k], uses[i]) ==> !Meets(p, uses[k])) {
      NotFiled(p, uses, uses[i], i);
    }
  }

  // ---- the Platform's replay key ----

  predicate Free(s: string) { '\0' !in s }

  function ReplayKey(serviceDid: string, op: string, agentDid: string, jti: string): string {
    serviceDid + "\0" + op + "\0" + agentDid + "\0" + jti
  }

  lemma SplitsAtFirst(a: string, x: string, b: string, y: string)
    requires Free(a) && Free(b) && a + "\0" + x == b + "\0" + y
    ensures a == b && x == y
  {
    var s, t := a + "\0" + x, b + "\0" + y;
    assert forall k :: 0 <= k < |a| ==> s[k] == a[k];
    assert forall k :: 0 <= k < |b| ==> t[k] == b[k];
    assert s[|a|] == '\0' && t[|b|] == '\0';
    assert |a| == |b|;
    assert s[..|a|] == a && t[..|b|] == b && s[|a| + 1..] == x && t[|b| + 1..] == y;
  }

  /** Distinct assertions get distinct keys as long as only the assertion identifier, which an Agent
      chooses, may contain a NUL. */
  lemma ReplayKeyIsInjective(s: string, o: string, a: string, j: string, s': string, o': string, a': string, j': string)
    requires Free(s) && Free(o) && Free(a) && Free(s') && Free(o') && Free(a')
    requires ReplayKey(s, o, a, j) == ReplayKey(s', o', a', j')
    ensures s == s' && o == o' && a == a' && j == j'
  {
    var r, r' := a + "\0" + j, a' + "\0" + j';
    var q, q' := o + "\0" + r, o' + "\0" + r';
    assert ReplayKey(s, o, a, j) == s + "\0" + q && ReplayKey(s', o', a', j') == s' + "\0" + q';
    SplitsAtFirst(s, q, s', q');
    SplitsAtFirst(o, r, o', r');
    SplitsAtFirst(a, j, a', j');
  }
}
