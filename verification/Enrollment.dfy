/** What Enroll does to an enrollment record, what Grant asks of it, and how the two meet: over any
    series of updates, acknowledging a document is exactly what stops Grant from asking for it. */
module Enrollment {
  import opened Prelude

  type Claims = map<string, string>

  datatype ServiceDocument = ServiceDocument(id: string, required: bool)

  datatype AdvertisedClaims = AdvertisedClaims(required: seq<string>, preferred: seq<string>, optional: seq<string>)

  /** What the Service advertises; `acceptsDocuments` is the Service Documents extension. */
  datatype Inspect = Inspect(documents: seq<ServiceDocument>, claims: Option<AdvertisedClaims>, acceptsDocuments: bool)
  {
    function RequiredClaims(): seq<string> { if claims.Some? then claims.value.required else [] }
    predicate Advertises(name: string) {
      claims.Some? && (name in claims.value.required || name in claims.value.preferred || name in claims.value.optional)
    }
    predicate Knows(id: string) { exists i :: 0 <= i < |documents| && documents[i].id == id }
  }

  datatype Status = Active | Pending | Rejected | Suspended | Terminated | Unavailable

  datatype Record = Record(
    agentDid: string, enrollmentId: string, createdAt: int, since: int, status: Status,
    claims: Option<Claims>, acknowledged: seq<string>, required: seq<string>,
    ownerAction: bool, requirementsPending: seq<string>, verificationPending: seq<string>, updatedAt: int)

  datatype Request = Request(agentDid: string, claims: Option<Claims>, acknowledged: Option<seq<string>>)

  datatype DecisionStatus = Activate | Postpone | Reject

  datatype Decision = Decision(
    status: DecisionStatus, ownerAction: Option<bool>, requirementsPending: Option<seq<string>>,
    verificationPending: Option<seq<string>>, updateExisting: bool)

  // ---- the pieces of Service.enroll ----

  /** Without the extension a declaration is dropped from the request. */
  function Effective(inspect: Inspect, request: Request): Request {
    if inspect.acceptsDocuments then request else request.(acknowledged := None)
  }

  function Without(ids: seq<string>, gone: seq<string>): seq<string> {
    if ids == [] then []
    else (if ids[0] in gone then [] else [ids[0]]) + Without(ids[1..], gone)
  }

  /** _missing_document_ids: required documents that are not acknowledged or must be acknowledged anew. */
  function MissingIds(documents: seq<ServiceDocument>, record: Option<Record>): seq<string> {
    if documents == [] then []
    else
      var d := documents[0];
      var missing := d.required && (record.None? || d.id !in record.value.acknowledged
                                    || d.id in record.value.required);
      (if missing then [d.id] else []) + MissingIds(documents[1..], record)
  }

  /** The declared ids that are known and new, in the order declared. */
  function Fresh(inspect: Inspect, existing: seq<string>, declared: seq<string>): seq<string> {
    if declared == [] then []
    else (if inspect.Knows(declared[0]) && declared[0] !in existing then [declared[0]] else [])
         + Fresh(inspect, existing, declared[1..])
  }

  /** _accepted_document_ids */
  function Accepted(inspect: Inspect, existing: seq<string>, declared: Option<seq<string>>): seq<string> {
    existing + Fresh(inspect, existing, declared.GetOr([]))
  }

  function AcceptedClaims(inspect: Inspect, claims: Option<Claims>): Option<Claims> {
    if claims.None? then None
    else Some(map name | name in claims.value && inspect.Advertises(name) :: claims.value[name])
  }

  /** The stored claims with the supplied ones over them. */
  function Merged(inspect: Inspect, request: Request, existing: Record): Claims {
    existing.claims.GetOr(map[]) + AcceptedClaims(inspect, request.claims).GetOr(map[])
  }

  function ClaimNames(claims: Option<Claims>): set<string> {
    if claims.None? then {} else claims.value.Keys
  }

  function MissingClaims(required: seq<string>, supplied: set<string>): seq<string> {
    if required == [] then []
    else (if required[0] in supplied then [] else [required[0]]) + MissingClaims(required[1..], supplied)
  }

  function StatusOf(decision: DecisionStatus): Status {
    match decision case Activate => Active case Postpone => Pending case Reject => Rejected
  }

  /** What a request without an enrollment lacks: claims, then documents. */
  function Lacking(inspect: Inspect, request: Request): (seq<string>, seq<string>) {
    (MissingClaims(inspect.RequiredClaims(), ClaimNames(request.claims)),
     if request.acknowledged.None? then MissingIds(inspect.documents, None) else [])
  }

  /** The record the enrollment factory builds. */
  function Created(inspect: Inspect, request: Request, decision: Decision, now: int, id: string): Record {
    Record(request.agentDid, id, now, now, StatusOf(decision.status), AcceptedClaims(inspect, request.claims),
           if decision.status.Reject? then [] else Accepted(inspect, [], request.acknowledged), [],
           decision.ownerAction == Some(true), decision.requirementsPending.GetOr([]),
           decision.verificationPending.GetOr([]), now)
  }

  datatype UpdateOutcome =
    | Failed | Unchanged | Unmet(claims: seq<string>, documents: seq<string>) | Accept(record: Record)

  /** _update_enrollment up to its save. */
  function Update(inspect: Inspect, request: Request, existing: Record, decision: Decision, now: int): UpdateOutcome {
    if decision.status.Reject? then Failed
    else if !decision.updateExisting then Unchanged
    else
      var merged := Merged(inspect, request, existing);
      var claims := MissingClaims(inspect.RequiredClaims(), merged.Keys);
      var documents := if request.acknowledged.None? then MissingIds(inspect.documents, Some(existing)) else [];
      if claims != [] || documents != [] then Unmet(claims, documents)
      else
        Accept(existing.(
             claims := Some(merged),
             acknowledged := Accepted(inspect, existing.acknowledged, request.acknowledged),
             required := Without(existing.required, request.acknowledged.GetOr([])),
             ownerAction := decision.ownerAction.GetOr(existing.ownerAction),
             requirementsPending := decision.requirementsPending.GetOr(existing.requirementsPending),
             verificationPending := decision.verificationPending.GetOr(existing.verificationPending),
             updatedAt := now))
  }

  predicate SameIdentity(r: Record, q: Record) {
    && r.agentDid == q.agentDid && r.enrollmentId == q.enrollmentId
    && r.createdAt == q.createdAt && r.since == q.since && r.status == q.status
  }

  predicate CoversRequired(inspect: Inspect, r: Record) {
    MissingClaims(inspect.RequiredClaims(), ClaimNames(r.claims)) == []
  }

  // ---- documents ----

  lemma {:induction false} WithoutMembers(ids: seq<string>, gone: seq<string>, id: string)
    ensures id in Without(ids, gone) <==> id in ids && id !in gone
  {
    if ids != [] { WithoutMembers(ids[1..], gone, id); }
  }

  lemma {:induction false} FreshMembers(inspect: Inspect, existing: seq<string>, declared: seq<string>, id: string)
    ensures id in Fresh(inspect, existing, declared) <==> id in declared && inspect.Knows(id) && id !in existing
  {
    if declared != [] { FreshMembers(inspect, existing, declared[1..], id); }
  }

  predicate Distinct(ids: seq<string>) {
    forall i, j :: 0 <= i < j < |ids| ==> ids[i] != ids[j]
  }

  lemma {:induction false} FreshIsDistinct(inspect: Inspect, existing: seq<string>, declared: seq<string>)
    requires Distinct(declared)
    ensures Distinct(Fresh(inspect, existing, declared))
  {
    if declared != [] {
      assert Distinct(declared[1..]);
      FreshIsDistinct(inspect, existing, declared[1..]);
      FreshMembers(inspect, existing, declared[1..], declared[0]);
    }
  }

  /** Acknowledged ids only grow, never repeat, and are the old ones and the declared ones that are known. */
  lemma AcknowledgementsGrow(inspect: Inspect, existing: seq<string>, declared: Option<seq<string>>)
    requires Distinct(existing) && Distinct(declared.GetOr([]))
    ensures var all := Accepted(inspect, existing, declared);
            && existing <= all && Distinct(all)
            && forall id :: id in all <==> id in existing || (id in declared.GetOr([]) && inspect.Knows(id))
  {
    var added := Fresh(inspect, existing, declared.GetOr([]));
    FreshIsDistinct(inspect, existing, declared.GetOr([]));
    forall id ensures id in added <==> id in declared.GetOr([]) && inspect.Knows(id) && id !in existing {
      FreshMembers(inspect, existing, declared.GetOr([]), id);
    }
    assert forall i :: 0 <= i < |added| ==> added[i] in added;
  }

  lemma {:induction false} MissingAfterDeclaring(inspect: Inspect, documents: seq<ServiceDocument>, before: Record,
                                                 after: Record, declared: seq<string>)
    requires forall i :: 0 <= i < |documents| ==> inspect.Knows(documents[i].id)
    requires after.acknowledged == Accepted(inspect, before.acknowledged, Some(declared))
    requires after.required == Without(before.required, declared)
    ensures MissingIds(documents, Some(after)) == Without(MissingIds(documents, Some(before)), declared)
  {
    if documents != [] {
      MissingAfterDeclaring(inspect, documents[1..], before, after, declared);
      var id := documents[0].id;
      assert inspect.Knows(id);
      FreshMembers(inspect, before.acknowledged, declared, id);
      WithoutMembers(before.required, declared, id);
      var rest := MissingIds(documents[1..], Some(before));
      assert ([id] + rest)[1..] == rest && [] + rest == rest;
    }
  }

  lemma {:induction false} WithoutNothing(ids: seq<string>)
    ensures Without(ids, []) == ids
  {
    if ids != [] { WithoutNothing(ids[1..]); }
  }

  lemma {:induction false} WithoutTwice(ids: seq<string>, a: seq<string>, b: seq<string>)
    ensures Without(Without(ids, a), b) == Without(ids, a + b)
  {
    if ids != [] {
      WithoutTwice(ids[1..], a, b);
      var rest := Without(ids[1..], a);
      assert ([ids[0]] + rest)[1..] == rest && [] + rest == rest;
    }
  }

  /** After an accepted update the missing documents are the old ones without the declared ids, in order. */
  lemma UpdateClearsDeclared(inspect: Inspect, request: Request, existing: Record, decision: Decision, now: int)
    requires Update(inspect, request, existing, decision, now).Accept?
    ensures var updated := Update(inspect, request, existing, decision, now).record;
            MissingIds(inspect.documents, Some(updated)) ==
            Without(MissingIds(inspect.documents, Some(existing)), request.acknowledged.GetOr([]))
  {
    var updated := Update(inspect, request, existing, decision, now).record;
    forall i | 0 <= i < |inspect.documents| ensures inspect.Knows(inspect.documents[i].id) {}
    MissingAfterDeclaring(inspect, inspect.documents, existing, updated, request.acknowledged.GetOr([]));
  }

  // ---- claims ----

  lemma {:induction false} MissingClaimsMembers(required: seq<string>, supplied: set<string>, name: string)
    ensures name in MissingClaims(required, supplied) <==> name in required && name !in supplied
  {
    if required != [] { MissingClaimsMembers(required[1..], supplied, name); }
  }

  lemma NoneMissing(required: seq<string>, supplied: set<string>)
    ensures MissingClaims(required, supplied) == [] <==> forall name :: name in required ==> name in supplied
  {
    forall name ensures name in MissingClaims(required, supplied) <==> name in required && name !in supplied {
      MissingClaimsMembers(required, supplied, name);
    }
    var missing := MissingClaims(required, supplied);
    if missing != [] { assert missing[0] in missing; }
  }

  /** A stored record covers the required claims, whether just created or updated. */
  lemma StoredRecordsCoverRequired(inspect: Inspect, request: Request, decision: Decision, now: int, id: string,
                                   existing: Record)
    ensures Lacking(inspect, request).0 == [] ==> CoversRequired(inspect, Created(inspect, request, decision, now, id))
    ensures Update(inspect, request, existing, decision, now).Accept? ==>
              CoversRequired(inspect, Update(inspect, request, existing, decision, now).record)
              && SameIdentity(existing, Update(inspect, request, existing, decision, now).record)
  {
    NoneMissing(inspect.RequiredClaims(), ClaimNames(request.claims));
    NoneMissing(inspect.RequiredClaims(), ClaimNames(AcceptedClaims(inspect, request.claims)));
  }

  /** What an accepted update leaves in the record. */
  lemma AcceptedUpdate(inspect: Inspect, request: Request, existing: Record, decision: Decision, now: int)
    requires Update(inspect, request, existing, decision, now).Accept?
    ensures var updated := Update(inspect, request, existing, decision, now).record;
            && SameIdentity(existing, updated) && CoversRequired(inspect, updated)
            && updated.acknowledged == Accepted(inspect, existing.acknowledged, request.acknowledged)
            && updated.claims == Some(Merged(inspect, request, existing))
  {
    hide Accepted, Merged, MissingIds, Without;
  }

  // ---- the Grant gate ----

  datatype GrantVerdict = NotRecognized | UnsupportedGrantType | Lifecycle(status: Status)
    | Requirements(claims: seq<string>, documents: seq<string>) | Open

  /** The checks of Service.grant before it calls the grant type's handler. */
  function Gate(inspect: Inspect, grantTypes: set<string>, record: Option<Record>, grantType: string): GrantVerdict {
    if record.None? then NotRecognized
    else if grantType !in grantTypes then UnsupportedGrantType
    else if !record.value.status.Active? then Lifecycle(record.value.status)
    else
      var claims := MissingClaims(inspect.RequiredClaims(), ClaimNames(record.value.claims));
      var documents := MissingIds(inspect.documents, record);
      if claims != [] || documents != [] then Requirements(claims, documents) else Open
  }

  /** The Agent must still acknowledge the document: it is required, and was not acknowledged or is required anew. */
  predicate Owed(inspect: Inspect, record: Option<Record>, id: string) {
    exists i :: 0 <= i < |inspect.documents| && inspect.documents[i].id == id && inspect.documents[i].required
      && (record.None? || id !in record.value.acknowledged || id in record.value.required)
  }

  predicate Has(claims: Option<Claims>, name: string) { claims.Some? && name in claims.value }

  predicate Requires(inspect: Inspect, name: string) { inspect.claims.Some? && name in inspect.claims.value.required }

  lemma {:induction false} MissingIdsMembers(documents: seq<ServiceDocument>, record: Option<Record>, id: string)
    ensures id in MissingIds(documents, record) <==>
            exists i :: 0 <= i < |documents| && documents[i].id == id && documents[i].required
              && (record.None? || id !in record.value.acknowledged || id in record.value.required)
  {
    if documents != [] {
      MissingIdsMembers(documents[1..], record, id);
      assert forall i :: 0 < i < |documents| ==> documents[i] == documents[1..][i - 1];
      assert forall i :: 0 <= i < |documents| - 1 ==> documents[1..][i] == documents[i + 1];
    }
  }

  lemma MissingIdsAreOwed(inspect: Inspect, record: Option<Record>)
    ensures forall id :: id in MissingIds(inspect.documents, record) <==> Owed(inspect, record, id)
    ensures MissingIds(inspect.documents, record) == [] <==> forall id :: !Owed(inspect, record, id)
  {
    forall id ensures id in MissingIds(inspect.documents, record) <==> Owed(inspect, record, id) {
      MissingIdsMembers(inspect.documents, record, id);
    }
    var missing := MissingIds(inspect.documents, record);
    if missing != [] { assert missing[0] in missing; }
  }

  lemma MissingClaimsAreRequired(inspect: Inspect, supplied: set<string>)
    ensures var missing := MissingClaims(inspect.RequiredClaims(), supplied);
            && (forall name :: name in missing <==> Requires(inspect, name) && name !in supplied)
            && (missing == [] <==> forall name :: Requires(inspect, name) ==> name in supplied)
  {
    forall name ensures name in MissingClaims(inspect.RequiredClaims(), supplied) <==>
                        Requires(inspect, name) && name !in supplied {
      MissingClaimsMembers(inspect.RequiredClaims(), supplied, name);
    }
    NoneMissing(inspect.RequiredClaims(), supplied);
  }

  /** Grant opens exactly for an Agent with an active enrollment that holds every required claim and owes no
      document, and for a known grant type; each refusal has its own condition, and the last names what is missing. */
  lemma GateMeans(inspect: Inspect, grantTypes: set<string>, record: Option<Record>, grantType: string)
    ensures var verdict := Gate(inspect, grantTypes, record, grantType);
            && (verdict == Open <==>
                  && record.Some? && record.value.status == Active && grantType in grantTypes
                  && (forall name :: Requires(inspect, name) ==> Has(record.value.claims, name))
                  && (forall id :: !Owed(inspect, record, id)))
            && (verdict == NotRecognized <==> record.None?)
            && (verdict == UnsupportedGrantType <==> record.Some? && grantType !in grantTypes)
            && (verdict.Lifecycle? ==> record.Some? && grantType in grantTypes && verdict.status == record.value.status)
            && (record.Some? && grantType in grantTypes ==> (verdict.Lifecycle? <==> record.value.status != Active))
            && (verdict.Requirements? ==>
                  && (forall name :: name in verdict.claims <==>
                        Requires(inspect, name) && !Has(record.value.claims, name))
                  && (forall id :: id in verdict.documents <==> Owed(inspect, record, id)))
  {
    MissingIdsAreOwed(inspect, record);
    if record.Some? { MissingClaimsAreRequired(inspect, ClaimNames(record.value.claims)); }
    hide Owed, MissingIds, MissingClaims;
  }

  /** What a request without an enrollment is asked for: the required claims it does not supply, and, unless it
      declares acknowledgements, every required document. */
  lemma LackingMeans(inspect: Inspect, request: Request)
    ensures var (claims, documents) := Lacking(inspect, request);
            && (forall name :: name in claims <==> Requires(inspect, name) && !Has(request.claims, name))
            && (forall id :: id in documents <==> request.acknowledged.None? && Owed(inspect, None, id))
  {
    MissingIdsAreOwed(inspect, None);
    MissingClaimsAreRequired(inspect, ClaimNames(request.claims));
  }

  /** A policy that rejects stores no acknowledgement; otherwise a new record acknowledges the declared documents
      that are known. It holds the supplied claims that are advertised, as supplied. */
  lemma CreatedMeans(inspect: Inspect, request: Request, decision: Decision, now: int, id: string)
    ensures var r := Created(inspect, request, decision, now, id);
            && r.agentDid == request.agentDid && r.enrollmentId == id && r.createdAt == r.since == r.updatedAt == now
            && (r.status == Active <==> decision.status == Activate)
            && (r.status == Pending <==> decision.status == Postpone)
            && (r.status == Rejected <==> decision.status == Reject)
            && (forall d :: d in r.acknowledged <==>
                  decision.status != Reject && d in request.acknowledged.GetOr([]) && inspect.Knows(d))
            && r.required == []
            && (forall name :: Has(r.claims, name) <==> Has(request.claims, name) && inspect.Advertises(name))
            && (forall name :: Has(r.claims, name) ==> r.claims.value[name] == request.claims.value[name])
  {
    forall d ensures d in Fresh(inspect, [], request.acknowledged.GetOr([])) <==>
                     d in request.acknowledged.GetOr([]) && inspect.Knows(d) {
      FreshMembers(inspect, [], request.acknowledged.GetOr([]), d);
    }
  }

  /** The name of a required claim that is neither stored nor supplied. */
  predicate Lacks(inspect: Inspect, request: Request, existing: Record, name: string) {
    Requires(inspect, name) && !Has(existing.claims, name) && !Has(request.claims, name)
  }

  /** An update fails exactly when the policy rejects, changes nothing exactly when it forbids updates, and is sent
      back exactly when a required claim is neither stored nor supplied, or a document is owed and nothing is
      declared. */
  lemma UpdateMeans(inspect: Inspect, request: Request, existing: Record, decision: Decision, now: int)
    ensures var outcome := Update(inspect, request, existing, decision, now);
            && (outcome.Failed? <==> decision.status == Reject)
            && (outcome.Unchanged? <==> decision.status != Reject && !decision.updateExisting)
            && (outcome.Unmet? <==>
                  && decision.status != Reject && decision.updateExisting
                  && ((exists name :: Lacks(inspect, request, existing, name))
                      || (request.acknowledged.None? && exists id :: Owed(inspect, Some(existing), id))))
            && (outcome.Unmet? ==>
                  && (forall name :: name in outcome.claims <==> Lacks(inspect, request, existing, name))
                  && (forall id :: id in outcome.documents <==>
                        request.acknowledged.None? && Owed(inspect, Some(existing), id)))
  {
    var merged := Merged(inspect, request, existing).Keys;
    forall name ensures Requires(inspect, name) && name !in merged <==> Lacks(inspect, request, existing, name) {
      assert Requires(inspect, name) ==> inspect.Advertises(name);
    }
    MissingIdsAreOwed(inspect, Some(existing));
    MissingClaimsAreRequired(inspect, merged);
    hide Owed, MissingIds, MissingClaims, Merged, Accepted, Without, Requires, Lacks;
  }

  /** What an accepted update stores beside acknowledgements: the claims supplied and advertised over the stored ones,
      and what the policy decides over what it leaves open. */
  lemma AcceptMeans(inspect: Inspect, request: Request, existing: Record, decision: Decision, now: int, name: string)
    requires Update(inspect, request, existing, decision, now).Accept?
    ensures var r := Update(inspect, request, existing, decision, now).record;
            var supplied := Has(request.claims, name) && inspect.Advertises(name);
            && (Has(r.claims, name) <==> supplied || Has(existing.claims, name))
            && (supplied ==> r.claims.value[name] == request.claims.value[name])
            && (!supplied && Has(existing.claims, name) ==> r.claims.value[name] == existing.claims.value[name])
            && r.updatedAt == now
            && (decision.ownerAction == None ==> r.ownerAction == existing.ownerAction)
            && (decision.ownerAction.Some? ==> r.ownerAction == decision.ownerAction.value)
            && (decision.requirementsPending == None ==> r.requirementsPending == existing.requirementsPending)
            && (decision.requirementsPending.Some? ==> r.requirementsPending == decision.requirementsPending.value)
            && (decision.verificationPending == None ==> r.verificationPending == existing.verificationPending)
            && (decision.verificationPending.Some? ==> r.verificationPending == decision.verificationPending.value)
  {
    hide Accepted, MissingIds, Without, MissingClaims;
  }

  datatype Attempt = Attempt(request: Request, decision: Decision, now: int)

  function Enroll(inspect: Inspect, record: Record, a: Attempt): Record {
    var outcome := Update(inspect, Effective(inspect, a.request), record, a.decision, a.now);
    if outcome.Accept? then outcome.record else record
  }

  /** The record after repeated Enroll commands, one after another. */
  function Enrolled(inspect: Inspect, record: Record, attempts: seq<Attempt>): Record
    decreases |attempts|
  {
    if attempts == [] then record else Enrolled(inspect, Enroll(inspect, record, attempts[0]), attempts[1..])
  }

  /** Everything declared by those attempts that were accepted. */
  function Declared(inspect: Inspect, record: Record, attempts: seq<Attempt>): seq<string>
    decreases |attempts|
  {
    if attempts == [] then []
    else
      var request := Effective(inspect, attempts[0].request);
      (if Update(inspect, request, record, attempts[0].decision, attempts[0].now).Accept?
       then request.acknowledged.GetOr([]) else [])
      + Declared(inspect, Enroll(inspect, record, attempts[0]), attempts[1..])
  }

  /** The advertised claim names supplied by those attempts. */
  function Supplied(inspect: Inspect, record: Record, attempts: seq<Attempt>): set<string>
    decreases |attempts|
  {
    if attempts == [] then {}
    else
      var request := Effective(inspect, attempts[0].request);
      (if Update(inspect, request, record, attempts[0].decision, attempts[0].now).Accept?
       then ClaimNames(AcceptedClaims(inspect, request.claims)) else {})
      + Supplied(inspect, Enroll(inspect, record, attempts[0]), attempts[1..])
  }

  lemma {:induction false} SeriesClearsDeclared(inspect: Inspect, record: Record, attempts: seq<Attempt>)
    ensures var z := Enrolled(inspect, record, attempts);
            && SameIdentity(record, z)
            && ClaimNames(z.claims) == ClaimNames(record.claims) + Supplied(inspect, record, attempts)
            && MissingIds(inspect.documents, Some(z)) ==
               Without(MissingIds(inspect.documents, Some(record)), Declared(inspect, record, attempts))
    decreases |attempts|
  {
    var missing := MissingIds(inspect.documents, Some(record));
    if attempts == [] {
      WithoutNothing(missing);
    } else {
      var a, rest := attempts[0], attempts[1..];
      var request, next := Effective(inspect, a.request), Enroll(inspect, record, a);
      SeriesClearsDeclared(inspect, next, rest);
      if Update(inspect, request, record, a.decision, a.now).Accept? {
        UpdateClearsDeclared(inspect, request, record, a.decision, a.now);
        WithoutTwice(missing, request.acknowledged.GetOr([]), Declared(inspect, next, rest));
      } else {
        assert [] + Declared(inspect, next, rest) == Declared(inspect, next, rest);
      }
    }
  }

  /** A Service without the documents extension never records an acknowledgement, whatever is declared. */
  lemma {:induction false} NoExtensionNoAcknowledgement(inspect: Inspect, record: Record, attempts: seq<Attempt>)
    requires !inspect.acceptsDocuments
    ensures Enrolled(inspect, record, attempts).acknowledged == record.acknowledged
    ensures Declared(inspect, record, attempts) == []
    decreases |attempts|
  {
    if attempts != [] {
      hide Merged, MissingIds, MissingClaims;
      NoExtensionNoAcknowledgement(inspect, Enroll(inspect, record, attempts[0]), attempts[1..]);
    }
  }

  /** With the extension a request is taken as it is. */
  lemma DeclarationsCount(inspect: Inspect, request: Request)
    ensures Effective(inspect, request) == request <==> inspect.acceptsDocuments || request.acknowledged == None
    ensures Effective(inspect, request).claims == request.claims
            && Effective(inspect, request).agentDid == request.agentDid
  {
  }

  lemma {:induction false} WithoutIsEmpty(ids: seq<string>, gone: seq<string>)
    ensures Without(ids, gone) == [] <==> forall id :: id in ids ==> id in gone
  {
    if ids != [] { WithoutIsEmpty(ids[1..], gone); assert ids[0] in ids; }
  }

  /** Over any series of updates Grant opens iff the enrollment is active, the grant type is known, and
      the accepted updates together declared every missing document and supplied every missing claim. */
  lemma GateOpensOnTheUnion(inspect: Inspect, grantTypes: set<string>, record: Record, attempts: seq<Attempt>,
                            grantType: string)
    ensures Gate(inspect, grantTypes, Some(Enrolled(inspect, record, attempts)), grantType) == Open <==>
            && record.status.Active? && grantType in grantTypes
            && (forall id :: Owed(inspect, Some(record), id) ==> id in Declared(inspect, record, attempts))
            && (forall name :: Requires(inspect, name) ==>
                  Has(record.claims, name) || name in Supplied(inspect, record, attempts))
  {
    MissingIdsAreOwed(inspect, Some(record));
    SeriesClearsDeclared(inspect, record, attempts);
    WithoutIsEmpty(MissingIds(inspect.documents, Some(record)), Declared(inspect, record, attempts));
    NoneMissing(inspect.RequiredClaims(), ClaimNames(Enrolled(inspect, record, attempts).claims));
  }
}
