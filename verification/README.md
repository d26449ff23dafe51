# Verification of the Agent Enrollment Protocol

A Dafny model of the protocol state machines of the Agent, the Service and the Platform, of the in-memory stores
under them, and of the printers and parsers they use to talk to each other, with proofs of what they promise.

| file | what it models |
|---|---|
| `SingleFlight.dfy` | the claim, wait and wake protocol shared by the four stores that run a factory once per key |
| `Idempotency.dfy` | the idempotency stores of the Service and the Platform |
| `IdentityStore.dfy` | the Platform's identity store with its three indexes |
| `Enrollment.dfy`, `EnrollmentRuns.dfy` | Enroll and the Grant gate, one command at a time and interleaved |
| `Replay.dfy`, `AssertionRuns.dfy` | the replay stores, the assertion checks in front of them, and authentication attempts interleaved |
| `ProtectedResource.dfy` | the protected-resource fetch loop against an arbitrary server |
| `InspectCache.dfy`, `InspectRuns.dfy` | Inspect with redirects, conditional requests and a cache; sessions interleaved on it |
| `DidWeb.dfy` | Agent DIDs, their document URLs and the URL template check |
| `Challenge.dfy`, `Authorization.dfy` | the challenge and authorization fields, printed and parsed |
| `OpenApi.dfy` | path template matching |
| `Credentials.dfy` | the Service's credential store |
| `Bounds.dfy` | two bounded traversals |
| `Prelude.dfy`, `Text.dfy`, `Urls.dfy` | options and results, string operations, URLs and origins |

**Concurrency.** A system state holds any number of tasks; a step is one block under the lock or one scheduling point.
A theorem about every sequence of enabled steps from an initial state is a theorem about every interleaving. The
classes hold the same blocks as methods on the real dictionaries, and the step functions of the system modules are the
functions and conditions their contracts name. Time is an integer that never decreases where a theorem says so, and
hashes and digests are injective.

**The adversarial server.** `ProtectedResource.Fetch` and `InspectCache.Inspect` take everything outside the program as
functions that may answer anything at every moment, and return the trace of what they did. `Safe` says of every event
of a trace what it promises given the events before it; `Due` says what comes next, so that no other trace is allowed.

**Results that qualify what one might expect.**

- Concurrent updates of one enrollment can lose acknowledgements and claims; which interleavings do is proved exactly, with
  a concrete run.
- One-time use of assertions is not guaranteed by a clock that never runs backwards: an attempt reads the clock before
  it awaits the verifier, so attempts that overlap can reach the replay store out of order. The exact condition, a
  concrete run, and one-time use for attempts that consume in the order of their clock reads are proved.
- The Platform's check of its URL template on one sample does not by itself cover other identifiers; the exact
  condition, a simple sufficient one and a concrete exception are proved.
- White space between a Cache-Control name and its equals sign makes it another name, so the directive is not seen.
- Methods that Inspect lists during discovery are not tried after a challenge unless Inspect still lists them then.
- Credentials with a comma cannot travel in the dedicated authorization field, although the Agent renders them there.
- A challenge whose DID or Inspect URL holds a quote or a backslash is not read back, because the printer does not
  escape them.
- A call that took its snapshot of the credentials before a revocation still succeeds after it, as is shown; the theorem
  on revocation is about snapshots taken later.

## Model

| member | source | states |
|---|---|---|
| SingleFlight.PendingMeansOneOwner | src/agent_enrollment_protocol/service/stores.py:49-72 | In every reachable state of every interleaving a key is pending if and only if some task owns it; then exactly one does, and it holds the very event stored under the key, so at most one factory or operation runs per key. |
| SingleFlight.ReleaseFindsItsEvent | src/agent_enrollment_protocol/service/stores.py:70-72 | The `finally` block always finds its key pending and sets exactly the event its own waiters wait for, although publishing and releasing are separate steps. |
| SingleFlight.WaiterHasLiveOwner | src/agent_enrollment_protocol/platform/stores.py:53-69 | A task blocked on an unset event has a live owner whose own remaining steps, at most two, set that event, whether the operation returned or raised. |
| SingleFlight.NeverStuck | src/agent_enrollment_protocol/platform/stores.py:39-69 | While any call is unfinished, it or an owner it waits for can take a step. |
| SingleFlight.EveryCallCompletes | src/agent_enrollment_protocol/service/stores.py:93-126 | With n calls no interleaving has more than 4n(n+1) steps, and one that cannot be extended has finished every call: no starvation, no stranded waiter. |
| Idempotency.MemoryIdempotencyStore.Enter | src/agent_enrollment_protocol/service/stores.py:90-118 | The first locked block, in the fields of the request: refuse an empty field, purge records older than an hour, then under (owner, key) replay for the same command and hash, conflict for another, wait, or claim with a fresh event; nothing else changes. |
| Idempotency.MemoryIdempotencyStore.Release | src/agent_enrollment_protocol/service/stores.py:124-126 | Removes the slot's event from the pending ones and sets it. |
| Idempotency.MemoryIdempotencyStore.Execute | src/agent_enrollment_protocol/platform/stores.py:128-167 | A call that is not interrupted, in the fields of the request: replay or conflict from a retained record of the same owner and key, wait for the event of the call that owns them, CREATED stores the response, a raising operation leaves no record; the pending events end as they began. |
| Idempotency.RunIsSequential | src/agent_enrollment_protocol/service/stores.py:87-126 | Every interleaving answers like a sequential idempotency map: the log of decided calls is a sequential history in which every decided call appears once with the outcome it returned. |
| Idempotency.LogGrows | src/agent_enrollment_protocol/service/stores.py:87-126 | The history only grows, so it respects the order of calls that do not overlap. |
| Idempotency.NeverStuck | src/agent_enrollment_protocol/platform/stores.py:134-167 | In every reachable state with an unfinished call, something other than the clock can move. |
| Idempotency.EveryCallCompletes | src/agent_enrollment_protocol/service/stores.py:93-126 | Among n calls no interleaving takes more than 4n(n+1) + n moves of calls, however the clock ticks in between, and one in which only the clock can move has decided every call. |
| Idempotency.AnswersComeFromLatest | src/agent_enrollment_protocol/service/stores.py:95-107 | A replay returns the response of the latest CREATED call of the same owner under the same key, which had the same command and hash; a conflict had another command or another hash; both only within the hour. |
| Idempotency.AnswersMean | src/agent_enrollment_protocol/service/stores.py:95-123 | What every call of a history is answered with, both ways: its operation ran if and only if no successful run with the same owner and key precedes it within the hour; otherwise it is a replay if command and hash are equal and a conflict if not. |
| Idempotency.EnterMeans | src/agent_enrollment_protocol/service/stores.py:93-118 | In every interleaving an entering call runs its operation if and only if no such run precedes it and no call of the same owner under the same key is under way; it waits if and only if one is; calls of other owners never make it wait, replay or conflict. |
| Idempotency.WaitsForItsOwn | src/agent_enrollment_protocol/service/stores.py:114-118 | In every interleaving the owner of the event a call waits for is a call of the same owner under the same key. |
| Idempotency.RefusedIff | src/agent_enrollment_protocol/service/stores.py:90-91 | In every interleaving a call is refused if and only if its owner, command, key or hash is empty. |
| Idempotency.CreationsAreAnHourApart | src/agent_enrollment_protocol/service/stores.py:95-101 | Two successful runs in one slot of a sequential history are more than one hour apart. |
| Idempotency.RunsNeverRepeatAnOperation | src/agent_enrollment_protocol/service/service.py:643-664 | In every interleaving, under a nondecreasing clock shared with created_at, two successful runs for one owner under one key are more than an hour apart. |
| IdentityStore.MemoryIdentityStore.Enter | src/agent_enrollment_protocol/platform/stores.py:33-49 | The first locked block: refuse empty input, return the scope's identity, wait, or claim the scope with a fresh event. |
| IdentityStore.MemoryIdentityStore.Insert | src/agent_enrollment_protocol/platform/stores.py:50-66 | Files a record in all four dictionaries exactly when it is well formed, is for the scope and repeats no identifier, DID or DID identifier; a rejected creation leaves the whole store as it was; the indexes stay in agreement. |
| IdentityStore.MemoryIdentityStore.Release | src/agent_enrollment_protocol/platform/stores.py:67-69 | Removes the scope's event and sets it. |
| IdentityStore.MemoryIdentityStore.FindByAgentDid | src/agent_enrollment_protocol/platform/stores.py:71-74 | Looking up an Agent DID answers like a scan of the records. |
| IdentityStore.MemoryIdentityStore.FindByAgentDidId | src/agent_enrollment_protocol/platform/stores.py:76-79 | Looking up an Agent DID identifier answers like a scan of the records. |
| IdentityStore.MemoryIdentityStore.UpdateStatus | src/agent_enrollment_protocol/platform/stores.py:104-118 | Gives that record the status and update time and leaves its other fields, every other record and the indexes as they were. |
| IdentityStore.LookupsAreScans | src/agent_enrollment_protocol/platform/stores.py:24-118 | Each of the three indexes finds a record if and only if it is on file, and no two records share an Agent DID, an Agent DID identifier or a (principal, Service DID) scope. |
| IdentityStore.OneIdentityPerScope | src/agent_enrollment_protocol/platform/stores.py:33-118 | Over any interleaving of creations, lookups and status updates the indexes agree with the records, no identity is lost or altered, and all calls for one scope that were given an identity were given the same one. |
| IdentityStore.EveryCallCompletes | src/agent_enrollment_protocol/platform/stores.py:33-69 | Among n calls no interleaving takes more than 4n(n+1) moves of calls, however many status updates come between, and one in which no call can move has answered every call. |
| Enrollment.AcknowledgementsGrow | src/agent_enrollment_protocol/service/service.py:338-357 | Accepted document ids only grow, never repeat, and are the old ones together with the declared ones that are known. |
| Enrollment.UpdateClearsDeclared | src/agent_enrollment_protocol/service/service.py:306-317 | After an accepted update the missing document ids are the old missing ids with the declared ones filtered out, in order. |
| Enrollment.StoredRecordsCoverRequired | src/agent_enrollment_protocol/service/service.py:279-336 | A created or updated record covers every required claim, and an update keeps DID, enrollment id, created_at, since and status. |
| Enrollment.NoneMissing | src/agent_enrollment_protocol/core/claims.py:34-38 | No required claim is reported missing if and only if every required name is supplied. |
| Enrollment.GateOpensOnTheUnion | src/agent_enrollment_protocol/service/service.py:387-401 | Over any series of updates Grant opens if and only if the enrollment is active, the grant type is known, and the accepted updates together declared every owed document and supplied every missing required claim. |
| Enrollment.GateMeans | src/agent_enrollment_protocol/service/service.py:387-401 | For any stored record or none: Grant opens if and only if there is an active enrollment, the grant type is known, every required claim is stored and no document is owed; each of the four refusals has its own condition, and the last names exactly what is missing. |
| Enrollment.UpdateMeans | src/agent_enrollment_protocol/service/service.py:282-305 | An update fails if and only if the policy rejects, changes nothing if and only if the policy forbids updates, and is sent back if and only if a required claim is neither stored nor supplied or a document is owed and nothing declared; what is sent back is exactly what is missing. |
| Enrollment.CreatedMeans | src/agent_enrollment_protocol/service/service.py:241-266 | The status of a new enrollment is the one decided; a rejected one acknowledges nothing, any other exactly the declared documents that are known; its claims are the supplied ones that are advertised. |
| Enrollment.NoExtensionNoAcknowledgement | src/agent_enrollment_protocol/service/service.py:211-226 | Over any series of updates a Service without the documents extension records no acknowledgement, whatever is declared. |
| EnrollmentRuns.MemoryEnrollmentStore.Enter | src/agent_enrollment_protocol/service/stores.py:52-62 | The first locked block of find_or_create: existing record, wait, or claim with a fresh event. |
| EnrollmentRuns.MemoryEnrollmentStore.Insert | src/agent_enrollment_protocol/service/stores.py:63-69 | Files the factory's record exactly when it is for this Agent DID. |
| EnrollmentRuns.MemoryEnrollmentStore.Release | src/agent_enrollment_protocol/service/stores.py:70-72 | Removes the Agent DID's event and sets it. |
| EnrollmentRuns.EnrolledOnce | src/agent_enrollment_protocol/service/service.py:227-268 | Over any interleaving of Enroll commands each Agent DID is enrolled at most once and never over an existing record; enrollment id, created_at, since and status never change; every successful answer agrees with the stored record on them. |
| EnrollmentRuns.GateOpensIff | src/agent_enrollment_protocol/service/service.py:387-401 | In every reachable state Grant opens for an Agent DID if and only if an active enrollment is stored for it, the grant type is known and no document is owed; no required claim is ever missing from what Enroll stored. |
| EnrollmentRuns.StatusWasDecided | src/agent_enrollment_protocol/service/service.py:241-268 | An enrollment that a run begins has to the end the status the policy decided at its creation, so an Agent that was not enrolled before finds the gate open only if the policy activated it. |
| EnrollmentRuns.AnswersMean | src/agent_enrollment_protocol/service/service.py:227-305 | What a command answers when it reads the enrollment, and when the policy decides an update: a problem if and only if something is missing or the policy rejects, the stored record if and only if it forbids updates. |
| EnrollmentRuns.EveryCommandCompletes | src/agent_enrollment_protocol/service/service.py:227-268 | Among n Enroll commands no interleaving has more than 4n(n+1) + 3n moves, and one that cannot be extended has answered every command, whatever the policy decides and whichever factories raise. |
| EnrollmentRuns.LostIff | src/agent_enrollment_protocol/service/service.py:279-336 | For an update that reads the enrollment and saves it with any moves in between: an acknowledgement stored by then is lost if and only if the last save of the same enrollment in between stored it, the command had not found it, and does not declare it; a claim the command does not supply changes if and only if that save left it other than the command had found it. |
| EnrollmentRuns.UndisturbedSaveLosesNothing | src/agent_enrollment_protocol/service/service.py:279-336 | When no other command saves the enrollment between the read and the save, every stored acknowledgement and claim name survives. |
| EnrollmentRuns.SecondSaveWins | src/agent_enrollment_protocol/service/service.py:279-336 | Two updates that both read before either saves both succeed, and the stored record is the second one's merge of the common snapshot. |
| EnrollmentRuns.ConcurrentUpdatesLoseAcknowledgements | src/agent_enrollment_protocol/service/service.py:279-336 | A concrete run of two commands, both answered with success, after which the first acknowledgement is gone. |
| Replay.MemoryReplayStore.Consume | src/agent_enrollment_protocol/service/stores.py:27-36 | Purges expired records, then raises for an invalid record, refuses a used identifier, or stores it. |
| Replay.PlatformReplayStore.Consume | src/agent_enrollment_protocol/platform/stores.py:175-183 | The same on one key, refusing an expired identifier instead of raising. |
| Replay.KeptUntilClockReached | src/agent_enrollment_protocol/service/stores.py:27-36 | An accepted identifier stays on file exactly until the clock of some later call reaches its expiry. |
| Replay.AcceptedAgainIff | src/agent_enrollment_protocol/service/stores.py:27-36 | An identifier is accepted again if and only if the new expiry lies ahead of the call's clock and some clock since the last acceptance had reached the old expiry. |
| Replay.AcceptedOnce | src/agent_enrollment_protocol/platform/stores.py:175-183 | With nondecreasing times at the store the same identifier and expiry is accepted at most once. |
| Replay.AuthenticatedAgainIff | src/agent_enrollment_protocol/service/service.py:547-583 | For uses in the order in which they reach the store, each with the clock it read before verification: after the last acceptance of its identifier an assertion is authenticated again if and only if it passes the checks of Replay.PassesMeans at its own clock read and some use since then reached the store with a clock read at or past exp plus tolerance. |
| Replay.ReplayNeedsOvertaking | src/agent_enrollment_protocol/service/service.py:547-583 | An assertion is authenticated twice only if a use in between read the clock later than the second one, past the filed expiry, and reached the store before it. |
| Replay.AssertionAcceptedOnce | src/agent_enrollment_protocol/service/service.py:547-626 | When uses reach the store in the order of their clock reads, no assertion is authenticated twice, for whatever operation and whatever comes in between: the record is kept until exp plus tolerance, which outlives the window the checks accept. |
| Replay.ConsumeNeverRaises | src/agent_enrollment_protocol/service/service.py:573-583 | After validation the store's invalid-record error cannot occur, and the filing period equals the acceptance window. |
| Replay.PassesMeans | src/agent_enrollment_protocol/service/service.py:585-626 | The checks pass if and only if the assertion is meant for this Service, operation and resource, is issued by its own subject, signed under a key of that subject with an accepted algorithm, of an accepted DID method, short enough, and in its window at the clock read; key identifier and method are read off the text. |
| Replay.AuthenticatedMeans | src/agent_enrollment_protocol/service/service.py:547-583 | Whatever is authenticated meets all of that, and the first use of an identifier that meets it is authenticated. |
| Replay.ReplayKeyIsInjective | src/agent_enrollment_protocol/platform/platform.py:455-464 | The Platform's replay keys differ for different assertions as long as only the assertion identifier may contain a NUL. |
| AssertionRuns.RunIsHistory | src/agent_enrollment_protocol/service/service.py:553-583 | In every interleaving of attempts that read the clock, await the verifier and then consume, every attempt that reached the store got the verdict of the history of uses in the order of their consumption, and every accepted attempt is in that history. |
| AssertionRuns.AcceptedAgainIff | src/agent_enrollment_protocol/service/service.py:553-583 | The exact condition for a second authentication, for every interleaving under a clock that never runs backwards. |
| AssertionRuns.ReplayNeedsOverlap | src/agent_enrollment_protocol/service/service.py:553-583 | One assertion gets through twice only if a third attempt begins after the second one has read the clock, reads a time past the filed expiry, and consumes before it. |
| AssertionRuns.InOrderAcceptedOnce | src/agent_enrollment_protocol/service/service.py:553-583 | In interleavings whose attempts consume in the order of their clock reads, no two attempts get the same assertion through. |
| AssertionRuns.AcceptedMeans | src/agent_enrollment_protocol/service/service.py:547-626 | In every interleaving an attempt that gets through presented an assertion whose audience, operation, resource, issuer, key, algorithm, DID method, lifetime and window are all as asked, at a clock read of that very attempt. |
| AssertionRuns.FirstUseAccepted | src/agent_enrollment_protocol/service/service.py:547-626 | In every interleaving the first attempt with an identifier to meet all that gets through, and one that does not meet it does not. |
| AssertionRuns.OverlappingUsesReplay | src/agent_enrollment_protocol/service/service.py:553-583 | A concrete run whose clock never runs backwards in which one assertion is authenticated twice, because verifying its second use outlasts the use of another assertion. |
| ProtectedResource.AuthenticatedHeaders | src/agent_enrollment_protocol/agent/protected_resource.py:287-302 | The loop that overlays the additional headers computes the specified combination, or reports a conflict. |
| ProtectedResource.CombinedMeans | src/agent_enrollment_protocol/agent/protected_resource.py:283-302 | What an authenticated request carries, header by header: the presentation unchanged; on the initial origin also the last spelling of each additional header and the caller's non-secret headers; elsewhere nothing but the presentation. |
| ProtectedResource.ConflictIff | src/agent_enrollment_protocol/agent/protected_resource.py:293-295 | An additional header is refused exactly when it is AEP-Authorization or has the name of a presented header, in any case. |
| ProtectedResource.Discover | src/agent_enrollment_protocol/agent/protected_resource.py:114-123 | Discovery sends nothing to the resource, yields methods only while OpenAPI is in use, and only those the document offers. |
| ProtectedResource.Probe | src/agent_enrollment_protocol/agent/protected_resource.py:124-169 | One anonymous request, and what it comes to: its answer without a challenge, a redirect to follow, the answer after a confirmed challenge when no method is left, or the methods to try. |
| ProtectedResource.Confirm | src/agent_enrollment_protocol/agent/protected_resource.py:143-163 | A challenge is believed only when its Inspect URL is valid and on the target's origin and Inspect reports the same Service DID; then the methods of the OpenAPI document, or else those Inspect lists, are tried, and the challenge is returned if and only if there are none. |
| ProtectedResource.Present | src/agent_enrollment_protocol/agent/protected_resource.py:170-190 | A presentation is made for exactly the target with the permitted methods; a Grant is requested at most once, never with a chosen credential, only by a permitted method. |
| ProtectedResource.Authenticate | src/agent_enrollment_protocol/agent/protected_resource.py:191-200 | One authenticated request carrying the presentation just made for that URL. |
| ProtectedResource.TakeTurn | src/agent_enrollment_protocol/agent/protected_resource.py:113-210 | One turn of the loop keeps the trace safe, sends at most two requests, and at most one when it ends with the policy refuted by a challenge before any crossing. |
| ProtectedResource.Fetch | src/agent_enrollment_protocol/agent/protected_resource.py:102-210 | For every behaviour of the server every event of the trace is the one due at that point and the result the one due at its end; the trace is safe; the loop terminates by (max_redirects + 1 - redirects, use_openapi); at most 4(max_redirects + 1) requests; every beginning of the trace that has not left the initial origin has at most three requests for each redirect met and three before the first; a successful result answers the last request, is no redirect, is within the size limit and may be returned in the sense of ReturnsFor; a failure is shown by the last events. |
| ProtectedResource.RunIsDetermined | src/agent_enrollment_protocol/agent/protected_resource.py:102-210 | What is due after each trace leaves exactly one run: for every behaviour of the server a single trace follows the rules to the end, with a single result. |
| ProtectedResource.ReturnsFor | src/agent_enrollment_protocol/agent/protected_resource.py:124-206 | An answer is returned for one of three reasons: it answers a presentation, and is no challenge if the turn relied on the OpenAPI document; it answers an anonymous request without a challenge; or it is a challenge that Inspect has just confirmed and neither the document nor that Inspect lists a method. So no confirmed challenge with a usable method goes unanswered, and a refuted policy is always retried. |
| ProtectedResource.PolicyMeans | src/agent_enrollment_protocol/agent/protected_resource.py:112-123 | The methods a turn takes from the OpenAPI document are those of its first usable reading since the last answer that ended a turn; reading it again changes nothing. |
| ProtectedResource.EarlierListingDoesNotCount | src/agent_enrollment_protocol/agent/protected_resource.py:148-163 | A concrete family of runs in which Inspect listed a method during discovery and no longer does after the challenge: the challenge is returned. |
| ProtectedResource.OnlyRedirectsMove | src/agent_enrollment_protocol/agent/protected_resource.py:241-258 | The URL changes only by following the sole, nonempty, fragment-free Location field of a redirect to a valid URL that keeps https. |
| ProtectedResource.OnlyValidUrls | src/agent_enrollment_protocol/agent/protected_resource.py:220-238 | Every request goes to a URL over https, or http to the loopback interface where allowed, without user information, fragment or white space. |
| ProtectedResource.FirstGrantMeans | src/agent_enrollment_protocol/agent/protected_resource.py:186 | The method of the Grant the Agent asks for by itself is the first listed one that is not aep-jwt, and there is none only if all are. |
| ProtectedResource.NothingLeaks | src/agent_enrollment_protocol/agent/protected_resource.py:283-302 | Off the initial origin a request carries nothing of the caller's; on it an anonymous request carries exactly the caller's headers that are not secret; every authenticated request uses the presentation requested for exactly its URL just before; an https start never reaches http. |
| ProtectedResource.NoAuthenticationUnchallenged | src/agent_enrollment_protocol/agent/protected_resource.py:126-149 | Once any request has gone to another origin, every authenticated request is preceded at the same URL by an anonymous challenge whose Inspect origin and Service DID were checked. |
| Challenge.ReadChallenge | src/agent_enrollment_protocol/agent/protected_resource.py:261-280 | The parsing loop terminates on every field value and computes the specified reading. |
| Challenge.ParserMeetsGrammar | src/agent_enrollment_protocol/agent/protected_resource.py:266-278 | On every text the parameters are read if and only if the text is blank or a comma-separated list of well-formed quoted parameters with distinct names, and then they are exactly those. |
| Challenge.ReadMeetsGrammar | src/agent_enrollment_protocol/agent/protected_resource.py:261-280 | A challenge is found if and only if the status is 401, the scheme is AEP in any case, and what follows is a list of distinct well-formed quoted parameters with non-empty service_did and inspect; these two are reported. |
| Challenge.ParserInvertsPrinter | src/agent_enrollment_protocol/service/service.py:686-700 | The Agent recovers the DID and Inspect URL the Service printed if and only if both are non-empty and free of quotes and backslashes. |
| InspectCache.HasDirective | src/agent_enrollment_protocol/agent/client.py:963-968 | A directive is found if and only if the text says it: between commas or ends, after white space, the name in any case, followed by white space or an equals sign. |
| InspectCache.FreshCache | src/agent_enrollment_protocol/agent/transport.py:61-93 | An entry is fresh exactly from its request until one fixed moment, computed from Date, Age, the last max-age the text says, and Expires; an unreadable value, or no-cache or no-store said anywhere in the text, makes it stale; hence staleness is permanent until the next save (sections 4.2 and 5.2.2 of RFC 9111). |
| InspectCache.SaysMeans | src/agent_enrollment_protocol/agent/client.py:963-968 | Splitting at commas, stripping and partitioning at the equals sign find a directive exactly where the text says it. |
| InspectCache.DirectiveMeans | src/agent_enrollment_protocol/agent/transport.py:70-73 | The value read for a directive is what follows the equals sign of its last occurrence in the text, without the quotes around it and the white space after it. |
| InspectCache.Accept | src/agent_enrollment_protocol/agent/client.py:236-286 | The exact conditions under which a final response is refused; an accepted entry's document is bound to the final URL's origin even on 304, where only the origin of the URL is inherited. |
| InspectCache.Revalidate | src/agent_enrollment_protocol/agent/client.py:210-235 | The redirect loop: between one and six requests, all on the Inspect URL's origin and over https where it is, each following the last redirect and carrying the cached validators. |
| InspectCache.Inspect | src/agent_enrollment_protocol/agent/client.py:182-288 | An uninterrupted call: every Inspection returned has a document whose Service DID stands for the Service origin; no request is sent exactly when a usable entry is still fresh; the last response determines what is returned and stored; nothing whose Cache-Control text says no-store is ever stored; a failure only drops an unusable entry; a sound cache stays sound. |
| InspectCache.ValidatorsComeBack | src/agent_enrollment_protocol/agent/client.py:195-288 | What one call stores is what the next one asks with: the validators the response stated or, on 304, those of the entry it confirmed; Age and Date come from that response alone. |
| InspectRuns.EveryInspectionIsBound | src/agent_enrollment_protocol/agent/client.py:182-288 | However sessions that share the cache interleave, each writing from its own snapshot, and whatever the cache held at first, every Inspection returned is bound to the origin of its own session. |
| InspectRuns.CacheStaysSound | src/agent_enrollment_protocol/agent/client.py:182-288 | However such sessions interleave, a cache of usable entries that were allowed to be stored stays one. |
| DidWeb.QuoteRoundTrip | src/agent_enrollment_protocol/platform/document.py:172-173 | Percent-decoding undoes the encoding of every octet string, and the encoding consists of safe characters and whole escapes (section 2.1 of RFC 3986). |
| DidWeb.CreateAgentDid | src/agent_enrollment_protocol/platform/document.py:30-49 | The loop that collects components builds the specified identifier. |
| DidWeb.SegmentsMean | src/agent_enrollment_protocol/platform/document.py:40-47 | The path parts of an Agent DID are the nonempty, slash-free parts the prefix is made of, in order, however many slashes stand around and between them. |
| DidWeb.QuoteLeavesIff | src/agent_enrollment_protocol/platform/document.py:172-173 | A component is encoded as itself if and only if all its characters are unreserved or sub-delimiters (sections 2.2 and 2.3 of RFC 3986). |
| DidWeb.AgentDidRoundTrip | src/agent_enrollment_protocol/core/did_web.py:45-82 | Taking an Agent DID apart returns the host decoded and the path parts still encoded, and succeeds if and only if the host can be resolved and no part would act as a path of its own. |
| DidWeb.DocumentUrlOf | src/agent_enrollment_protocol/core/did_web.py:13-17 | The document URL of an Agent DID is the host, the encoded prefix, the encoded identifier and did.json. |
| DidWeb.DocumentPathIsPlain | src/agent_enrollment_protocol/core/did_web.py:61-82 | Whatever the identifier, its document URL is on a visible host and no part of its path, decoded, is empty, a dot segment, or holds a slash, backslash, question mark or hash. |
| DidWeb.TemplateCheckGeneralises | src/agent_enrollment_protocol/platform/platform.py:104-112 | When the constructor's one-sample check passes, the template gives the document URL for every admissible identifier if and only if its placeholder stands where the identifier belongs. |
| DidWeb.TemplateCheckSuffices | src/agent_enrollment_protocol/platform/platform.py:104-112 | It is enough that the sample occurs only once in its document URL. |
| DidWeb.SampleCheckIsNotEnough | src/agent_enrollment_protocol/platform/platform.py:104-112 | A concrete template and host that pass the check although the template is wrong for other identifiers. |
| DidWeb.RenderedUrlIsHttps | src/agent_enrollment_protocol/platform/document.py:130-145 | The document URL of an accepted host passes the absolute-HTTPS check on rendered templates, whatever the identifier. |
| Text.SplitUndoesJoin | src/agent_enrollment_protocol/platform/document.py:49 | Splitting undoes joining when no part contains the separator. |
| OpenApi.SegmentMatchesItsFillings | src/agent_enrollment_protocol/core/openapi.py:158-172 | A segment matches a template if and only if it is some filling of its expressions by non-empty strings free of slash, question mark and hash; a template with a stray brace matches nothing; only an equal literal scores 1. |
| OpenApi.PiecesMean | src/agent_enrollment_protocol/core/openapi.py:158-171 | A template segment is read as a sequence of characters and expressions if and only if it is spelled so: each expression a brace pair around a nonempty name without braces, and no other braces. |
| OpenApi.TrailingSlashMatters | src/agent_enrollment_protocol/core/openapi.py:149-155 | A path is taken apart into the parts between its slashes; a trailing slash is one more, empty part, and makes no difference when trailing slashes are equivalent. |
| OpenApi.ScoreTemplate | src/agent_enrollment_protocol/core/openapi.py:93-105 | The inner loop computes the score of every segment, or none as soon as one does not match. |
| OpenApi.MatchOpenApiPath | src/agent_enrollment_protocol/core/openapi.py:82-110 | Returns the one template with the lexicographically greatest score; fails for an invalid target, when nothing matches, and when the greatest score is shared (including a template listed twice). |
| OpenApi.AnswerIgnoresOrder | src/agent_enrollment_protocol/core/openapi.py:82-110 | The answer is determined by the multiset of templates: reordering them never changes it. |
| OpenApi.ConcreteTemplateWins | src/agent_enrollment_protocol/core/openapi.py:93-110 | A concrete template equal to the path wins over every templated one (section 4.8.8.2 of OpenAPI 3.1.0). |
| Authorization.ParserMeetsGrammar | src/agent_enrollment_protocol/core/http.py:107-124 | A field value is recognized if and only if it is a scheme in any case, blanks, visible credentials and optional blanks, and, on the dedicated field, has no comma. |
| Authorization.RenderRoundTrip | src/agent_enrollment_protocol/core/http.py:92-124 | Whatever is rendered is read back with the same carrier, scheme and credentials, except that credentials with a comma are refused on the dedicated field. |
| Authorization.SelectionIsUnambiguous | src/agent_enrollment_protocol/service/service.py:876-901 | A selection is beyond doubt only with at most one presentation in both fields and then selects it; for zero and for one presentation the exact condition is given. |
| Authorization.DedicatedIsSelectedBack | src/agent_enrollment_protocol/service/service.py:881-890 | A credential rendered in the dedicated field without a comma is selected back beside any unrecognized Authorization values. |
| Authorization.StandardIsSelectedBack | src/agent_enrollment_protocol/service/service.py:894-901 | In the Authorization field it is selected back if and only if it is alone there. |
| Credentials.MemoryServiceCredentialStore.SaveCredential | src/agent_enrollment_protocol/service/credentials.py:179-199 | Stores a credential exactly when it is valid, its identifier is new and no stored record has its grant type, header, user name and secret; keeps the store free of clashes. |
| Credentials.MemoryServiceCredentialStore.AuthenticateCredential | src/agent_enrollment_protocol/service/credentials.py:201-239 | Returns who the one live record is for that the request's only presentation is for, with its credential identifier, grant type, expiry and scopes, or nothing when there is none. |
| Credentials.MemoryServiceCredentialStore.RevokeCredential | src/agent_enrollment_protocol/service/credentials.py:248-258 | Revokes the record with that identifier if Agent DID and grant type match, and changes nothing else. |
| Credentials.MemoryServiceCredentialStore.RevokeGrantType | src/agent_enrollment_protocol/service/credentials.py:260-267 | Revokes every record of the Agent and grant type, and changes nothing else. |
| Credentials.MatchSnapshot | src/agent_enrollment_protocol/service/credentials.py:204-239 | The search over the snapshot visits the records in any order and still has one possible result. |
| Credentials.Presentations | src/agent_enrollment_protocol/service/credentials.py:320-345 | A request makes exactly one presentation if and only if the collected list has exactly one element. |
| Credentials.AtMostOneMatch | src/agent_enrollment_protocol/service/credentials.py:218-239 | A request authenticates at most one record. |
| Credentials.SavedAuthenticatesAsItself | src/agent_enrollment_protocol/service/credentials.py:201-239 | A saved credential presented alone authenticates as itself if and only if it is neither revoked nor expired; the Basic user name is recovered from the encoded user-pass (section 2 of RFC 7617). |
| Credentials.OnlyItsSecretAuthenticates | src/agent_enrollment_protocol/service/credentials.py:201-239 | A saved credential is authenticated by a request if and only if the one presentation of its grant type is its own secret, in the header of an API key, while it is neither revoked nor expired. |
| Credentials.SentIsPresented | src/agent_enrollment_protocol/agent/client.py:854-876 | The header the Agent builds for a stored credential, put among any headers that present nothing else and normalized by the Service, makes exactly the presentation of that credential, on either carrier; only credentials with a comma are lost in the dedicated field. |
| Credentials.NormalizeHeaders | src/agent_enrollment_protocol/service/service.py:867-873 | The loop gathers, for every lower-case name, the values of all headers so named, in order. |
| Credentials.RecordsStay | src/agent_enrollment_protocol/service/credentials.py:179-267 | Over any sequence of saves and revocations a record never changes but for its revocation, which is never taken back. |
| Credentials.RunKeepsValid | src/agent_enrollment_protocol/service/credentials.py:179-267 | No sequence of saves and revocations makes two records answer to one presentation. |
| Credentials.RevokedNeverAuthenticates | src/agent_enrollment_protocol/service/credentials.py:248-267 | A saved credential stays what it was and authenticates no request whose snapshot is taken after a revocation of it, whatever happens before and after. |
| Credentials.SnapshotOutlivesRevocation | src/agent_enrollment_protocol/service/credentials.py:204-239 | A snapshot taken before a revocation still authenticates the credential that the store no longer accepts. |
| Credentials.LateRevocationIsMissed | src/agent_enrollment_protocol/service/credentials.py:204-239 | A concrete credential, request and revocation of that kind. |
| Bounds.ValidateBounds | src/agent_enrollment_protocol/core/models.py:398-409 | The traversal with an explicit stack accepts a document if and only if it has at most 1024 blocks in all and no section is nested inside eight others; it terminates by the total size of the pending blocks. |
| Bounds.WithinStructure | src/agent_enrollment_protocol/service/service.py:829-851 | With a shared counter and early exits the check succeeds if and only if every container is within the depth limit, every key and string within the length limit, everything is JSON, and the counter plus all object members stays within the limit. |
| Bounds.ClaimsWithinLimits | src/agent_enrollment_protocol/service/service.py:819-826 | The whole claims check, from a fresh counter: no claims, or the encoded size, the shape and the number of members all within their limits. |
| Bounds.ReorderingDoesNotMatter | src/agent_enrollment_protocol/service/service.py:829-851 | The verdict on a value is the same for every value that differs from it in the order of members of objects at any depth. |

## Left out

- A second cancellation that arrives inside a `finally` block, and asyncio's scheduling beyond which step comes next.
- EnrollmentRuns: Enroll without its event emission, problem bodies and HTTP status codes; only which record is created, saved and answered.
- IdentityStore: `get` and the paged `list`, which only read.
- Replay.ConsumeNeverRaises: takes the signature as verified and the resource URI normalization as an arbitrary partial function.
- ProtectedResource.Fetch: how the OpenAPI document is fetched and reduced to methods is one arbitrary answer, as is what the Agent's session returns for Inspect, Grant and presentations; the timeout and cancellation around the loop are left out.
- ProtectedResource.Discover: exceptions are grouped into those the discovery block swallows and those it lets through.
- InspectCache.Inspect: does not re-parse a cached document, which is taken to reproduce it.
- Credentials.SentIsPresented: the credential is already parsed; the Agent's check that its stored metadata matches the payload is left out.
- InspectCache.FreshCache: times are whole microseconds and delta-seconds unbounded integers, so the rounding and overflow of floating-point seconds are not modelled.
- Urls: `urlsplit` and `urljoin` are represented by their results; text is taken apart only where a property is about text.
- DidWeb.QuoteRoundTrip: works on octets, so decoding of malformed UTF-8 is not modelled; templates that start with blanks or control characters, which `urlsplit` removes, are taken as not absolute.
- DidWeb.DocumentUrlOf: the insecure loopback variant is left out, as the constructor never uses it.
- Challenge.ParserMeetsGrammar: characters outside ASCII that regular expressions equate with letters when ignoring case, and case folding outside ASCII in all text operations.
- Authorization.ParserMeetsGrammar: field values are taken to hold at most one octet per character, so the two non-ASCII characters that match letters of a scheme name when ignoring case do not occur.
- OpenApi.MatchOpenApiPath: the method is folded to upper case for ASCII letters only; resolving security requirements is a filter on whole requirement objects and would only add easy members.
- Credentials: scrypt, SHA-256 and base64 internals; a digest is an injective constructor and base64 an encode and decode pair that round-trips.
- Bounds.ClaimsWithinLimits: the length of the compact JSON text of the claims is an arbitrary function of the value.
- AssertionRuns: attempts of the Platform's hosted verification, which takes its time from the request or reads the clock again just before consuming.
- Pydantic field validation, email, phone and date syntax, the JSON parser, HTTP, TLS, streaming and ASGI plumbing.
- JOSE signatures and key handling.
- Discovery of a Platform by the Agent, which repeats the redirect loop of Inspect with a weaker invariant.
- Examples, conformance and interoperability scripts, and stores and policies supplied by applications.
