/** The Platform's in-memory identity store: one dictionary of records with three indexes into it, and
    single-flight creation per (principal, Service DID).

    Main result: in every interleaving the indexes stay injective and answer like a linear scan of the
    records, and all the calls for one scope are given one identity. */
module IdentityStore {
  import opened Prelude
  import opened SingleFlight

  type Scope = (string, string)

  datatype Status = Active | Revoked | Suspended | Terminated

  datatype Record = Record(
    agentDid: string, agentDidId: string, identityId: string, documentUrl: string, keyId: string,
    principal: string, serviceDid: string, algorithms: seq<string>,
    createdAt: int, status: Status, updatedAt: int)
  {
    /** validate_identity_record */
    predicate WellFormed() {
      && agentDid != "" && agentDidId != "" && identityId != "" && documentUrl != "" && keyId != ""
      && principal != "" && serviceDid != "" && algorithms != [] && keyId == agentDid
    }

    /** What a lifecycle update may not touch. */
    function Identity(): Record { this.(status := Active, updatedAt := 0) }
  }

  datatype Store = Store(
    records: map<string, Record>, byDid: map<string, string>, byDidId: map<string, string>, byScope: map<Scope, string>)

  /** A creation is admitted only if the record is well formed, belongs to the scope it was asked for,
      and none of its identifiers is in use. */
  predicate Admits(s: Store, scope: Scope, r: Record) {
    && r.agentDid != "" && r.agentDidId != "" && r.identityId != "" && r.documentUrl != "" && r.keyId == r.agentDid
    && r.principal != "" && r.serviceDid != "" && |r.algorithms| > 0 && (r.principal, r.serviceDid) == scope
    && r.identityId !in s.records && r.agentDid !in s.byDid && r.agentDidId !in s.byDidId
  }

  function Inserted(s: Store, scope: Scope, r: Record): Store {
    Store(s.records[r.identityId := r], s.byDid[r.agentDid := r.identityId],
          s.byDidId[r.agentDidId := r.identityId], s.byScope[scope := r.identityId])
  }

  function Updated(s: Store, id: string, status: Status, at: int): Store {
    if id in s.records then s.(records := s.records[id := s.records[id].(status := status, updatedAt := at)]) else s
  }

  function Fetch<K(==)>(index: map<K, string>, records: map<string, Record>, key: K): Option<Record> {
    if key in index && index[key] in records then Some(records[index[key]]) else None
  }

  /** Every record is filed under its own identifiers, and the indexes hold nothing else. */
  ghost predicate Agree(s: Store) {
    && (forall id :: id in s.records ==>
         var r := s.records[id];
         && r.identityId == id
         && r.agentDid in s.byDid && s.byDid[r.agentDid] == id
         && r.agentDidId in s.byDidId && s.byDidId[r.agentDidId] == id
         && (r.principal, r.serviceDid) in s.byScope && s.byScope[(r.principal, r.serviceDid)] == id)
    && (forall d :: d in s.byDid ==> s.byDid[d] in s.records && s.records[s.byDid[d]].agentDid == d)
    && (forall d :: d in s.byDidId ==> s.byDidId[d] in s.records && s.records[s.byDidId[d]].agentDidId == d)
    && (forall c :: c in s.byScope ==>
          && s.byScope[c] in s.records
          && c == (s.records[s.byScope[c]].principal, s.records[s.byScope[c]].serviceDid))
  }

  datatype Entry = Refused | Found(record: Record) | Blocked(event: Event) | Claimed(event: Event)

  class MemoryIdentityStore {
    var records: map<string, Record>
    var byDid: map<string, string>
    var byDidId: map<string, string>
    var byScope: map<Scope, string>
    var pending: map<Scope, Event>

    ghost function View(): Store
      reads this
    {
      Store(records, byDid, byDidId, byScope)
    }

    constructor ()
      ensures View() == Store(map[], map[], map[], map[]) && pending == map[] && Agree(View())
    {
      records, byDid, byDidId, byScope, pending := map[], map[], map[], map[], map[];
    }

    /** The first block under the lock. */
    method Enter(principal: string, serviceDid: string) returns (entry: Entry)
      requires Agree(View())
      modifies this`pending
      ensures var scope := (principal, serviceDid);
              if principal == "" || serviceDid == "" then entry == Refused && pending == old(pending)
              else if scope in byScope then
                entry.Found? && Some(entry.record) == Fetch(byScope, records, scope) && pending == old(pending)
              else if scope in old(pending) then entry == Blocked(old(pending)[scope]) && pending == old(pending)
              else
                && entry.Claimed? && fresh(entry.event) && !entry.event.isSet
                && pending == old(pending)[scope := entry.event]
    {
      if principal == "" || serviceDid == "" {
        return Refused;
      }
      var scope := (principal, serviceDid);
      if scope in byScope {
        return Found(records[byScope[scope]]);
      }
      if scope in pending {
        return Blocked(pending[scope]);
      }
      var event := new Event();
      pending := pending[scope := event];
      return Claimed(event);
    }

    /** The check of the factory's record and the block that files it; the caller has claimed the scope. */
    method Insert(scope: Scope, record: Record) returns (admitted: bool)
      requires Agree(View()) && scope !in byScope
      modifies this`records, this`byDid, this`byDidId, this`byScope
      ensures Agree(View())
      ensures admitted <==> Admits(old(View()), scope, record)
      ensures View() == if admitted then Inserted(old(View()), scope, record) else old(View())
    {
      if !record.WellFormed() || record.principal != scope.0 || record.serviceDid != scope.1 {
        return false;
      }
      if record.identityId in records || record.agentDid in byDid || record.agentDidId in byDidId {
        return false;
      }
      InsertKeepsAgree(View(), scope, record);
      records := records[record.identityId := record];
      byDid := byDid[record.agentDid := record.identityId];
      byDidId := byDidId[record.agentDidId := record.identityId];
      byScope := byScope[scope := record.identityId];
      return true;
    }

    /** The block in `finally`. */
    method Release(scope: Scope)
      requires scope in pending
      modifies this`pending, pending[scope]
      ensures pending == old(pending) - {scope} && old(pending)[scope].isSet
    {
      var event := pending[scope];
      pending := pending - {scope};
      event.Set();
    }

    method FindByAgentDid(agentDid: string) returns (found: Option<Record>)
      requires Agree(View())
      ensures found.Some? ==> found.value in records.Values && found.value.agentDid == agentDid
      ensures found.None? ==> forall id :: id in records ==> records[id].agentDid != agentDid
    {
      found := if agentDid in byDid then Some(records[byDid[agentDid]]) else None;
    }

    method FindByAgentDidId(agentDidId: string) returns (found: Option<Record>)
      requires Agree(View())
      ensures found.Some? ==> found.value in records.Values && found.value.agentDidId == agentDidId
      ensures found.None? ==> forall id :: id in records ==> records[id].agentDidId != agentDidId
    {
      found := if agentDidId in byDidId then Some(records[byDidId[agentDidId]]) else None;
    }

    method UpdateStatus(id: string, status: Status, at: int) returns (updated: Option<Record>)
      requires Agree(View())
      modifies this`records
      ensures Agree(View()) && View() == Updated(old(View()), id, status, at)
      ensures updated == if id in records then Some(records[id]) else None
      ensures records.Keys == old(records.Keys)
      ensures forall other :: other in records && other != id ==> records[other] == old(records[other])
      ensures id in records ==>
                && records[id].status == status && records[id].updatedAt == at
                && records[id].Identity() == old(records[id].Identity())
    {
      if id !in records {
        return None;
      }
      UpdateKeepsAgree(View(), id, status, at);
      records := records[id := records[id].(status := status, updatedAt := at)];
      return Some(records[id]);
    }
  }

  // ---- the indexes ----

  lemma InsertKeepsAgree(s: Store, scope: Scope, r: Record)
    requires Agree(s) && Admits(s, scope, r) && scope !in s.byScope
    ensures Agree(Inserted(s, scope, r))
  {
  }

  lemma UpdateKeepsAgree(s: Store, id: string, status: Status, at: int)
    requires Agree(s)
    ensures Agree(Updated(s, id, status, at))
  {
  }

  /** The indexes are injective and answer like a scan of the records: looking a key up finds a record
      iff some record carries the key, and then it is the only one. */
  lemma LookupsAreScans(s: Store, r: Record)
    requires Agree(s)
    ensures Fetch(s.byDid, s.records, r.agentDid) == Some(r) <==> r in s.records.Values
    ensures Fetch(s.byDidId, s.records, r.agentDidId) == Some(r) <==> r in s.records.Values
    ensures Fetch(s.byScope, s.records, (r.principal, r.serviceDid)) == Some(r) <==> r in s.records.Values
    ensures forall q ::
              q in s.records.Values && r in s.records.Values &&
              (q.agentDid == r.agentDid || q.agentDidId == r.agentDidId ||
               (q.principal == r.principal && q.serviceDid == r.serviceDid))
              ==> q == r
  {
    if r in s.records.Values {
      var id :| id in s.records && s.records[id] == r;
    }
  }

  // ---- any number of find_or_create calls and lifecycle updates, interleaved ----

  datatype Result = Given(record: Record) | Failed

  datatype Call = Call(scope: Scope, result: Option<Result>)

  datatype System = System(flight: State<Scope>, store: Store, calls: seq<Call>)

  /** Insert: the factory returned `record`. Raise: the factory raised. Update: update_status. */
  datatype Move =
    | Enter(t: nat)
    | Retry(t: nat)
    | Insert(t: nat, record: Record)
    | Raise(t: nat)
    | Leave(t: nat)
    | Update(id: string, status: Status, at: int)

  predicate Enabled(s: System, move: Move) {
    if move.Update? then true
    else
      && move.t < |s.calls| == |s.flight.tasks|
      && match move
         case Enter(t) => s.flight.tasks[t].Asking?
         case Retry(t) => SingleFlight.Enabled(s.flight, Wake(t))
         case Leave(t) => SingleFlight.Enabled(s.flight, Release(t))
         case _ => s.flight.tasks[move.t].Running?
  }

  function Finish(s: System, t: nat, step: Step, result: Result): System
    requires t < |s.calls| && SingleFlight.Enabled(s.flight, step)
  {
    s.(flight := SingleFlight.Apply(s.flight, step), calls := s.calls[t := s.calls[t].(result := Some(result))])
  }

  function Apply(s: System, move: Move): System
    requires Enabled(s, move)
  {
    match move
    case Enter(t) =>
      var scope, key := s.calls[t].scope, s.flight.tasks[t].key;
      if scope.0 == "" || scope.1 == "" then Finish(s, t, Hit(t), Failed)
      else if scope in s.store.byScope then
        // records[identity_id]: a missing record would raise KeyError
        var found := Fetch(s.store.byScope, s.store.records, scope);
        Finish(s, t, Hit(t), if found.Some? then Given(found.value) else Failed)
      else s.(flight := SingleFlight.Apply(s.flight, if key in s.flight.pending then Join(t) else Claim(t)))
    case Retry(t) => s.(flight := SingleFlight.Apply(s.flight, Wake(t)))
    case Insert(t, record) =>
      if Admits(s.store, s.calls[t].scope, record)
      then Finish(s.(store := Inserted(s.store, s.calls[t].scope, record)), t, Settle(t), Given(record))
      else Finish(s, t, Settle(t), Failed)
    case Raise(t) => Finish(s, t, Settle(t), Failed)
    case Leave(t) => s.(flight := SingleFlight.Apply(s.flight, Release(t)))
    case Update(id, status, at) => s.(store := Updated(s.store, id, status, at))
  }

  /** Calls about to start on a store that is empty or left by earlier calls. */
  ghost predicate Init(s: System) {
    && SingleFlight.Init(s.flight) && |s.calls| == |s.flight.tasks| && Agree(s.store)
    && forall t :: 0 <= t < |s.calls| ==> s.flight.tasks[t].key == s.calls[t].scope && s.calls[t].result.None?
  }

  predicate Runs(s: System, moves: seq<Move>)
    decreases |moves|
  {
    moves == [] || (Enabled(s, moves[0]) && Runs(Apply(s, moves[0]), moves[1..]))
  }

  function After(s: System, moves: seq<Move>): System
    requires Runs(s, moves)
    decreases |moves|
  {
    if moves == [] then s else After(Apply(s, moves[0]), moves[1..])
  }

  predicate CallOk(s: System, t: nat)
    requires t < |s.calls| == |s.flight.tasks|
  {
    var call, pc := s.calls[t], s.flight.tasks[t];
    && (!pc.Done? ==> pc.key == call.scope)
    && (pc.Running? ==> call.scope !in s.store.byScope)
    && (call.result.Some? <==> pc.Settled? || pc.Done?)
    && (call.result.Some? && call.result.value.Given? ==>
         var stored := Fetch(s.store.byScope, s.store.records, call.scope);
         stored.Some? && stored.value.Identity() == call.result.value.record.Identity())
  }

  ghost predicate Inv(s: System) {
    && SingleFlight.Inv(s.flight) && |s.calls| == |s.flight.tasks| && Agree(s.store)
    && forall t :: 0 <= t < |s.calls| ==> CallOk(s, t)
  }

  /** No record goes away, and none changes but in its status and the time of its last update. */
  ghost predicate Extends(s: Store, z: Store) {
    && (forall id :: id in s.records ==> id in z.records && z.records[id].Identity() == s.records[id].Identity())
    && (forall c :: c in s.byScope ==> c in z.byScope && z.byScope[c] == s.byScope[c])
  }

  lemma InsertedExtends(s: Store, scope: Scope, r: Record)
    requires Admits(s, scope, r) && scope !in s.byScope
    ensures Extends(s, Inserted(s, scope, r))
  {
  }

  lemma UpdatedExtends(s: Store, id: string, status: Status, at: int)
    ensures Extends(s, Updated(s, id, status, at))
  {
  }

  lemma MoveExtends(s: System, move: Move)
    requires Inv(s) && Enabled(s, move)
    ensures Extends(s.store, Apply(s, move).store)
  {
    assert move.Insert? ==> CallOk(s, move.t);
    assert move.Insert? ==> s.calls[move.t].scope !in s.store.byScope;
    hide Inv, CallOk, SingleFlight.Enabled, SingleFlight.Inv, SingleFlight.Apply, Inserted, Updated, Admits, Agree,
        Fetch;
    if move.Update? {
      UpdatedExtends(s.store, move.id, move.status, move.at);
    } else if move.Insert? && Admits(s.store, s.calls[move.t].scope, move.record) {
      InsertedExtends(s.store, s.calls[move.t].scope, move.record);
    }
  }

  lemma CallStays(s: System, z: System, t: nat)
    requires t < |s.calls| == |s.flight.tasks| == |z.calls| == |z.flight.tasks| && CallOk(s, t)
    requires Agree(s.store) && Agree(z.store) && Extends(s.store, z.store)
    requires z.calls[t] == s.calls[t] && z.flight.tasks[t] == s.flight.tasks[t]
    requires s.flight.tasks[t].Running? ==> s.calls[t].scope !in z.store.byScope
    ensures CallOk(z, t)
  {
  }

  lemma InsertShape(s: System, t: nat, record: Record)
    requires Inv(s) && Enabled(s, Insert(t, record)) && Admits(s.store, s.calls[t].scope, record)
    ensures var z := Apply(s, Insert(t, record));
            && |z.calls| == |z.flight.tasks| == |s.calls| && SingleFlight.Enabled(s.flight, Settle(t))
            && z.flight == SingleFlight.Apply(s.flight, Settle(t))
               && z.store == Inserted(s.store, s.calls[t].scope, record)
            && s.calls[t].scope !in s.store.byScope
  {
    assert CallOk(s, t);
    hide SingleFlight.Inv, Agree, Admits, Inserted;
  }

  lemma InsertAnswers(s: System, t: nat, record: Record)
    requires Inv(s) && Enabled(s, Insert(t, record)) && Admits(s.store, s.calls[t].scope, record)
    ensures var z := Apply(s, Insert(t, record));
            |z.calls| == |z.flight.tasks| && t < |z.calls| && CallOk(z, t)
  {
    InsertShape(s, t, record);
    assert CallOk(s, t);
    hide SingleFlight.Inv, Agree;
  }

  lemma InsertKeepsInv(s: System, t: nat, record: Record)
    requires Inv(s) && Enabled(s, Insert(t, record)) && Admits(s.store, s.calls[t].scope, record)
    ensures Inv(Apply(s, Insert(t, record)))
  {
    InsertShape(s, t, record);
    InsertAnswers(s, t, record);
    hide Apply, Enabled, Agree, Admits, Inserted, CallOk, SingleFlight.Inv, SingleFlight.Apply, SingleFlight.Enabled;
    InsertKeepsAgree(s.store, s.calls[t].scope, record);
    SingleFlight.StepKeepsInv(s.flight, Settle(t));
    forall u | 0 <= u < |s.calls| && u != t ensures CallOk(Apply(s, Insert(t, record)), u) {
      InsertSparesOthers(s, t, record, u);
    }
  }

  lemma InsertSparesOthers(s: System, t: nat, record: Record, u: nat)
    requires Inv(s) && Enabled(s, Insert(t, record)) && Admits(s.store, s.calls[t].scope, record)
    requires u < |s.calls| && u != t && Agree(Inserted(s.store, s.calls[t].scope, record))
    ensures CallOk(Apply(s, Insert(t, record)), u)
  {
    hide Agree, Extends;
    assert CallOk(s, u) && CallOk(s, t);
    MoveExtends(s, Insert(t, record));
    if s.flight.tasks[u].Running? { assert s.flight.tasks[u].key != s.flight.tasks[t].key; }
    CallStays(s, Apply(s, Insert(t, record)), u);
  }

  /** A move that leaves the store alone and takes one step of the protocol. */
  lemma FlightStepKeepsInv(s: System, z: System, step: Step)
    requires Inv(s) && SingleFlight.Enabled(s.flight, step) && step.t < |s.calls|
    requires z.flight == SingleFlight.Apply(s.flight, step) && z.store == s.store
    requires |z.calls| == |s.calls| && z.calls == s.calls[step.t := z.calls[step.t]]
    requires CallOk(z, step.t)
    ensures Inv(z)
  {
    SingleFlight.StepKeepsInv(s.flight, step);
    forall u | 0 <= u < |z.calls| && u != step.t ensures CallOk(z, u) {
      assert CallOk(s, u);
      CallStays(s, z, u);
    }
  }

  /** The protocol step behind a move that does not file a record. */
  function StepOf(s: System, move: Move): Step
    requires Enabled(s, move) && !move.Update?
  {
    match move
    case Enter(t) =>
      var scope := s.calls[t].scope;
      if scope.0 == "" || scope.1 == "" || scope in s.store.byScope then Hit(t)
      else if s.flight.tasks[t].key in s.flight.pending then Join(t) else Claim(t)
    case Retry(t) => Wake(t)
    case Leave(t) => Release(t)
    case _ => Settle(move.t)
  }

  lemma MoveKeepsInv(s: System, move: Move)
    requires Inv(s) && Enabled(s, move)
    ensures Inv(Apply(s, move))
  {
    if move.Update? {
      UpdateKeepsAgree(s.store, move.id, move.status, move.at);
      MoveExtends(s, move);
      forall u | 0 <= u < |s.calls| ensures CallOk(Apply(s, move), u) { CallStays(s, Apply(s, move), u); }
    } else if move.Insert? && Admits(s.store, s.calls[move.t].scope, move.record) {
      hide Apply, Admits, Agree, CallOk, SingleFlight.Inv;
      InsertKeepsInv(s, move.t, move.record);
    } else {
      assert CallOk(s, move.t);
      hide Admits, Agree, SingleFlight.Inv;
      FlightStepKeepsInv(s, Apply(s, move), StepOf(s, move));
    }
  }

  lemma {:induction false} RunKeepsInv(s: System, moves: seq<Move>)
    requires Inv(s) && Runs(s, moves)
    ensures Inv(After(s, moves)) && Extends(s.store, After(s, moves).store)
    decreases |moves|
  {
    if moves != [] {
      MoveKeepsInv(s, moves[0]);
      MoveExtends(s, moves[0]);
      RunKeepsInv(Apply(s, moves[0]), moves[1..]);
    }
  }

  /** In every interleaving the indexes agree with the records, no identity is lost or altered, and any
      two calls for one scope that were given an identity were given the same one, still on file. */
  lemma OneIdentityPerScope(s: System, moves: seq<Move>, t: nat, u: nat)
    requires Init(s) && Runs(s, moves) && t < |s.calls| && u < |s.calls| && s.calls[t].scope == s.calls[u].scope
    ensures var z := After(s, moves);
            && Agree(z.store) && Extends(s.store, z.store)
            && |z.calls| == |s.calls|
            && (z.calls[t].result.Some? && z.calls[t].result.value.Given? && z.calls[u].result.Some?
                && z.calls[u].result.value.Given? ==>
                 z.calls[t].result.value.record.Identity() == z.calls[u].result.value.record.Identity() &&
                 z.calls[t].result.value.record.identityId in z.store.records)
  {
    RunKeepsInv(s, moves);
    CallsKeepTheirScope(s, moves);
    assert CallOk(After(s, moves), t) && CallOk(After(s, moves), u);
  }

  lemma {:induction false} CallsKeepTheirScope(s: System, moves: seq<Move>)
    requires Runs(s, moves)
    ensures |After(s, moves).calls| == |s.calls|
    ensures forall t :: 0 <= t < |s.calls| ==> After(s, moves).calls[t].scope == s.calls[t].scope
    decreases |moves|
  {
    if moves != [] { CallsKeepTheirScope(Apply(s, moves[0]), moves[1..]); }
  }

  // ---- no creation is stranded ----

  /** The steps of the claim protocol that a run takes; status updates take none. */
  function FlightSteps(s: System, moves: seq<Move>): seq<Step>
    requires Runs(s, moves)
    decreases |moves|
  {
    if moves == [] then []
    else (if moves[0].Update? then [] else [StepOf(s, moves[0])]) + FlightSteps(Apply(s, moves[0]), moves[1..])
  }

  function CallMoves(moves: seq<Move>): nat {
    if moves == [] then 0 else (if moves[0].Update? then 0 else 1) + CallMoves(moves[1..])
  }

  lemma MoveIsStep(s: System, move: Move)
    requires Inv(s) && Enabled(s, move) && !move.Update?
    ensures SingleFlight.Enabled(s.flight, StepOf(s, move))
    ensures Apply(s, move).flight == SingleFlight.Apply(s.flight, StepOf(s, move))
  {
    assert CallOk(s, move.t);
    hide SingleFlight.Inv, Agree, Fetch, Admits;
  }

  lemma UpdateSparesFlight(s: System, move: Move)
    requires Enabled(s, move) && move.Update?
    ensures Apply(s, move).flight == s.flight
  {
  }

  lemma {:induction false} RunIsFlight(s: System, moves: seq<Move>)
    requires Inv(s) && Runs(s, moves)
    ensures |FlightSteps(s, moves)| == CallMoves(moves)
    ensures SingleFlight.Runs(s.flight, FlightSteps(s, moves))
    ensures After(s, moves).flight == SingleFlight.After(s.flight, FlightSteps(s, moves))
    decreases |moves|
  {
    if moves != [] {
      MoveKeepsInv(s, moves[0]);
      var z, rest := Apply(s, moves[0]), moves[1..];
      if moves[0].Update? {
        UpdateSparesFlight(s, moves[0]);
        hide Inv, Apply, Enabled, SingleFlight.Apply, SingleFlight.Enabled;
        RunIsFlight(z, rest);
        assert [] + FlightSteps(z, rest) == FlightSteps(z, rest);
      } else {
        MoveIsStep(s, moves[0]);
        hide Inv, Apply, Enabled, SingleFlight.Apply, SingleFlight.Enabled;
        RunIsFlight(z, rest);
        assert FlightSteps(s, moves)[1..] == FlightSteps(z, rest);
      }
    }
  }

  lemma UnfinishedCanMove(s: System, t: nat) returns (move: Move)
    requires Inv(s) && t < |s.calls| && !s.flight.tasks[t].Done?
    ensures Enabled(s, move) && !move.Update?
  {
    hide Agree;
    var step := SingleFlight.NeverStuck(s.flight, t);
    match step
    case Hit(u) => move := Enter(u);
    case Join(u) => move := Enter(u);
    case Claim(u) => move := Enter(u);
    case Wake(u) => move := Retry(u);
    case Settle(u) => move := Raise(u);
    case Release(u) => move := Leave(u);
  }

  /** While a call is unfinished, some call can move: none waits for ever for a creation, raised or not. */
  lemma NeverStuck(s: System, moves: seq<Move>, t: nat) returns (move: Move)
    requires Init(s) && Runs(s, moves) && t < |After(s, moves).flight.tasks| && !After(s, moves).flight.tasks[t].Done?
    ensures Enabled(After(s, moves), move) && !move.Update?
  {
    RunKeepsInv(s, moves);
    hide Init, Runs, Enabled;
    move := UnfinishedCanMove(After(s, moves), t);
  }

  lemma StuckIsAnswered(s: System)
    requires Inv(s) && forall move :: Enabled(s, move) ==> move.Update?
    ensures forall t :: 0 <= t < |s.calls| ==> s.calls[t].result.Some?
  {
    hide Enabled, Agree;
    forall t | 0 <= t < |s.calls| && s.calls[t].result.None? ensures exists move :: Enabled(s, move) && !move.Update? {
      assert CallOk(s, t);
      var move := UnfinishedCanMove(s, t);
    }
  }

  lemma InitIsInv(s: System)
    requires Init(s)
    ensures Inv(s)
  {
  }

  lemma CallsAreBounded(s: System, moves: seq<Move>)
    requires Init(s) && Runs(s, moves)
    ensures CallMoves(moves) <= 4 * |s.calls| * (|s.calls| + 1)
  {
    InitIsInv(s);
    RunIsFlight(s, moves);
    hide Runs, CallMoves, FlightSteps, Agree, SingleFlight.Init, SingleFlight.Runs, Inv;
    SingleFlight.EveryCallCompletes(s.flight, FlightSteps(s, moves));
  }

  /** Among n calls no interleaving takes more than 4n(n + 1) moves of calls, however many status updates come
      between, and one in which no call can move has answered every call. */
  lemma EveryCallCompletes(s: System, moves: seq<Move>)
    requires Init(s) && Runs(s, moves)
    ensures CallMoves(moves) <= 4 * |s.calls| * (|s.calls| + 1)
    ensures (forall move :: Enabled(After(s, moves), move) ==> move.Update?) ==>
            forall t :: 0 <= t < |After(s, moves).calls| ==> After(s, moves).calls[t].result.Some?
  {
    hide *;
    CallsAreBounded(s, moves);
    InitIsInv(s);
    RunKeepsInv(s, moves);
    if forall move :: Enabled(After(s, moves), move) ==> move.Update? {
      StuckIsAnswered(After(s, moves));
    }
  }
}
