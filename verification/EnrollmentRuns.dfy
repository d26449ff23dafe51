/** The Service's in-memory enrollment store, and any number of Enroll commands interleaved on it.

    Enroll reads the stored record, decides, and saves in three separate steps, so commands for one
    Agent can overtake each other. Main result: whatever the interleaving, an Agent DID is enrolled at most
    once and its enrollment keeps its identity, creation time and lifecycle status. What interleaved
    updates may lose, and exactly when, is stated at the end. */
module EnrollmentRuns {
  import opened Prelude
  import opened SingleFlight
  import opened Enrollment

  type Records = map<string, Record>

  datatype Entry = Existing(record: Record) | Blocked(event: Event) | Claimed(event: Event)

  class MemoryEnrollmentStore {
    var records: Records
    var pending: map<string, Event>

    constructor ()
      ensures records == map[] && pending == map[]
    {
      records, pending := map[], map[];
    }

    method Find(agentDid: string) returns (found: Option<Record>)
      ensures found == if agentDid in records then Some(records[agentDid]) else None
    {
      found := if agentDid in records then Some(records[agentDid]) else None;
    }

    /** The first block of find_or_create. */
    method Enter(agentDid: string) returns (entry: Entry)
      modifies this`pending
      ensures if agentDid in records then entry == Existing(records[agentDid]) && pending == old(pending)
              else if agentDid in old(pending) then entry == Blocked(old(pending)[agentDid]) && pending == old(pending)
              else entry.Claimed? && fresh(entry.event) && !entry.event.isSet &&
                   pending == old(pending)[agentDid := entry.event]
    {
      if agentDid in records {
        return Existing(records[agentDid]);
      }
      if agentDid in pending {
        return Blocked(pending[agentDid]);
      }
      var event := new Event();
      pending := pending[agentDid := event];
      return Claimed(event);
    }

    /** The check of the factory's record and the block that files it. */
    method Insert(agentDid: string, created: Record) returns (filed: bool)
      modifies this`records
      ensures filed <==> created.agentDid == agentDid
      ensures records == if filed then old(records)[agentDid := created] else old(records)
    {
      filed := created.agentDid == agentDid;
      if filed {
        records := records[agentDid := created];
      }
    }

    /** The block in `finally`. */
    method Release(agentDid: string)
      requires agentDid in pending
      modifies this`pending, pending[agentDid]
      ensures pending == old(pending) - {agentDid} && old(pending)[agentDid].isSet
    {
      var event := pending[agentDid];
      pending := pending - {agentDid};
      event.Set();
    }

    method Save(record: Record)
      modifies this`records
      ensures records == old(records)[record.agentDid := record]
    {
      records := records[record.agentDid := record];
    }
  }

  // ---- Enroll commands as tasks ----

  datatype Result = Success(record: Record) | Problem | Error

  /** Where a command stands: about to read the record; with a snapshot, waiting for the policy; with
      the updated record, about to save it; inside find_or_create; or answered. */
  datatype Phase =
    | Finding
    | Updating(existing: Record)
    | Saving(existing: Record, updated: Record)
    | Creating
    | Over(result: Result)

  datatype Command = Command(agentDid: string, request: Request, phase: Phase)

  /** `created` lists the records filed by enrollment factories. */
  datatype System = System(
    inspect: Inspect, flight: State<string>, records: Records, commands: seq<Command>, created: seq<Record>)

  /** Decide: the policy answers an update. Create: the factory returns its record, which is filed.
      Fail: the policy or the factory raises. */
  datatype Move =
    | Find(t: nat)
    | Decide(t: nat, decision: Decision, now: int)
    | Save(t: nat)
    | Enter(t: nat)
    | Retry(t: nat)
    | Create(t: nat, decision: Decision, now: int, id: string)
    | Fail(t: nat)
    | Leave(t: nat)

  predicate Enabled(s: System, move: Move) {
    && move.t < |s.commands| == |s.flight.tasks|
    && var phase, pc := s.commands[move.t].phase, s.flight.tasks[move.t];
       match move
       case Find(_) => phase.Finding? && pc.Asking?
       case Decide(_, _, _) => phase.Updating? && pc.Asking?
       case Save(_) => phase.Saving? && pc.Asking?
       case Enter(_) => phase.Creating? && pc.Asking?
       case Retry(t) => SingleFlight.Enabled(s.flight, Wake(t))
       case Create(_, _, _, id) => phase.Creating? && pc.Running? && id != ""
       case Fail(_) => (phase.Updating? && pc.Asking?) || (phase.Creating? && pc.Running?)
       case Leave(t) => SingleFlight.Enabled(s.flight, Release(t))
  }

  function At(s: System, t: nat, phase: Phase): System
    requires t < |s.commands|
  {
    s.(commands := s.commands[t := s.commands[t].(phase := phase)])
  }

  function Finish(s: System, t: nat, step: Step, result: Result): System
    requires t < |s.commands| && SingleFlight.Enabled(s.flight, step)
  {
    At(s.(flight := SingleFlight.Apply(s.flight, step)), t, Over(result))
  }

  function Apply(s: System, move: Move): System
    requires Enabled(s, move)
  {
    var t, c := move.t, s.commands[move.t];
    var request := Effective(s.inspect, c.request);
    match move
    case Find(_) =>
      if c.agentDid in s.records then At(s, t, Updating(s.records[c.agentDid]))
      else if Lacking(s.inspect, request) != ([], []) then Finish(s, t, Hit(t), Problem)
      else At(s, t, Creating)
    case Decide(_, decision, now) =>
      (match Update(s.inspect, request, c.phase.existing, decision, now)
       case Accept(updated) => At(s, t, Saving(c.phase.existing, updated))
       case Unchanged => Finish(s, t, Hit(t), Success(c.phase.existing))
       case Failed => Finish(s, t, Hit(t), Problem)
       case Unmet(_, _) => Finish(s, t, Hit(t), Problem))
    case Save(_) =>
      var updated := c.phase.updated;
      Finish(s.(records := s.records[updated.agentDid := updated]), t, Hit(t), Success(updated))
    case Enter(_) =>
      if c.agentDid in s.records then Finish(s, t, Hit(t), Success(s.records[c.agentDid]))
      else
        var step := if s.flight.tasks[t].key in s.flight.pending then Join(t) else Claim(t);
        s.(flight := SingleFlight.Apply(s.flight, step))
    case Retry(_) => s.(flight := SingleFlight.Apply(s.flight, Wake(t)))
    case Create(_, decision, now, id) =>
      var record := Created(s.inspect, request.(agentDid := c.agentDid), decision, now, id);
      Finish(s.(records := s.records[c.agentDid := record], created := s.created + [record]), t, Settle(t),
             Success(record))
    case Fail(_) => Finish(s, t, if c.phase.Creating? then Settle(t) else Hit(t), Error)
    case Leave(_) => s.(flight := SingleFlight.Apply(s.flight, Release(t)))
  }

  ghost predicate RecordsOk(s: System) {
    forall did :: did in s.records ==> s.records[did].agentDid == did && CoversRequired(s.inspect, s.records[did])
  }

  /** Commands about to start on a store left by earlier ones; Enroll has checked that each request
      names the Agent that signed the assertion. */
  ghost predicate Init(s: System) {
    && SingleFlight.Init(s.flight) && |s.commands| == |s.flight.tasks| && RecordsOk(s) && s.created == []
    && forall t :: 0 <= t < |s.commands| ==>
         s.commands[t].phase.Finding? && s.commands[t].request.agentDid == s.commands[t].agentDid
         && s.flight.tasks[t].key == s.commands[t].agentDid
  }

  predicate Runs(s: System, moves: seq<Move>)
    decreases |moves|
  {
    moves == [] || (Enabled(s, moves[0]) && Runs(Apply(s, moves[0]), moves[1..]))
  }

  function After(s: System, moves: seq<Move>): System
    requires Runs(s, moves)
    decreases |moves|
  {
    if moves == [] then s else After(Apply(s, moves[0]), moves[1..])
  }

  // ---- the invariant ----

  predicate StoredAs(s: System, did: string, r: Record) {
    did in s.records && SameIdentity(r, s.records[did])
  }

  /** Every snapshot in flight is of an enrollment that is still stored, with the same identity. */
  predicate CommandOk(s: System, t: nat)
    requires t < |s.commands| == |s.flight.tasks|
  {
    var c, pc := s.commands[t], s.flight.tasks[t];
    && c.request.agentDid == c.agentDid
    && (!pc.Done? ==> pc.key == c.agentDid)
    && (c.phase.Over? <==> pc.Settled? || pc.Done?)
    && match c.phase
       case Finding => pc.Asking?
       case Updating(existing) =>
         pc.Asking? && StoredAs(s, c.agentDid, existing) && existing.agentDid == c.agentDid
       case Saving(existing, updated) =>
         && pc.Asking? && StoredAs(s, c.agentDid, existing) && existing.agentDid == c.agentDid
         && SameIdentity(existing, updated) && CoversRequired(s.inspect, updated)
         && updated.acknowledged ==
            Accepted(s.inspect, existing.acknowledged, Effective(s.inspect, c.request).acknowledged)
         && updated.claims == Some(Merged(s.inspect, c.request, existing))
       case Creating =>
         && Lacking(s.inspect, Effective(s.inspect, c.request)) == ([], [])
         && (pc.Running? ==> c.agentDid !in s.records)
       case Over(result) => result.Success? ==> StoredAs(s, c.agentDid, result.record)
  }

  ghost predicate CreatedOnce(s: System) {
    && (forall i :: 0 <= i < |s.created| ==> StoredAs(s, s.created[i].agentDid, s.created[i]))
    && (forall i, j :: 0 <= i < j < |s.created| ==> s.created[i].agentDid != s.created[j].agentDid)
  }

  ghost predicate Inv(s: System) {
    && SingleFlight.Inv(s.flight) && |s.commands| == |s.flight.tasks| && RecordsOk(s) && CreatedOnce(s)
    && forall t :: 0 <= t < |s.commands| ==> CommandOk(s, t)
  }

  /** No enrollment goes away or changes its identity, creation time or status. */
  ghost predicate Extends(s: System, z: System) {
    z.inspect == s.inspect && forall did :: did in s.records ==> StoredAs(z, did, s.records[did])
  }

  lemma CommandStays(s: System, z: System, t: nat)
    requires t < |s.commands| == |s.flight.tasks| == |z.commands| == |z.flight.tasks| && CommandOk(s, t)
    requires Extends(s, z) && z.commands[t] == s.commands[t] && z.flight.tasks[t] == s.flight.tasks[t]
    requires s.commands[t].phase.Creating? && s.flight.tasks[t].Running? ==> s.commands[t].agentDid !in z.records
    ensures CommandOk(z, t)
  {
  }

  /** A move that leaves the records alone. */
  lemma LocalMoveKeepsInv(s: System, z: System, t: nat)
    requires Inv(s) && t < |s.commands| && z.records == s.records && z.inspect == s.inspect && z.created == s.created
    requires SingleFlight.Inv(z.flight) && |z.flight.tasks| == |s.flight.tasks|
    requires forall u :: 0 <= u < |s.flight.tasks| && u != t ==> z.flight.tasks[u] == s.flight.tasks[u]
    requires |z.commands| == |s.commands| && z.commands == s.commands[t := z.commands[t]] && CommandOk(z, t)
    ensures Inv(z)
  {
    forall u | 0 <= u < |z.commands| && u != t ensures CommandOk(z, u) {
      assert CommandOk(s, u);
      CommandStays(s, z, u);
    }
  }

  lemma SaveKeepsInv(s: System, t: nat)
    requires Inv(s) && Enabled(s, Save(t))
    ensures Inv(Apply(s, Save(t))) && Extends(s, Apply(s, Save(t)))
  {
    var z := Apply(s, Save(t));
    assert CommandOk(s, t);
    SingleFlight.StepKeepsInv(s.flight, Hit(t));
    forall u | 0 <= u < |z.commands| && u != t ensures CommandOk(z, u) {
      assert CommandOk(s, u);
      CommandStays(s, z, u);
    }
  }

  /** What a creation files, under a key where the claim protocol lets it meet no existing record. */
  lemma CreateFiles(s: System, move: Move) returns (record: Record)
    requires Inv(s) && Enabled(s, move) && move.Create?
    ensures var z, c := Apply(s, move), s.commands[move.t];
            && record.agentDid == c.agentDid && record.enrollmentId != "" && c.agentDid !in s.records
            && z.records == s.records[c.agentDid := record] && z.created == s.created + [record]
               && z.inspect == s.inspect
            && CoversRequired(s.inspect, record)
  {
    var c := s.commands[move.t];
    assert CommandOk(s, move.t);
    hide SingleFlight.Inv, SingleFlight.Apply, RecordsOk, CreatedOnce, Accepted, AcceptedClaims, MissingClaims;
    var request := Effective(s.inspect, c.request);
    record := Created(s.inspect, request, move.decision, move.now, move.id);
    StoredRecordsCoverRequired(s.inspect, request, move.decision, move.now, move.id, record);
  }

  lemma FiledExtends(s: System, z: System, did: string, record: Record)
    requires RecordsOk(s) && did !in s.records && record.agentDid == did && CoversRequired(s.inspect, record)
    requires z.inspect == s.inspect && z.records == s.records[did := record]
    ensures Extends(s, z) && RecordsOk(z) && StoredAs(z, did, record)
  {
    hide CoversRequired;
  }

  lemma FiledOnce(s: System, z: System, did: string, record: Record)
    requires CreatedOnce(s) && Extends(s, z) && did !in s.records && record.agentDid == did && StoredAs(z, did, record)
    requires z.created == s.created + [record]
    ensures CreatedOnce(z)
  {
    forall i | 0 <= i < |s.created|
      ensures StoredAs(z, z.created[i].agentDid, z.created[i]) && z.created[i].agentDid != did
    {
      assert z.created[i] == s.created[i] && StoredAs(s, s.created[i].agentDid, s.created[i]);
    }
  }

  lemma CreateExtends(s: System, move: Move)
    requires Inv(s) && Enabled(s, move) && move.Create?
    ensures var z := Apply(s, move); Extends(s, z) && RecordsOk(z) && CreatedOnce(z)
  {
    var z := Apply(s, move);
    var record := CreateFiles(s, move);
    hide Apply, CoversRequired, RecordsOk, CreatedOnce, Extends, StoredAs, SingleFlight.Inv;
    FiledExtends(s, z, record.agentDid, record);
    FiledOnce(s, z, record.agentDid, record);
  }

  lemma CreateKeepsInv(s: System, move: Move)
    requires Inv(s) && Enabled(s, move) && move.Create?
    ensures Inv(Apply(s, move)) && Extends(s, Apply(s, move))
  {
    CreateExtends(s, move);
    SingleFlight.StepKeepsInv(s.flight, Settle(move.t));
    forall u | 0 <= u < |s.commands| ensures CommandOk(Apply(s, move), u) {
      if u != move.t { CreateSparesOthers(s, move, u); } else { assert CommandOk(s, u); }
    }
  }

  lemma CreateSparesOthers(s: System, move: Move, u: nat)
    requires Inv(s) && Enabled(s, move) && move.Create? && u < |s.commands| && u != move.t
    ensures CommandOk(Apply(s, move), u)
  {
    hide RecordsOk, CreatedOnce, Created, MissingClaims;
    CreateExtends(s, move);
    assert CommandOk(s, move.t) && CommandOk(s, u);
    if s.flight.tasks[u].Running? { assert s.flight.tasks[u].key != s.flight.tasks[move.t].key; }
    CommandStays(s, Apply(s, move), u);
  }

  function StepOf(s: System, move: Move): Step
    requires Enabled(s, move)
  {
    var t, c := move.t, s.commands[move.t];
    match move
    case Enter(_) =>
      if c.agentDid in s.records then Hit(t)
      else if s.flight.tasks[t].key in s.flight.pending then Join(t) else Claim(t)
    case Retry(_) => Wake(t)
    case Leave(_) => Release(t)
    case Fail(_) => if c.phase.Creating? then Settle(t) else Hit(t)
    case Create(_, _, _, _) => Settle(t)
    case _ => Hit(t)
  }

  lemma LocalMoveFrame(s: System, move: Move)
    requires Inv(s) && Enabled(s, move) && !move.Save? && !move.Create?
    ensures var z := Apply(s, move);
            && z.records == s.records && z.inspect == s.inspect && z.created == s.created
            && |z.commands| == |s.commands| && z.commands == s.commands[move.t := z.commands[move.t]]
  {
    assert CommandOk(s, move.t);
    hide RecordsOk, CreatedOnce, SingleFlight.Inv, SingleFlight.Apply, Created, Update, Lacking;
  }

  lemma FlightFrame(s: System, move: Move)
    requires Inv(s) && Enabled(s, move)
    ensures var z := Apply(s, move);
            && SingleFlight.Inv(z.flight) && |z.flight.tasks| == |s.flight.tasks|
            && forall u :: 0 <= u < |s.flight.tasks| && u != move.t ==> z.flight.tasks[u] == s.flight.tasks[u]
  {
    MoveAdvances(s, move);
    assert StepOf(s, move).t == move.t;
    hide Apply, StepOf, RecordsOk, CreatedOnce, CommandOk, SingleFlight.Inv;
    if Apply(s, move).flight != s.flight {
      SingleFlight.StepKeepsInv(s.flight, StepOf(s, move));
    }
  }

  lemma LocalMoveIsOk(s: System, move: Move)
    requires Inv(s) && Enabled(s, move) && !move.Save? && !move.Create?
    requires |Apply(s, move).flight.tasks| == |Apply(s, move).commands| == |s.commands|
    ensures CommandOk(Apply(s, move), move.t)
  {
    assert CommandOk(s, move.t);
    hide CreatedOnce, SingleFlight.Inv, Created, Update, Merged, Accepted, CoversRequired, RecordsOk;
    if move.Decide? { DecideIsOk(s, move); }
  }

  lemma MoveKeepsInv(s: System, move: Move)
    requires Inv(s) && Enabled(s, move)
    ensures Inv(Apply(s, move)) && Extends(s, Apply(s, move))
  {
    hide RecordsOk, CreatedOnce, SingleFlight.Inv, Created, Update, CommandOk;
    if move.Save? {
      SaveKeepsInv(s, move.t);
    } else if move.Create? {
      CreateKeepsInv(s, move);
    } else {
      LocalMoveFrame(s, move);
      FlightFrame(s, move);
      LocalMoveIsOk(s, move);
      LocalMoveKeepsInv(s, Apply(s, move), move.t);
    }
  }

  lemma DecideIsOk(s: System, move: Move)
    requires Inv(s) && Enabled(s, move) && move.Decide?
    ensures CommandOk(Apply(s, move), move.t)
  {
    var c := s.commands[move.t];
    assert CommandOk(s, move.t);
    var request := Effective(s.inspect, c.request);
    if Update(s.inspect, request, c.phase.existing, move.decision, move.now).Accept? {
      AcceptedUpdate(s.inspect, request, c.phase.existing, move.decision, move.now);
    }
    assert Merged(s.inspect, request, c.phase.existing) == Merged(s.inspect, c.request, c.phase.existing);
    hide Update, Merged, Accepted, CoversRequired, SingleFlight.Inv, RecordsOk, CreatedOnce, Effective;
  }

  lemma {:induction false} RunKeepsInv(s: System, moves: seq<Move>)
    requires Inv(s) && Runs(s, moves)
    ensures Inv(After(s, moves)) && Extends(s, After(s, moves))
    decreases |moves|
  {
    if moves != [] {
      MoveKeepsInv(s, moves[0]);
      RunKeepsInv(Apply(s, moves[0]), moves[1..]);
    }
  }

  predicate AnsweredWithSuccess(s: System, t: nat)
    requires t < |s.commands|
  {
    s.commands[t].phase.Over? && s.commands[t].phase.result.Success?
  }

  /** Whatever the interleaving: each Agent DID is enrolled at most once, never over an existing
      enrollment; enrollments keep their identity, creation time and status and always cover the required
      claims; and every command that answers with an enrollment answers with the stored one. */
  lemma EnrolledOnce(s: System, moves: seq<Move>)
    requires Init(s) && Runs(s, moves)
    ensures var z := After(s, moves);
            && Extends(s, z) && CreatedOnce(z) && RecordsOk(z)
            && (forall i :: 0 <= i < |z.created| ==> z.created[i].agentDid !in s.records)
            && (forall t :: 0 <= t < |z.commands| && AnsweredWithSuccess(z, t) ==>
                  StoredAs(z, z.commands[t].agentDid, z.commands[t].phase.result.record))
  {
    InitIsInv(s);
    RunKeepsInv(s, moves);
    CreationsAreNew(s, moves, s);
    var z := After(s, moves);
    forall t | 0 <= t < |z.commands| && z.commands[t].phase.Over? && z.commands[t].phase.result.Success?
      ensures StoredAs(z, z.commands[t].agentDid, z.commands[t].phase.result.record)
    {
      assert CommandOk(z, t);
    }
  }

  lemma {:induction false} CreationsAreNew(s: System, moves: seq<Move>, first: System)
    requires Inv(s) && Runs(s, moves) && Extends(first, s)
    requires forall i :: 0 <= i < |s.created| ==> s.created[i].agentDid !in first.records
    ensures forall i :: 0 <= i < |After(s, moves).created| ==> After(s, moves).created[i].agentDid !in first.records
    decreases |moves|
  {
    hide RecordsOk, SingleFlight.Inv, Update;
    if moves != [] {
      MoveKeepsInv(s, moves[0]);
      if moves[0].Create? { assert CommandOk(s, moves[0].t); }
      CreationsAreNew(Apply(s, moves[0]), moves[1..], first);
    }
  }

  // ---- no command is stranded ----

  /** What a command answers, or goes on to, when it reads the enrollment and when the policy decides an update: a
      problem exactly when something is missing or the policy rejects, the stored record exactly when the policy
      forbids updates. */
  lemma AnswersMean(s: System, move: Move)
    requires Inv(s) && Enabled(s, move) && (move.Find? || move.Decide?)
    ensures var c, request := s.commands[move.t], Effective(s.inspect, s.commands[move.t].request);
            var next := Apply(s, move).commands[move.t].phase;
            if move.Find? then
              if c.agentDid in s.records then next == Updating(s.records[c.agentDid])
              else
                var lacks := (exists name :: Requires(s.inspect, name) && !Has(request.claims, name))
                             || (request.acknowledged.None? && exists id :: Owed(s.inspect, None, id));
                next == if lacks then Over(Problem) else Creating
            else
              var existing, lacks := c.phase.existing,
                (exists name :: Lacks(s.inspect, request, c.phase.existing, name))
                || (request.acknowledged.None? && exists id :: Owed(s.inspect, Some(c.phase.existing), id));
              && (move.decision.status == Reject ==> next == Over(Problem))
              && (move.decision.status != Reject && !move.decision.updateExisting ==> next == Over(Success(existing)))
              && (move.decision.status != Reject && move.decision.updateExisting ==>
                    if lacks then next == Over(Problem) else next.Saving? && next.existing == existing)
  {
    var c, request := s.commands[move.t], Effective(s.inspect, s.commands[move.t].request);
    if move.Find? {
      LackingMeans(s.inspect, request);
      LackingIsEmpty(s.inspect, request);
    } else {
      UpdateMeans(s.inspect, request, c.phase.existing, move.decision, move.now);
    }
    hide Inv, Effective, Lacking, Update, Owed, Lacks, Requires, SingleFlight.Apply;
  }

  lemma LackingIsEmpty(inspect: Inspect, request: Request)
    ensures Lacking(inspect, request) == ([], []) <==>
            && (forall name :: Requires(inspect, name) ==> Has(request.claims, name))
            && (request.acknowledged.None? ==> forall id :: !Owed(inspect, None, id))
  {
    MissingIdsAreOwed(inspect, None);
    MissingClaimsAreRequired(inspect, ClaimNames(request.claims));
    hide Owed, MissingIds, MissingClaims;
  }

  function StoredFor(s: System, did: string): Option<Record> {
    if did in s.records then Some(s.records[did]) else None
  }

  lemma GateHere(s: System, did: string, grantTypes: set<string>, grantType: string)
    requires RecordsOk(s)
    ensures Gate(s.inspect, grantTypes, StoredFor(s, did), grantType) == Open <==>
            && did in s.records && s.records[did].status == Active && grantType in grantTypes
            && forall id :: !Owed(s.inspect, Some(s.records[did]), id)
  {
    GateMeans(s.inspect, grantTypes, StoredFor(s, did), grantType);
    if did in s.records {
      MissingClaimsAreRequired(s.inspect, ClaimNames(s.records[did].claims));
    }
    hide Owed, Gate;
  }

  lemma {:induction false} RunKeepsInspect(s: System, moves: seq<Move>)
    requires Runs(s, moves)
    ensures After(s, moves).inspect == s.inspect
    decreases |moves|
  {
    if moves != [] { RunKeepsInspect(Apply(s, moves[0]), moves[1..]); }
  }

  /** In every state of every interleaving Grant opens for an Agent DID exactly if an active enrollment is stored for
      it, the grant type is known and no document is owed: of what Enroll has stored no required claim is missing. */
  lemma GateOpensIff(s: System, moves: seq<Move>, did: string, grantTypes: set<string>, grantType: string)
    requires Init(s) && Runs(s, moves)
    ensures var z := After(s, moves);
            Gate(s.inspect, grantTypes, StoredFor(z, did), grantType) == Open <==>
            && did in z.records && z.records[did].status == Active && grantType in grantTypes
            && forall id :: !Owed(s.inspect, Some(z.records[did]), id)
  {
    InitIsInv(s);
    RunKeepsInv(s, moves);
    RunKeepsInspect(s, moves);
    hide Init, Runs, Owed, Gate, RecordsOk;
    GateHere(After(s, moves), did, grantTypes, grantType);
  }

  /** The i-th move files an enrollment for the Agent DID, with that decision of the policy. */
  predicate Files(s: System, moves: seq<Move>, i: int, did: string, decided: DecisionStatus)
    requires Runs(s, moves)
  {
    && 0 <= i < |moves| && Runs(s, moves[..i]) && moves[i].Create? && moves[i].decision.status == decided
    && moves[i].t < |After(s, moves[..i]).commands| && After(s, moves[..i]).commands[moves[i].t].agentDid == did
  }

  /** The decision that gives a new enrollment that status. */
  function DecisionFor(status: Status): DecisionStatus {
    match status
    case Active => Activate
    case Pending => Postpone
    case _ => Reject
  }

  lemma MoveFiles(s: System, move: Move, did: string)
    requires Inv(s) && Enabled(s, move) && did !in s.records && did in Apply(s, move).records
    ensures move.Create? && s.commands[move.t].agentDid == did
    ensures Apply(s, move).records[did].status == StatusOf(move.decision.status)
  {
    assert CommandOk(s, move.t);
    hide SingleFlight.Inv, SingleFlight.Apply, RecordsOk, CreatedOnce, Accepted, AcceptedClaims, MissingClaims, Update,
        Lacking;
  }

  lemma FilesLater(s: System, moves: seq<Move>, i: int, did: string, decided: DecisionStatus)
    requires Runs(s, moves) && moves != [] && Files(Apply(s, moves[0]), moves[1..], i, did, decided)
    ensures Files(s, moves, i + 1, did, decided)
  {
    hide Apply, Enabled;
    assert moves[1..][..i] == moves[..i + 1][1..];
  }

  /** An enrollment that a run begins has, from then on, the status its creation was decided with; so an Agent that
      was not enrolled before finds the gate open only if the policy activated it. */
  lemma {:induction false} StatusWasDecided(s: System, moves: seq<Move>, did: string) returns (i: nat)
    requires Inv(s) && Runs(s, moves) && did !in s.records && did in After(s, moves).records
    ensures Files(s, moves, i, did, DecisionFor(After(s, moves).records[did].status))
    ensures After(s, moves).records[did].status in {Active, Pending, Rejected}
    decreases |moves|
  {
    var next := Apply(s, moves[0]);
    MoveKeepsInv(s, moves[0]);
    if did in next.records {
      i := 0;
      DecidedAtOnce(s, moves, did);
    } else {
      hide Apply, Enabled, Inv, Files;
      var j := StatusWasDecided(next, moves[1..], did);
      FilesLater(s, moves, j, did, DecisionFor(After(s, moves).records[did].status));
      i := j + 1;
    }
  }

  lemma DecidedAtOnce(s: System, moves: seq<Move>, did: string)
    requires Inv(s) && Runs(s, moves) && moves != [] && did !in s.records && did in Apply(s, moves[0]).records
    ensures did in After(s, moves).records
    ensures var status := After(s, moves).records[did].status;
            status in {Active, Pending, Rejected} && Files(s, moves, 0, did, DecisionFor(status))
  {
    var next := Apply(s, moves[0]);
    MoveKeepsInv(s, moves[0]);
    MoveFiles(s, moves[0], did);
    RunKeepsInv(next, moves[1..]);
    hide Apply, Inv, Enabled;
    assert moves[..0] == [];
  }

  /** How many moves of its own a command takes outside the claim protocol, at most. */
  function LocalRank(phase: Phase): nat {
    match phase
    case Finding => 3
    case Updating(_) => 2
    case Saving(_, _) => 1
    case Creating => 0
    case Over(_) => 0
  }

  function LocalRanks(s: System): seq<nat> {
    seq(|s.commands|, t requires 0 <= t < |s.commands| => LocalRank(s.commands[t].phase))
  }

  function Fuel(s: System): nat {
    SingleFlight.Fuel(s.flight) + Sum(LocalRanks(s))
  }

  /** A move takes a step of the protocol, or brings its command closer to one. */
  lemma MoveAdvances(s: System, move: Move)
    requires Inv(s) && Enabled(s, move)
    ensures var z, t := Apply(s, move), move.t;
            && z.commands == s.commands[t := z.commands[t]]
            && LocalRank(z.commands[t].phase) <= LocalRank(s.commands[t].phase)
            && ((z.flight == s.flight && LocalRank(z.commands[t].phase) < LocalRank(s.commands[t].phase))
                || (SingleFlight.Enabled(s.flight, StepOf(s, move))
                    && z.flight == SingleFlight.Apply(s.flight, StepOf(s, move))))
  {
    assert CommandOk(s, move.t);
    hide SingleFlight.Inv, SingleFlight.Apply, RecordsOk, CreatedOnce, Update, Created, Lacking;
  }

  lemma MoveBurnsFuel(s: System, move: Move)
    requires Inv(s) && Enabled(s, move)
    ensures Fuel(Apply(s, move)) < Fuel(s) && |Apply(s, move).commands| == |s.commands|
  {
    MoveAdvances(s, move);
    var z, t := Apply(s, move), move.t;
    hide Apply, CommandOk, RecordsOk, CreatedOnce, SingleFlight.Inv, SingleFlight.Apply, SingleFlight.Fuel, StepOf;
    if SingleFlight.Enabled(s.flight, StepOf(s, move)) && z.flight == SingleFlight.Apply(s.flight, StepOf(s, move)) {
      StepBurnsFuel(s.flight, StepOf(s, move));
    }
    assert LocalRanks(z) == LocalRanks(s)[t := LocalRank(z.commands[t].phase)];
    SumOfUpdate(LocalRanks(s), t, LocalRank(z.commands[t].phase));
  }

  lemma {:induction false} RunBurnsFuel(s: System, moves: seq<Move>)
    requires Inv(s) && Runs(s, moves)
    ensures |moves| + Fuel(After(s, moves)) <= Fuel(s)
    decreases |moves|
  {
    if moves != [] {
      MoveBurnsFuel(s, moves[0]);
      MoveKeepsInv(s, moves[0]);
      RunBurnsFuel(Apply(s, moves[0]), moves[1..]);
    }
  }

  /** A move the command itself can make, unless it waits for another one. */
  function OwnMove(s: System, t: nat): Move
    requires t < |s.commands| == |s.flight.tasks|
  {
    match s.commands[t].phase
    case Finding => Find(t)
    case Updating(_) => Fail(t)
    case Saving(_, _) => Save(t)
    case Creating =>
      var pc := s.flight.tasks[t];
      if pc.Asking? then Enter(t) else if pc.Waiting? then Retry(t) else Fail(t)
    case Over(_) => Leave(t)
  }

  /** While a command is unfinished, some command can move. */
  lemma NeverStuck(s: System, t: nat) returns (move: Move)
    requires Inv(s) && t < |s.commands| && !s.flight.tasks[t].Done?
    ensures Enabled(s, move)
  {
    var step := SingleFlight.NeverStuck(s.flight, t);
    assert CommandOk(s, step.t);
    move := OwnMove(s, step.t);
    hide RecordsOk, CreatedOnce, Lacking, Accepted;
  }

  /** Among n Enroll commands no interleaving has more than 4n(n + 1) + 3n moves, and one that cannot be extended
      has answered every command, whatever the policy decides and whichever factories raise. */
  lemma EveryCommandCompletes(s: System, moves: seq<Move>)
    requires Init(s) && Runs(s, moves)
    ensures |moves| <= 4 * |s.commands| * (|s.commands| + 1) + 3 * |s.commands|
    ensures (forall move :: !Enabled(After(s, moves), move)) ==>
            forall t :: 0 <= t < |After(s, moves).commands| ==> After(s, moves).commands[t].phase.Over?
  {
    InitIsInv(s);
    RunBurnsFuel(s, moves);
    RunKeepsInv(s, moves);
    FuelBound(s);
    if forall move :: !Enabled(After(s, moves), move) {
      StuckIsFinished(After(s, moves));
    }
  }

  lemma InitIsInv(s: System)
    requires Init(s)
    ensures Inv(s)
  {
    assert forall t :: 0 <= t < |s.commands| ==> CommandOk(s, t);
  }

  lemma FuelBound(s: System)
    requires Init(s)
    ensures Fuel(s) <= 4 * |s.commands| * (|s.commands| + 1) + 3 * |s.commands|
  {
    hide RecordsOk;
    FuelIsBounded(s.flight);
    SumIsBounded(LocalRanks(s), 3);
  }

  lemma StuckIsFinished(s: System)
    requires Inv(s) && forall move :: !Enabled(s, move)
    ensures forall t :: 0 <= t < |s.commands| ==> s.commands[t].phase.Over?
  {
    hide Enabled;
    forall t | 0 <= t < |s.commands| && !s.commands[t].phase.Over? ensures exists move :: Enabled(s, move) {
      assert CommandOk(s, t);
      var move := NeverStuck(s, t);
    }
  }

  // ---- what interleaved updates may lose ----

  predicate Declares(s: System, t: nat, id: string)
    requires t < |s.commands|
  {
    id in Effective(s.inspect, s.commands[t].request).acknowledged.GetOr([]) && s.inspect.Knows(id)
  }

  predicate Supplies(s: System, t: nat, name: string)
    requires t < |s.commands|
  {
    name in ClaimNames(AcceptedClaims(s.inspect, s.commands[t].request.claims))
  }

  function ClaimOf(r: Record, name: string): Option<string> {
    if name in r.claims.GetOr(map[]) then Some(r.claims.value[name]) else None
  }

  predicate IsSaveFor(s: System, move: Move, did: string) {
    move.Save? && move.t < |s.commands| && s.commands[move.t].agentDid == did
  }

  /** What the last save of that enrollment in a run stores. */
  function LastSaved(s: System, moves: seq<Move>, did: string): Option<Record>
    requires Runs(s, moves)
    decreases |moves|
  {
    if moves == [] then None
    else
      var later := LastSaved(Apply(s, moves[0]), moves[1..], did);
      if later.Some? then later
      else if IsSaveFor(s, moves[0], did) then Some(s.commands[moves[0].t].phase.updated)
      else None
  }

  /** The command has read `r` and not gone back on it. */
  predicate HasFound(s: System, t: nat, r: Record)
    requires t < |s.commands|
  {
    match s.commands[t].phase
    case Updating(existing) => existing == r
    case Saving(existing, _) => existing == r
    case Over(_) => true
    case Finding => false
    case Creating => false
  }

  lemma MoveKeepsFound(s: System, move: Move, t: nat, r: Record)
    requires Inv(s) && Enabled(s, move) && t < |s.commands| && HasFound(s, t, r)
    ensures var z := Apply(s, move);
            && |z.commands| == |s.commands| && HasFound(z, t, r) && z.inspect == s.inspect
            && z.commands[t].request == s.commands[t].request && z.commands[t].agentDid == s.commands[t].agentDid
            && (s.commands[t].phase.Over? ==> z.commands[t].phase.Over?)
            && (move == Save(t) ==> z.commands[t].phase.Over?)
  {
    MoveFrame(s, move);
    if move.t == t {
      assert CommandOk(s, t);
      hide Inv, SingleFlight.Inv, SingleFlight.Apply, RecordsOk, CreatedOnce, Update, Created, Lacking, StoredAs;
      hide Accepted, Merged, CoversRequired, Effective;
    } else {
      hide Inv, Apply, CommandOk, Enabled;
      OthersStay(s, move, t);
    }
  }

  lemma MoveFrame(s: System, move: Move)
    requires Enabled(s, move)
    ensures var z, t := Apply(s, move), move.t;
            && |z.commands| == |s.commands| && z.inspect == s.inspect
            && z.commands[t].request == s.commands[t].request && z.commands[t].agentDid == s.commands[t].agentDid
  {
    hide SingleFlight.Apply, Update, Created, Lacking, Effective;
  }

  lemma OthersStay(s: System, move: Move, t: nat)
    requires Enabled(s, move) && t < |s.commands| && move.t != t
    ensures Apply(s, move).commands[t] == s.commands[t]
  {
    hide SingleFlight.Apply, Update, Created, Lacking, Effective;
  }

  lemma {:induction false} RunKeepsFound(s: System, moves: seq<Move>, t: nat, r: Record)
    requires Inv(s) && Runs(s, moves) && t < |s.commands| && HasFound(s, t, r)
    ensures var z := After(s, moves);
            && t < |z.commands| && HasFound(z, t, r) && z.inspect == s.inspect
            && z.commands[t].request == s.commands[t].request && z.commands[t].agentDid == s.commands[t].agentDid
            && (s.commands[t].phase.Over? || Save(t) in moves ==> z.commands[t].phase.Over?)
    decreases |moves|
  {
    if moves != [] {
      MoveKeepsFound(s, moves[0], t, r);
      MoveKeepsInv(s, moves[0]);
      RunKeepsFound(Apply(s, moves[0]), moves[1..], t, r);
    }
  }

  lemma SaveStores(s: System, t: nat)
    requires Inv(s) && Enabled(s, Save(t))
    ensures Apply(s, Save(t)).records == s.records[s.commands[t].agentDid := s.commands[t].phase.updated]
  {
    assert CommandOk(s, t);
    hide SingleFlight.Inv, SingleFlight.Apply, RecordsOk, CreatedOnce, StoredAs, CoversRequired, Merged, Accepted;
  }

  lemma OthersStoreNothing(s: System, move: Move, did: string)
    requires Inv(s) && Enabled(s, move) && !move.Save? && did in s.records
    ensures did in Apply(s, move).records && Apply(s, move).records[did] == s.records[did]
  {
    hide Apply, Inv, CommandOk;
    if move.Create? {
      var record := CreateFiles(s, move);
    } else {
      LocalMoveFrame(s, move);
    }
  }

  /** Only a save of an enrollment that exists changes it. */
  lemma MoveSaves(s: System, move: Move, did: string)
    requires Inv(s) && Enabled(s, move) && did in s.records
    ensures did in Apply(s, move).records
    ensures Apply(s, move).records[did] ==
            if IsSaveFor(s, move, did) then s.commands[move.t].phase.updated else s.records[did]
  {
    hide Apply, Inv, CommandOk;
    if move.Save? {
      SaveStores(s, move.t);
    } else {
      OthersStoreNothing(s, move, did);
    }
  }

  lemma {:induction false} StoredIsLastSaved(s: System, moves: seq<Move>, did: string)
    requires Inv(s) && Runs(s, moves) && did in s.records
    ensures did in After(s, moves).records
    ensures After(s, moves).records[did] == LastSaved(s, moves, did).GetOr(s.records[did])
    decreases |moves|
  {
    if moves != [] {
      MoveSaves(s, moves[0], did);
      MoveKeepsInv(s, moves[0]);
      StoredIsLastSaved(Apply(s, moves[0]), moves[1..], did);
    }
  }

  /** What a save stores, in terms of what its command found. */
  lemma SaveMeans(s: System, t: nat, id: string, name: string)
    requires Inv(s) && Enabled(s, Save(t))
    ensures var c := s.commands[t];
            var saved := Apply(s, Save(t)).records;
            && c.agentDid in saved
            && (id in saved[c.agentDid].acknowledged <==> id in c.phase.existing.acknowledged || Declares(s, t, id))
            && (!Supplies(s, t, name) ==> ClaimOf(saved[c.agentDid], name) == ClaimOf(c.phase.existing, name))
            && (Supplies(s, t, name) ==>
                  ClaimOf(saved[c.agentDid], name) == Some(s.commands[t].request.claims.value[name]))
  {
    assert CommandOk(s, t);
    var c := s.commands[t];
    hide SingleFlight.Inv, SingleFlight.Apply, RecordsOk, CreatedOnce;
    FreshMembers(s.inspect, c.phase.existing.acknowledged, Effective(s.inspect, c.request).acknowledged.GetOr([]), id);
  }

  /** An update that reads the enrollment at Find(t) and stores it at Save(t), with any moves in between. What is
      lost is settled by the last save of the same enrollment in between: an acknowledgement is lost if and only if
      that save stored it, the command had not found it, and does not declare it; a claim the command does not
      supply changes if and only if that save left it other than the command had found it. */
  lemma LostIff(s: System, t: nat, between: seq<Move>, id: string, name: string)
    requires Inv(s) && Enabled(s, Find(t)) && s.commands[t].agentDid in s.records
    requires Runs(Apply(s, Find(t)), between) && Enabled(After(Apply(s, Find(t)), between), Save(t))
    ensures Save(t) !in between
    ensures var did := s.commands[t].agentDid;
            var found := s.records[did];
            var z := After(Apply(s, Find(t)), between);
            var last := LastSaved(Apply(s, Find(t)), between, did);
            && did in z.records && did in Apply(z, Save(t)).records
            && var stored, saved := z.records[did], Apply(z, Save(t)).records[did];
               && (id in stored.acknowledged && id !in saved.acknowledged <==>
                     && last.Some? && id in last.value.acknowledged
                     && id !in found.acknowledged && !Declares(s, t, id))
               && (!Supplies(s, t, name) && ClaimOf(saved, name) != ClaimOf(stored, name) <==>
                     !Supplies(s, t, name) && last.Some? && ClaimOf(last.value, name) != ClaimOf(found, name))
               && (Supplies(s, t, name) ==> ClaimOf(saved, name) == Some(s.commands[t].request.claims.value[name]))
  {
    var did, s1 := s.commands[t].agentDid, Apply(s, Find(t));
    FoundAt(s, t);
    RunKeepsInv(s1, between);
    RunKeepsFound(s1, between, t, s.records[did]);
    StoredIsLastSaved(s1, between, did);
    hide Inv, Runs, After, LastSaved, Apply;
    SaveMeans(After(s1, between), t, id, name);
  }

  lemma FoundAt(s: System, t: nat)
    requires Inv(s) && Enabled(s, Find(t)) && s.commands[t].agentDid in s.records
    ensures var z := Apply(s, Find(t));
            && Inv(z) && z.records == s.records && z.inspect == s.inspect && |z.commands| == |s.commands|
            && HasFound(z, t, s.records[s.commands[t].agentDid])
            && z.commands[t].agentDid == s.commands[t].agentDid && z.commands[t].request == s.commands[t].request
  {
    MoveKeepsInv(s, Find(t));
    hide Inv;
  }

  /** When no other command saves the enrollment in between, everything stored survives an update. */
  lemma UndisturbedSaveLosesNothing(s: System, t: nat, between: seq<Move>, id: string, name: string)
    requires Inv(s) && Enabled(s, Find(t)) && s.commands[t].agentDid in s.records
    requires Runs(Apply(s, Find(t)), between) && Enabled(After(Apply(s, Find(t)), between), Save(t))
    requires forall move :: move in between ==> !IsSaveFor(s, move, s.commands[t].agentDid)
    ensures var did := s.commands[t].agentDid;
            var z := After(Apply(s, Find(t)), between);
            && did in z.records && z.records[did] == s.records[did] && did in Apply(z, Save(t)).records
            && var stored, saved := z.records[did], Apply(z, Save(t)).records[did];
               && (id in stored.acknowledged ==> id in saved.acknowledged)
               && (name in ClaimNames(stored.claims) ==> name in ClaimNames(saved.claims))
  {
    var did, s1 := s.commands[t].agentDid, Apply(s, Find(t));
    FoundAt(s, t);
    DidsStay(s, Find(t));
    NoneSaved(s1, between, did);
    StoredIsLastSaved(s1, between, did);
    hide Inv, Runs, After, LastSaved, Apply;
    LostIff(s, t, between, id, name);
  }

  lemma DidsStay(s: System, move: Move)
    requires Enabled(s, move)
    ensures var z := Apply(s, move);
            |z.commands| == |s.commands| && forall u :: 0 <= u < |s.commands| ==>
                z.commands[u].agentDid == s.commands[u].agentDid
  {
    hide SingleFlight.Apply, Update, Created, Lacking;
  }

  lemma {:induction false} NoneSaved(s: System, moves: seq<Move>, did: string)
    requires Runs(s, moves) && forall move :: move in moves ==> !IsSaveFor(s, move, did)
    ensures LastSaved(s, moves, did).None?
    decreases |moves|
  {
    if moves != [] {
      DidsStay(s, moves[0]);
      forall move | move in moves[1..] ensures !IsSaveFor(Apply(s, moves[0]), move, did) {
        assert move in moves;
        assert !IsSaveFor(s, move, did);
      }
      NoneSaved(Apply(s, moves[0]), moves[1..], did);
    }
  }

  /** Two commands for one enrolled Agent, at the given phases. */
  predicate Pair(s: System, did: string, first: Phase, second: Phase) {
    && |s.commands| == |s.flight.tasks| == 2 && did in s.records
    && s.commands[0].agentDid == s.commands[1].agentDid == did
    && s.commands[0].phase == first && s.commands[1].phase == second
  }

  lemma PairFinds(s: System, did: string)
    requires Pair(s, did, Finding, Finding) && s.flight.tasks[0].Asking? && s.flight.tasks[1].Asking?
    ensures Enabled(s, Find(0)) && Enabled(Apply(s, Find(0)), Find(1))
    ensures var z := Apply(Apply(s, Find(0)), Find(1));
            && Pair(z, did, Updating(s.records[did]), Updating(s.records[did])) && z.records == s.records
            && z.flight == s.flight && z.inspect == s.inspect
            && z.commands[0].request == s.commands[0].request && z.commands[1].request == s.commands[1].request
  {
  }

  lemma PairDecides(s: System, did: string, r: Record, a: Attempt, b: Attempt)
    requires Pair(s, did, Updating(r), Updating(r)) && s.flight.tasks[0].Asking? && s.flight.tasks[1].Asking?
    requires s.commands[0].request == a.request && s.commands[1].request == b.request
    requires Update(s.inspect, Effective(s.inspect, a.request), r, a.decision, a.now).Accept?
    requires Update(s.inspect, Effective(s.inspect, b.request), r, b.decision, b.now).Accept?
    ensures var m, n := Decide(0, a.decision, a.now), Decide(1, b.decision, b.now);
            && Enabled(s, m) && Enabled(Apply(s, m), n)
            && var z := Apply(Apply(s, m), n);
               && Pair(z, did, Saving(r, Update(s.inspect, Effective(s.inspect, a.request), r, a.decision,
                                                a.now).record),
                       Saving(r, Update(s.inspect, Effective(s.inspect, b.request), r, b.decision, b.now).record))
               && z.records == s.records && z.flight == s.flight
  {
  }

  lemma PairSaves(s: System, did: string, r: Record, first: Record, second: Record)
    requires Pair(s, did, Saving(r, first), Saving(r, second)) && s.flight.tasks[0].Asking? && s.flight.tasks[1].Asking?
    requires first.agentDid == second.agentDid == did
    ensures Enabled(s, Save(0)) && Enabled(Apply(s, Save(0)), Save(1))
    ensures var z := Apply(Apply(s, Save(0)), Save(1));
            Pair(z, did, Over(Success(first)), Over(Success(second))) && z.records == s.records[did := second]
  {
  }

  /** Two updates of one enrollment that both read it before either saves: the second save wins. */
  lemma SecondSaveWins(s: System, a: Attempt, b: Attempt, r: Record) returns (moves: seq<Move>)
    requires Pair(s, r.agentDid, Finding, Finding) && s.flight.tasks[0].Asking? && s.flight.tasks[1].Asking?
    requires s.records[r.agentDid] == r && s.commands[0].request == a.request && s.commands[1].request == b.request
    requires Update(s.inspect, Effective(s.inspect, a.request), r, a.decision, a.now).Accept?
    requires Update(s.inspect, Effective(s.inspect, b.request), r, b.decision, b.now).Accept?
    ensures Runs(s, moves)
    ensures var first := Update(s.inspect, Effective(s.inspect, a.request), r, a.decision, a.now).record;
            var second := Update(s.inspect, Effective(s.inspect, b.request), r, b.decision, b.now).record;
            && Pair(After(s, moves), r.agentDid, Over(Success(first)), Over(Success(second)))
            && After(s, moves).records == s.records[r.agentDid := second]
  {
    var first := Update(s.inspect, Effective(s.inspect, a.request), r, a.decision, a.now).record;
    var second := Update(s.inspect, Effective(s.inspect, b.request), r, b.decision, b.now).record;
    var m, n := Decide(0, a.decision, a.now), Decide(1, b.decision, b.now);
    PairFinds(s, r.agentDid);
    var s2 := Apply(Apply(s, Find(0)), Find(1));
    PairDecides(s2, r.agentDid, r, a, b);
    var s4 := Apply(Apply(s2, m), n);
    PairSaves(s4, r.agentDid, r, first, second);
    var last := [Save(0), Save(1)] + [];
    RunOfTwo(s4, Save(0), Save(1), []);
    RunOfTwo(s2, m, n, last);
    RunOfTwo(s, Find(0), Find(1), [m, n] + last);
    moves := [Find(0), Find(1)] + ([m, n] + last);
  }

  lemma RunOfTwo(s: System, m: Move, n: Move, rest: seq<Move>)
    requires Enabled(s, m) && Enabled(Apply(s, m), n) && Runs(Apply(Apply(s, m), n), rest)
    ensures Runs(s, [m, n] + rest) && After(s, [m, n] + rest) == After(Apply(Apply(s, m), n), rest)
  {
    hide Apply, Enabled;
    assert ([m, n] + rest)[1..] == [n] + rest && ([n] + rest)[1..] == rest;
  }

  /** Two commands of one Agent, each acknowledging one document, both answered with success; the
      acknowledgement of the first is gone. */
  lemma ConcurrentUpdatesLoseAcknowledgements() returns (s: System, moves: seq<Move>)
    ensures Init(s) && Runs(s, moves)
    ensures var z := After(s, moves);
            && |s.commands| == |z.commands| == 2 && s.commands[0].agentDid == s.commands[1].agentDid
            && s.commands[0].request.acknowledged == Some(["terms"]) && s.inspect.Knows("terms")
               && s.inspect.acceptsDocuments
            && z.commands[0].phase.Over? && z.commands[0].phase.result.Success?
            && z.commands[1].phase.Over? && z.commands[1].phase.result.Success?
            && s.commands[0].agentDid in z.records && z.records[s.commands[0].agentDid].acknowledged == ["privacy"]
  {
    hide Runs, After, Accepted, MissingIds;
    var did := "did:web:a";
    var r := Record(did, "e1", 0, 0, Active, None, [], [], false, [], [], 0);
    var inspect := Inspect([ServiceDocument("terms", true), ServiceDocument("privacy", true)], None, true);
    var terms, privacy := Acknowledging(did, "terms", 1), Acknowledging(did, "privacy", 2);
    AcknowledgingIsAccepted(inspect, r, 0, 1);
    AcknowledgingIsAccepted(inspect, r, 1, 2);
    s := Two(inspect, r, terms.request, privacy.request);
    moves := SecondSaveWins(s, terms, privacy, r);
  }

  function Acknowledging(did: string, id: string, now: int): Attempt {
    Attempt(Request(did, None, Some([id])), Decision(Activate, None, None, None, true), now)
  }

  function Two(inspect: Inspect, r: Record, first: Request, second: Request): System {
    System(inspect, State(map[], {}, 0, [Asking(r.agentDid), Asking(r.agentDid)]), map[r.agentDid := r],
           [Command(r.agentDid, first, Finding), Command(r.agentDid, second, Finding)], [])
  }

  lemma AcknowledgingIsAccepted(inspect: Inspect, r: Record, i: nat, now: int)
    requires i < |inspect.documents| && inspect.claims.None? && inspect.acceptsDocuments && r.acknowledged == []
    ensures var a := Acknowledging(r.agentDid, inspect.documents[i].id, now);
            var outcome := Update(inspect, Effective(inspect, a.request), r, a.decision, a.now);
            outcome.Accept? && outcome.record.acknowledged == [inspect.documents[i].id]
                && inspect.Knows(inspect.documents[i].id)
  {
    var id := inspect.documents[i].id;
    assert inspect.Knows(id);
    assert Fresh(inspect, [], [id]) == [id];
  }
}
