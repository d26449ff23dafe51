/** The idempotency stores of the Service and of the Platform, which are the same code up to the
    names of the request's fields: `owner` is the Agent DID or the principal, `command` the command
    or the Platform operation.

    Main result: however the calls interleave, what they return is what a sequential store would
    have returned, one call after another (`RunIsSequential`); the properties of the store are then
    read off that sequential log. */
module Idempotency {
  import opened Prelude
  import opened SingleFlight

  const RETENTION: int := 3600

  type Slot = (string, string)

  datatype Request = Request(owner: string, command: string, key: string, hash: string)
  {
    function Slot(): Slot { (owner, key) }
    predicate WellFormed() { owner != "" && command != "" && key != "" && hash != "" }
    predicate SameOperation(other: Request) { command == other.command && hash == other.hash }
  }

  datatype Response = Response(payload: string, createdAt: int)

  type Records = map<Slot, (Request, Response)>

  /** What one pass through the lookup block comes to; `Absent` when the caller must claim the slot. */
  datatype Found<E> = Conflict | Replayed(response: Response) | Wait(event: E) | Absent

  function Purged(records: Records, now: int): Records {
    map slot | slot in records && records[slot].1.createdAt >= now - RETENTION :: records[slot]
  }

  function Look<E>(records: Records, pending: map<Slot, E>, request: Request): Found<E> {
    if request.Slot() in records then
      var (previous, response) := records[request.Slot()];
      if !previous.SameOperation(request) then Conflict else Replayed(response)
    else if request.Slot() in pending then Wait(pending[request.Slot()])
    else Absent
  }

  /** What `execute` returns; `Raised` when the operation raised, `Refused` for an invalid input. */
  datatype Outcome = Created(response: Response) | Replay(response: Response) | Clash | Raised | Refused

  datatype Entry = Decided(outcome: Outcome) | Blocked(event: Event) | Claimed(event: Event)

  class MemoryIdempotencyStore {
    var records: Records
    var pending: map<Slot, Event>

    constructor ()
      ensures records == map[] && pending == map[]
    {
      records, pending := map[], map[];
    }

    /** The first block under the lock. */
    method Enter(request: Request, now: int) returns (entry: Entry)
      modifies this
      ensures var blank := request.owner == "" || request.command == "" || request.key == "" || request.hash == "";
              var slot := (request.owner, request.key);
              && records == (if blank then old(records) else Purged(old(records), now))
              && if blank then entry == Decided(Refused) && pending == old(pending)
                 else if slot in records then
                   var (previous, response) := records[slot];
                   && pending == old(pending)
                   && entry == Decided(if previous.command == request.command && previous.hash == request.hash
                                       then Replay(response) else Clash)
                 else if slot in old(pending) then entry == Blocked(old(pending)[slot]) && pending == old(pending)
                 else
                   entry.Claimed? && fresh(entry.event) && !entry.event.isSet &&
                   pending == old(pending)[slot := entry.event]
    {
      if !request.WellFormed() {
        return Decided(Refused);
      }
      records := Purged(records, now);
      var slot := request.Slot();
      if slot in records {
        var (previous, response) := records[slot];
        if previous.command != request.command || previous.hash != request.hash {
          return Decided(Clash);
        }
        return Decided(Replay(response));
      }
      if slot in pending {
        return Blocked(pending[slot]);
      }
      var event := new Event();
      pending := pending[slot := event];
      return Claimed(event);
    }

    /** The block that stores the operation's response. */
    method Publish(request: Request, response: Response)
      modifies this`records
      ensures records == old(records)[(request.owner, request.key) := (request, response)]
    {
      records := records[request.Slot() := (request, response)];
    }

    /** The block in `finally`. */
    method Release(slot: Slot)
      requires slot in pending
      modifies this`pending, pending[slot]
      ensures pending == old(pending) - {slot} && old(pending)[slot].isSet
    {
      var event := pending[slot];
      pending := pending - {slot};
      event.Set();
    }

    /** A call that is not interrupted by another one: it decides, or it has to wait for the call that owns the slot.
        `reply` is what the operation returns, None if it raises. */
    method Execute(request: Request, now: int, reply: Option<Response>) returns (entry: Entry)
      modifies this
      ensures pending == old(pending)
      ensures var kept, slot := Purged(old(records), now), (request.owner, request.key);
              if request.owner == "" || request.command == "" || request.key == "" || request.hash == "" then
                entry == Decided(Refused) && records == old(records)
              else if slot in kept then
                var (previous, response) := kept[slot];
                && records == kept
                && entry == Decided(if previous.command == request.command && previous.hash == request.hash
                                    then Replay(response) else Clash)
              else if slot in old(pending) then records == kept && entry == Blocked(old(pending)[slot])
              else if reply.None? then records == kept && entry == Decided(Raised)
              else records == kept[slot := (request, reply.value)] && entry == Decided(Created(reply.value))
    {
      entry := Enter(request, now);
      if entry.Claimed? {
        if reply.Some? {
          Publish(request, reply.value);
          entry := Decided(Created(reply.value));
        } else {
          entry := Decided(Raised);
        }
        Release(request.Slot());
      }
    }
  }

  // ---- the sequential store, as a log of calls ----

  /** One call as the sequential store sees it: `asked` is the clock at its lookup. */
  datatype LogEntry = LogEntry(task: nat, request: Request, asked: int, outcome: Outcome)

  /** The response of the last CREATED call of a slot. */
  function Latest(log: seq<LogEntry>, slot: Slot): Option<(Request, Response)> {
    if log == [] then None
    else
      var last := log[|log| - 1];
      if last.outcome.Created? && last.request.Slot() == slot
      then Some((last.request, last.outcome.response))
      else Latest(log[..|log| - 1], slot)
  }

  function Retained(log: seq<LogEntry>, slot: Slot, asked: int): Option<(Request, Response)> {
    var latest := Latest(log, slot);
    if latest.Some? && latest.value.1.createdAt >= asked - RETENTION then latest else None
  }

  /** What a sequential idempotency map answers after `log`. */
  predicate Allows(log: seq<LogEntry>, entry: LogEntry) {
    var retained := Retained(log, entry.request.Slot(), entry.asked);
    match entry.outcome
    case Created(response) => retained.None? && entry.asked <= response.createdAt
    case Raised => retained.None?
    case Replay(response) =>
      retained.Some? && retained.value.0.SameOperation(entry.request) && response == retained.value.1
    case Clash => retained.Some? && !retained.value.0.SameOperation(entry.request)
    case Refused => false
  }

  ghost predicate Sequential(log: seq<LogEntry>) {
    forall i :: 0 <= i < |log| ==> Allows(log[..i], log[i])
  }

  // ---- the interleaved store ----

  /** One call of `execute`: `asked` is the clock when it claimed its slot, `reply` what its operation
      returned, `outcome` what it is going to return. */
  datatype Call = Call(request: Request, asked: int, reply: Option<Response>, outcome: Option<Outcome>)

  datatype System = System(clock: int, flight: State<Slot>, records: Records, calls: seq<Call>, log: seq<LogEntry>)

  /** Enter: a pass through the lookup block. Reply: the operation returns and is stamped with the
      clock. Publish, Raise, Leave: the rest of the owner's path. Tick: time passes. */
  datatype Move =
    | Tick(to: int)
    | Enter(t: nat)
    | Retry(t: nat)
    | Reply(t: nat, payload: string)
    | Publish(t: nat)
    | Raise(t: nat)
    | Leave(t: nat)

  predicate Enabled(s: System, move: Move) {
    if move.Tick? then s.clock <= move.to
    else
      && move.t < |s.calls| == |s.flight.tasks|
      && var pc := s.flight.tasks[move.t];
         match move
         case Enter(_) => pc.Asking? && pc.key == s.calls[move.t].request.Slot()
         case Retry(_) => SingleFlight.Enabled(s.flight, Wake(move.t))
         case Reply(_, _) => pc.Running? && s.calls[move.t].reply.None?
         case Publish(_) => pc.Running? && s.calls[move.t].reply.Some?
         case Raise(_) => pc.Running? && s.calls[move.t].reply.None?
         case Leave(_) => SingleFlight.Enabled(s.flight, Release(move.t))
  }

  /** The call decides its outcome, and the sequential log gets its entry. */
  function Decide(s: System, t: nat, asked: int, outcome: Outcome): System
    requires t < |s.calls|
  {
    var call := s.calls[t];
    s.(calls := s.calls[t := call.(outcome := Some(outcome))],
       log := s.log + [LogEntry(t, call.request, asked, outcome)])
  }

  function Entered(s: System, t: nat): System
    requires Enabled(s, Enter(t))
  {
    var call := s.calls[t];
    if !call.request.WellFormed() then
      s.(flight := SingleFlight.Apply(s.flight, Hit(t)), calls := s.calls[t := call.(outcome := Some(Refused))])
    else
      var z := s.(records := Purged(s.records, s.clock));
      match Look(z.records, z.flight.pending, call.request)
      case Conflict => Decide(z.(flight := SingleFlight.Apply(z.flight, Hit(t))), t, s.clock, Clash)
      case Replayed(r) => Decide(z.(flight := SingleFlight.Apply(z.flight, Hit(t))), t, s.clock, Replay(r))
      case Wait(_) => z.(flight := SingleFlight.Apply(z.flight, Join(t)))
      case Absent => z.(flight := SingleFlight.Apply(z.flight, Claim(t)),
                   calls := z.calls[t := call.(asked := s.clock)])
  }

  function Apply(s: System, move: Move): System
    requires Enabled(s, move)
  {
    match move
    case Tick(to) => s.(clock := to)
    case Enter(t) => Entered(s, t)
    case Retry(t) => s.(flight := SingleFlight.Apply(s.flight, Wake(t)))
    case Reply(t, payload) =>
      s.(calls := s.calls[t := s.calls[t].(reply := Some(Response(payload, s.clock)))])
    case Publish(t) =>
      var call := s.calls[t];
      var z := s.(records := s.records[call.request.Slot() := (call.request, call.reply.value)],
                  flight := SingleFlight.Apply(s.flight, Settle(t)));
      Decide(z, t, call.asked, Created(call.reply.value))
    case Raise(t) =>
      Decide(s.(flight := SingleFlight.Apply(s.flight, Settle(t))), t, s.calls[t].asked, Raised)
    case Leave(t) => s.(flight := SingleFlight.Apply(s.flight, Release(t)))
  }

  /** Any number of calls about to start, on an empty store. */
  ghost predicate Init(s: System) {
    && SingleFlight.Init(s.flight) && s.records == map[] && s.log == []
    && |s.calls| == |s.flight.tasks|
    && forall t :: 0 <= t < |s.calls| ==>
         s.flight.tasks[t].key == s.calls[t].request.Slot() && s.calls[t].reply.None? && s.calls[t].outcome.None?
  }

  predicate Runs(s: System, moves: seq<Move>)
    decreases |moves|
  {
    moves == [] || (Enabled(s, moves[0]) && Runs(Apply(s, moves[0]), moves[1..]))
  }

  function After(s: System, moves: seq<Move>): System
    requires Runs(s, moves)
    decreases |moves|
  {
    if moves == [] then s else After(Apply(s, moves[0]), moves[1..])
  }

  // ---- the invariant ----

  /** A claimed slot whose operation has not been published is free, and was free when claimed. */
  predicate OwnerFoundNothing(s: System, t: nat)
    requires t < |s.calls|
  {
    var call := s.calls[t];
    && call.request.Slot() !in s.records
    && Retained(s.log, call.request.Slot(), call.asked).None?
    && call.asked <= s.clock
    && (call.reply.Some? ==> call.asked <= call.reply.value.createdAt <= s.clock)
  }

  predicate CallOk(s: System, t: nat)
    requires t < |s.calls| == |s.flight.tasks|
  {
    var call, pc := s.calls[t], s.flight.tasks[t];
    && (!pc.Done? ==> pc.key == call.request.Slot())
    && (pc.Running? ==> OwnerFoundNothing(s, t))
    && ((pc.Asking? || pc.Waiting?) ==> call.reply.None?)
    && (call.outcome.Some? <==> pc.Settled? || pc.Done?)
  }

  /** The store holds the last CREATED response of every slot, minus some that have expired. */
  ghost predicate RecordsMatchLog(s: System) {
    forall slot: Slot ::
      if slot in s.records then Latest(s.log, slot) == Some(s.records[slot])
      else Retained(s.log, slot, s.clock).None?
  }

  /** The log lists exactly the calls that have decided, once each, with what they return. */
  ghost predicate LogMatchesCalls(s: System) {
    && (forall i :: 0 <= i < |s.log| ==>
         s.log[i].task < |s.calls| && s.calls[s.log[i].task].outcome == Some(s.log[i].outcome)
         && s.calls[s.log[i].task].request == s.log[i].request)
    && (forall i, j :: 0 <= i < j < |s.log| ==> s.log[i].task != s.log[j].task)
    && (forall t :: 0 <= t < |s.calls| && s.calls[t].outcome.Some? && !s.calls[t].outcome.value.Refused? ==>
         exists i :: 0 <= i < |s.log| && s.log[i].task == t)
  }

  ghost predicate Inv(s: System) {
    && SingleFlight.Inv(s.flight)
    && |s.calls| == |s.flight.tasks|
    && (forall t :: 0 <= t < |s.calls| ==> CallOk(s, t))
    && RecordsMatchLog(s)
    && LogMatchesCalls(s)
    && Sequential(s.log)
  }

  /** Only a CREATED entry of the slot changes what the log says about it. */
  lemma LatestOfAppend(log: seq<LogEntry>, entry: LogEntry, slot: Slot)
    ensures Latest(log + [entry], slot) ==
            if entry.outcome.Created? && entry.request.Slot() == slot
            then Some((entry.request, entry.outcome.response)) else Latest(log, slot)
  {
    assert (log + [entry])[..|log|] == log;
  }

  lemma AppendKeepsSequential(log: seq<LogEntry>, entry: LogEntry)
    requires Sequential(log) && Allows(log, entry)
    ensures Sequential(log + [entry])
  {
    var longer := log + [entry];
    forall i | 0 <= i < |longer| ensures Allows(longer[..i], longer[i]) {
      if i < |log| {
        assert longer[..i] == log[..i];
      } else {
        assert longer[..i] == log;
      }
    }
  }

  lemma DecideKeepsLog(s: System, t: nat, asked: int, outcome: Outcome)
    requires t < |s.calls| && s.calls[t].outcome.None? && LogMatchesCalls(s) && !outcome.Refused?
    ensures LogMatchesCalls(Decide(s, t, asked, outcome))
  {
    var z := Decide(s, t, asked, outcome);
    assert z.log[|s.log|].task == t;
    forall u | 0 <= u < |z.calls| && z.calls[u].outcome.Some? && !z.calls[u].outcome.value.Refused?
      ensures exists i :: 0 <= i < |z.log| && z.log[i].task == u
    {
      if u != t {
        var i :| 0 <= i < |s.log| && s.log[i].task == u;
        assert z.log[i].task == u;
      }
    }
  }

  lemma RefusalKeepsLog(s: System, t: nat)
    requires t < |s.calls| && s.calls[t].outcome.None? && LogMatchesCalls(s)
    ensures LogMatchesCalls(s.(calls := s.calls[t := s.calls[t].(outcome := Some(Refused))]))
  {
  }

  /** A call that neither moved nor saw its slot's log or record grow is as it was. */
  lemma CallStays(s: System, z: System, t: nat)
    requires t < |s.calls| == |s.flight.tasks| == |z.calls| == |z.flight.tasks| && CallOk(s, t)
    requires z.calls[t] == s.calls[t] && z.flight.tasks[t] == s.flight.tasks[t] && s.clock <= z.clock
    requires s.flight.tasks[t].Running? ==>
               var slot := s.calls[t].request.Slot();
               slot !in z.records && Latest(z.log, slot) == Latest(s.log, slot)
    ensures CallOk(z, t)
  {
  }

  lemma EnterKeepsInv(s: System, t: nat)
    requires Inv(s) && Enabled(s, Enter(t))
    ensures Inv(Entered(s, t))
  {
    assert CallOk(s, t);
    var call := s.calls[t];
    if !call.request.WellFormed() {
      RefusalKeepsInv(s, t);
    } else {
      match Look(Purged(s.records, s.clock), s.flight.pending, call.request)
      case Wait(_) => BlockKeepsInv(s, t);
      case Absent => ClaimKeepsInv(s, t);
      case Conflict => AnswerKeepsInv(s, t, Clash);
      case Replayed(r) => AnswerKeepsInv(s, t, Replay(r));
    }
  }

  lemma RefusalKeepsInv(s: System, t: nat)
    requires Inv(s) && Enabled(s, Enter(t)) && !s.calls[t].request.WellFormed()
    ensures Inv(Entered(s, t))
  {
    SingleFlight.StepKeepsInv(s.flight, Hit(t));
    assert CallOk(s, t);
    RefusalKeepsLog(s, t);
    forall u | 0 <= u < |s.calls| ensures CallOk(Entered(s, t), u) {
      assert CallOk(s, u);
      if u != t { CallStays(s, Entered(s, t), u); }
    }
  }

  lemma BlockKeepsInv(s: System, t: nat)
    requires Inv(s) && Enabled(s, Enter(t)) && s.calls[t].request.WellFormed()
    requires Look(Purged(s.records, s.clock), s.flight.pending, s.calls[t].request).Wait?
    ensures Inv(Entered(s, t))
  {
    SingleFlight.StepKeepsInv(s.flight, Join(t));
    forall u | 0 <= u < |s.calls| ensures CallOk(Entered(s, t), u) {
      assert CallOk(s, u);
      if u != t { CallStays(s, Entered(s, t), u); }
    }
  }

  lemma ClaimKeepsInv(s: System, t: nat)
    requires Inv(s) && Enabled(s, Enter(t)) && s.calls[t].request.WellFormed()
    requires Look(Purged(s.records, s.clock), s.flight.pending, s.calls[t].request).Absent?
    ensures Inv(Entered(s, t))
  {
    SingleFlight.StepKeepsInv(s.flight, Claim(t));
    assert Retained(s.log, s.calls[t].request.Slot(), s.clock).None?;
    forall u | 0 <= u < |s.calls| ensures CallOk(Entered(s, t), u) {
      assert CallOk(s, u);
      if u != t { CallStays(s, Entered(s, t), u); }
    }
  }

  /** The state after a call was answered from the records. */
  function Answered(s: System, t: nat, outcome: Outcome): System
    requires Enabled(s, Enter(t))
  {
    Decide(s.(records := Purged(s.records, s.clock), flight := SingleFlight.Apply(s.flight, Hit(t))), t, s.clock,
           outcome)
  }

  lemma AnsweredRecords(s: System, t: nat, outcome: Outcome)
    requires RecordsMatchLog(s) && Enabled(s, Enter(t)) && !outcome.Created?
    ensures RecordsMatchLog(Answered(s, t, outcome))
    ensures forall slot: Slot :: Latest(Answered(s, t, outcome).log, slot) == Latest(s.log, slot)
  {
    forall slot: Slot ensures Latest(Answered(s, t, outcome).log, slot) == Latest(s.log, slot) {
      LatestOfAppend(s.log, LogEntry(t, s.calls[t].request, s.clock, outcome), slot);
    }
  }

  lemma AnsweredCalls(s: System, t: nat, outcome: Outcome)
    requires Inv(s) && Enabled(s, Enter(t)) && !outcome.Created?
    ensures var z := Answered(s, t, outcome);
            |z.calls| == |z.flight.tasks| == |s.calls| && forall u :: 0 <= u < |z.calls| ==> CallOk(z, u)
  {
    var z := Answered(s, t, outcome);
    AnsweredRecords(s, t, outcome);
    hide RecordsMatchLog, LogMatchesCalls, Sequential, Latest;
    assert CallOk(s, t);
    forall u | 0 <= u < |s.calls| ensures CallOk(z, u) {
      assert CallOk(s, u);
      if u != t { CallStays(s, z, u); }
    }
  }

  lemma AnswerKeepsInv(s: System, t: nat, outcome: Outcome)
    requires Inv(s) && Enabled(s, Enter(t)) && s.calls[t].request.WellFormed()
    requires var found := Look(Purged(s.records, s.clock), s.flight.pending, s.calls[t].request);
             (found.Conflict? && outcome == Clash) || (found.Replayed? && outcome == Replay(found.response))
    ensures Inv(Entered(s, t))
  {
    assert Entered(s, t) == Answered(s, t, outcome);
    assert CallOk(s, t);
    assert Allows(s.log, LogEntry(t, s.calls[t].request, s.clock, outcome));
    hide Entered, Look, CallOk, RecordsMatchLog, LogMatchesCalls, Sequential, SingleFlight.Inv, Purged, Allows;
    SingleFlight.StepKeepsInv(s.flight, Hit(t));
    AnswerKeepsLog(s, t, outcome);
    AnsweredRecords(s, t, outcome);
    AnsweredCalls(s, t, outcome);
  }

  /** A replay or a conflict is what the log calls for. */
  lemma AnswerKeepsLog(s: System, t: nat, outcome: Outcome)
    requires Inv(s) && t < |s.calls| && s.calls[t].outcome.None? && (outcome.Clash? || outcome.Replay?)
    requires Allows(s.log, LogEntry(t, s.calls[t].request, s.clock, outcome))
    ensures var z := Decide(s, t, s.clock, outcome); LogMatchesCalls(z) && Sequential(z.log)
  {
    hide Allows, Sequential;
    DecideKeepsLog(s, t, s.clock, outcome);
    AppendKeepsSequential(s.log, LogEntry(t, s.calls[t].request, s.clock, outcome));
  }

  ghost predicate IsOwnerDecision(s: System, t: nat, outcome: Outcome, move: Move)
    requires Enabled(s, move)
  {
    || (move == Publish(t) && outcome == Created(s.calls[t].reply.value))
    || (move == Raise(t) && outcome == Raised)
  }

  lemma OwnerDecisionRecords(s: System, t: nat, outcome: Outcome, move: Move)
    requires Inv(s) && Enabled(s, move) && IsOwnerDecision(s, t, outcome, move)
    ensures RecordsMatchLog(Apply(s, move))
    ensures forall slot: Slot :: slot != s.calls[t].request.Slot() ==>
            Latest(Apply(s, move).log, slot) == Latest(s.log, slot)
  {
    assert CallOk(s, t);
    hide Sequential, LogMatchesCalls, SingleFlight.Inv;
    var entry := LogEntry(t, s.calls[t].request, s.calls[t].asked, outcome);
    forall other: Slot { LatestOfAppend(s.log, entry, other); }
  }

  lemma OwnerDecisionCalls(s: System, t: nat, outcome: Outcome, move: Move)
    requires Inv(s) && Enabled(s, move) && IsOwnerDecision(s, t, outcome, move)
    ensures var z := Apply(s, move);
            |z.calls| == |z.flight.tasks| == |s.calls| && forall u :: 0 <= u < |z.calls| ==> CallOk(z, u)
  {
    var z := Apply(s, move);
    assert CallOk(s, t);
    OwnerDecisionRecords(s, t, outcome, move);
    hide Sequential, LogMatchesCalls, RecordsMatchLog;
    forall u | 0 <= u < |z.calls| ensures CallOk(z, u) {
      if u != t {
        assert CallOk(s, u);
        if s.flight.tasks[u].Running? { assert s.flight.tasks[u].key != s.flight.tasks[t].key; }
        CallStays(s, z, u);
      }
    }
  }

  lemma OwnerDecisionLog(s: System, t: nat, outcome: Outcome, move: Move)
    requires Inv(s) && Enabled(s, move) && IsOwnerDecision(s, t, outcome, move)
    ensures LogMatchesCalls(Apply(s, move)) && Sequential(Apply(s, move).log)
  {
    assert CallOk(s, t);
    assert Allows(s.log, LogEntry(t, s.calls[t].request, s.calls[t].asked, outcome));
    hide CallOk, RecordsMatchLog, Sequential, Allows, Latest, SingleFlight.Inv;
    DecideKeepsLog(s, t, s.calls[t].asked, outcome);
    AppendKeepsSequential(s.log, LogEntry(t, s.calls[t].request, s.calls[t].asked, outcome));
  }

  lemma OwnerDecisionKeepsInv(s: System, t: nat, outcome: Outcome, move: Move)
    requires Inv(s) && Enabled(s, move) && IsOwnerDecision(s, t, outcome, move)
    ensures Inv(Apply(s, move))
  {
    hide CallOk, RecordsMatchLog, LogMatchesCalls, Sequential, SingleFlight.Inv;
    SingleFlight.StepKeepsInv(s.flight, Settle(t));
    OwnerDecisionLog(s, t, outcome, move);
    OwnerDecisionRecords(s, t, outcome, move);
    OwnerDecisionCalls(s, t, outcome, move);
  }

  lemma MoveKeepsInv(s: System, move: Move)
    requires Inv(s) && Enabled(s, move)
    ensures Inv(Apply(s, move))
  {
    match move
    case Enter(t) => EnterKeepsInv(s, t);
    case Publish(t) => OwnerDecisionKeepsInv(s, t, Created(s.calls[t].reply.value), move);
    case Raise(t) => OwnerDecisionKeepsInv(s, t, Raised, move);
    case _ => QuietMoveKeepsInv(s, move);
  }

  lemma QuietMoveKeepsInv(s: System, move: Move)
    requires Inv(s) && Enabled(s, move) && (move.Tick? || move.Retry? || move.Leave? || move.Reply?)
    ensures Inv(Apply(s, move))
  {
    var z := Apply(s, move);
    if move.Retry? { SingleFlight.StepKeepsInv(s.flight, Wake(move.t)); }
    if move.Leave? { SingleFlight.StepKeepsInv(s.flight, Release(move.t)); }
    forall u | 0 <= u < |z.calls| ensures CallOk(z, u) {
      assert CallOk(s, u);
      if move.Tick? || u != move.t { CallStays(s, z, u); }
    }
  }

  lemma {:induction false} RunKeepsInv(s: System, moves: seq<Move>)
    requires Inv(s) && Runs(s, moves)
    ensures Inv(After(s, moves))
    decreases |moves|
  {
    if moves != [] {
      MoveKeepsInv(s, moves[0]);
      RunKeepsInv(Apply(s, moves[0]), moves[1..]);
    }
  }

  /** Every interleaving answers like the sequential store: its log is a sequential history in which
      each decided call appears once, with the outcome that call returns. */
  lemma RunIsSequential(s: System, moves: seq<Move>)
    requires Init(s) && Runs(s, moves)
    ensures Sequential(After(s, moves).log) && LogMatchesCalls(After(s, moves))
  {
    RunKeepsInv(s, moves);
  }

  /** The log only grows, so a call that finished before another one started also precedes it there. */
  lemma {:induction false} LogGrows(s: System, moves: seq<Move>)
    requires Runs(s, moves)
    ensures s.log <= After(s, moves).log
    decreases |moves|
  {
    if moves != [] { LogGrows(Apply(s, moves[0]), moves[1..]); }
  }

  lemma UnfinishedCanMove(s: System, t: nat) returns (move: Move)
    requires Inv(s) && t < |s.calls| && !s.flight.tasks[t].Done?
    ensures Enabled(s, move) && !move.Tick?
  {
    var step := SingleFlight.NeverStuck(s.flight, t);
    assert CallOk(s, step.t);
    match step
    case Settle(u) => move := if s.calls[u].reply.Some? then Publish(u) else Raise(u);
    case Wake(u) => move := Retry(u);
    case Release(u) => move := Leave(u);
    case Hit(u) => move := Enter(u);
    case Join(u) => move := Enter(u);
    case Claim(u) => move := Enter(u);
  }

  /** While a call is unfinished something other than the clock can move. */
  lemma NeverStuck(s: System, moves: seq<Move>, t: nat) returns (move: Move)
    requires Init(s) && Runs(s, moves) && t < |s.calls|
    requires var z := After(s, moves); t < |z.flight.tasks| && !z.flight.tasks[t].Done?
    ensures Enabled(After(s, moves), move) && !move.Tick?
  {
    RunKeepsInv(s, moves);
    hide Init, Runs, Enabled;
    move := UnfinishedCanMove(After(s, moves), t);
  }

  /** One for every call whose operation has not returned. */
  function Unreplied(s: System): seq<nat> {
    seq(|s.calls|, t requires 0 <= t < |s.calls| => if s.calls[t].reply.None? then 1 else 0)
  }

  function Fuel(s: System): nat {
    SingleFlight.Fuel(s.flight) + Sum(Unreplied(s))
  }

  function CallMoves(moves: seq<Move>): nat {
    if moves == [] then 0 else (if moves[0].Tick? then 0 else 1) + CallMoves(moves[1..])
  }

  /** The step of the claim protocol behind a move of a call; a reply takes none. */
  function StepOf(s: System, move: Move): Step
    requires Enabled(s, move) && !move.Tick? && !move.Reply?
  {
    match move
    case Enter(t) =>
      var request := s.calls[t].request;
      if !request.WellFormed() then Hit(t)
      else
        (match Look(Purged(s.records, s.clock), s.flight.pending, request)
         case Conflict => Hit(t)
         case Replayed(_) => Hit(t)
         case Wait(_) => Join(t)
         case Absent => Claim(t))
    case Retry(t) => Wake(t)
    case Leave(t) => Release(t)
    case Publish(t) => Settle(t)
    case Raise(t) => Settle(t)
  }

  lemma MoveIsStep(s: System, move: Move)
    requires Inv(s) && Enabled(s, move) && !move.Tick? && !move.Reply?
    ensures var z := Apply(s, move);
            && SingleFlight.Enabled(s.flight, StepOf(s, move))
               && z.flight == SingleFlight.Apply(s.flight, StepOf(s, move))
            && |z.calls| == |s.calls| && forall u :: 0 <= u < |s.calls| ==> z.calls[u].reply == s.calls[u].reply
  {
    assert CallOk(s, move.t);
    hide RecordsMatchLog, LogMatchesCalls, Sequential, SingleFlight.Inv, SingleFlight.Apply, Purged;
  }

  lemma MoveBurnsFuel(s: System, move: Move)
    requires Inv(s) && Enabled(s, move)
    ensures if move.Tick? then Fuel(Apply(s, move)) == Fuel(s) else Fuel(Apply(s, move)) < Fuel(s)
  {
    var z := Apply(s, move);
    if move.Tick? {
    } else if move.Reply? {
      assert Unreplied(z) == Unreplied(s)[move.t := 0];
      SumOfUpdate(Unreplied(s), move.t, 0);
    } else {
      MoveIsStep(s, move);
      hide Apply, StepOf, RecordsMatchLog, LogMatchesCalls, Sequential, CallOk, SingleFlight.Inv, SingleFlight.Fuel;
      StepBurnsFuel(s.flight, StepOf(s, move));
      assert Unreplied(z) == Unreplied(s);
    }
  }

  lemma {:induction false} RunBurnsFuel(s: System, moves: seq<Move>)
    requires Inv(s) && Runs(s, moves)
    ensures CallMoves(moves) + Fuel(After(s, moves)) <= Fuel(s)
    decreases |moves|
  {
    if moves != [] {
      MoveBurnsFuel(s, moves[0]);
      MoveKeepsInv(s, moves[0]);
      hide Fuel, Apply, Inv;
      RunBurnsFuel(Apply(s, moves[0]), moves[1..]);
    }
  }

  lemma FuelBound(s: System)
    requires Init(s)
    ensures Fuel(s) <= 4 * |s.calls| * (|s.calls| + 1) + |s.calls|
  {
    FuelIsBounded(s.flight);
    SumIsBounded(Unreplied(s), 1);
  }

  /** Among n calls no interleaving takes more than 4n(n + 1) + n moves of calls, however the clock ticks in between,
      and one in which only the clock can move has decided every call. */
  lemma EveryCallCompletes(s: System, moves: seq<Move>)
    requires Init(s) && Runs(s, moves)
    ensures CallMoves(moves) <= 4 * |s.calls| * (|s.calls| + 1) + |s.calls|
    ensures (forall move :: Enabled(After(s, moves), move) ==> move.Tick?) ==>
            forall t :: 0 <= t < |After(s, moves).calls| ==> After(s, moves).calls[t].outcome.Some?
  {
    InitIsInv(s);
    RunBurnsFuel(s, moves);
    FuelBound(s);
    RunKeepsInv(s, moves);
    hide Init, Runs, Fuel, Inv, Enabled;
    if forall move :: Enabled(After(s, moves), move) ==> move.Tick? {
      StuckIsDecided(After(s, moves));
    }
  }

  lemma StuckIsDecided(s: System)
    requires Inv(s) && forall move :: Enabled(s, move) ==> move.Tick?
    ensures forall t :: 0 <= t < |s.calls| ==> s.calls[t].outcome.Some?
  {
    hide Enabled;
    forall t | 0 <= t < |s.calls| && s.calls[t].outcome.None? ensures exists move :: Enabled(s, move) && !move.Tick? {
      assert CallOk(s, t);
      var move := UnfinishedCanMove(s, t);
    }
  }

  lemma InitIsInv(s: System)
    requires Init(s)
    ensures Inv(s)
  {
  }

  // ---- what a sequential log means ----

  predicate IsCreation(log: seq<LogEntry>, j: int, slot: Slot) {
    0 <= j < |log| && log[j].outcome.Created? && log[j].request.Slot() == slot
  }

  lemma {:induction false} LatestIsLast(log: seq<LogEntry>, slot: Slot) returns (j: int)
    ensures -1 <= j < |log| && (forall k :: j < k < |log| ==> !IsCreation(log, k, slot))
    ensures if j < 0 then Latest(log, slot).None?
            else IsCreation(log, j, slot) && Latest(log, slot) == Some((log[j].request, log[j].outcome.response))
    decreases |log|
  {
    if log == [] {
      j := -1;
    } else if IsCreation(log, |log| - 1, slot) {
      j := |log| - 1;
    } else {
      var shorter := log[..|log| - 1];
      j := LatestIsLast(shorter, slot);
      forall k | j < k < |log| ensures !IsCreation(log, k, slot) {
        if k < |shorter| { assert !IsCreation(shorter, k, slot); }
      }
    }
  }

  /** Entry j is the call whose response a call for `request` at that time is answered with: the last successful run
      with the same owner and the same key, if it is within the hour. */
  ghost predicate Precedent(log: seq<LogEntry>, request: Request, asked: int, j: int) {
    && 0 <= j < |log| && RunFor(log[j], request.owner, request.key)
    && (forall k :: j < k < |log| ==> !RunFor(log[k], request.owner, request.key))
    && asked - RETENTION <= log[j].outcome.response.createdAt
  }

  /** A successful run of an operation for that owner under that key. */
  predicate RunFor(entry: LogEntry, owner: string, key: string) {
    entry.outcome.Created? && entry.request.owner == owner && entry.request.key == key
  }

  lemma RetainedIsPrecedent(log: seq<LogEntry>, request: Request, asked: int)
    ensures Retained(log, request.Slot(), asked).None? <==> forall j :: !Precedent(log, request, asked, j)
    ensures forall j :: Precedent(log, request, asked, j) ==>
              Retained(log, request.Slot(), asked) == Some((log[j].request, log[j].outcome.response))
  {
    var last := LatestIsLast(log, request.Slot());
    forall k | 0 <= k < |log| ensures RunFor(log[k], request.owner, request.key) <==>
                                      IsCreation(log, k, request.Slot())
    {
    }
    if Retained(log, request.Slot(), asked).Some? { assert Precedent(log, request, asked, last); }
    forall j | Precedent(log, request, asked, j) ensures j == last { }
  }

  /** What each call in a history is answered with: an operation runs exactly when no run with the same owner and the
      same key precedes it within the hour; otherwise that run's response is replayed if command and hash are the
      same, and there is a conflict if one of them is not. */
  lemma AnswersMean(log: seq<LogEntry>, i: nat)
    requires Sequential(log) && i < |log|
    ensures var past, e := log[..i], log[i];
            && !e.outcome.Refused?
            && (e.outcome.Created? || e.outcome.Raised? <==> forall j :: !Precedent(past, e.request, e.asked, j))
            && forall j :: Precedent(past, e.request, e.asked, j) ==>
                 var same := log[j].request.command == e.request.command && log[j].request.hash == e.request.hash;
                 if same then e.outcome == Replay(log[j].outcome.response) else e.outcome.Clash?
  {
    hide Retained;
    assert Allows(log[..i], log[i]);
    RetainedIsPrecedent(log[..i], log[i].request, log[i].asked);
  }

  /** A replay returns the response of the latest successful run of its owner under its key, which had the same
      command and the same hash; a conflict means that one of them differs. Both only within the hour. */
  lemma AnswersComeFromLatest(log: seq<LogEntry>, i: nat) returns (j: nat)
    requires Sequential(log) && i < |log| && (log[i].outcome.Replay? || log[i].outcome.Clash?)
    ensures j < i
    ensures var run, call := log[j].request, log[i].request;
            && log[j].outcome.Created? && run.owner == call.owner && run.key == call.key
            && log[i].asked - RETENTION <= log[j].outcome.response.createdAt
            && (forall k :: j < k < i && log[k].outcome.Created? ==>
                  log[k].request.owner != call.owner || log[k].request.key != call.key)
            && (log[i].outcome.Replay? ==>
                  run.command == call.command && run.hash == call.hash
                  && log[i].outcome.response == log[j].outcome.response)
            && (log[i].outcome.Clash? ==> run.command != call.command || run.hash != call.hash)
  {
    AnswersMean(log, i);
    var past, e := log[..i], log[i];
    var at :| Precedent(past, e.request, e.asked, at);
    j := at;
    forall k | j < k < i ensures !RunFor(log[k], e.request.owner, e.request.key) { assert past[k] == log[k]; }
  }

  /** Two successful runs of one slot are more than an hour apart. */
  lemma {:induction false} CreationsAreAnHourApart(log: seq<LogEntry>, i: nat, j: nat, slot: Slot)
    requires Sequential(log) && i < j && IsCreation(log, i, slot) && IsCreation(log, j, slot)
    ensures log[i].outcome.response.createdAt + RETENTION < log[j].outcome.response.createdAt
    decreases j
  {
    assert Allows(log[..j], log[j]);
    var k := LatestIsLast(log[..j], slot);
    assert IsCreation(log[..j], i, slot);
    if i < k {
      assert IsCreation(log, k, slot);
      CreationsAreAnHourApart(log, i, k, slot);
    }
  }

  /** In every interleaving an owner's operation does not succeed twice under one key within the hour. */
  lemma RunsNeverRepeatAnOperation(s: System, moves: seq<Move>, i: nat, j: nat)
    requires Init(s) && Runs(s, moves)
    requires var log := After(s, moves).log;
             && i < j < |log| && log[i].outcome.Created? && log[j].outcome.Created?
             && log[i].request.owner == log[j].request.owner && log[i].request.key == log[j].request.key
    ensures var log := After(s, moves).log;
            log[i].outcome.response.createdAt + RETENTION < log[j].outcome.response.createdAt
  {
    RunIsSequential(s, moves);
    CreationsAreAnHourApart(After(s, moves).log, i, j, After(s, moves).log[i].request.Slot());
  }

  // ---- who meets whom ----

  /** The run leaves the requests alone, and a decided call was refused exactly when a field of its request is
      empty. */
  ghost predicate RefusalsFit(s: System) {
    |s.calls| == |s.flight.tasks| &&
    forall t :: 0 <= t < |s.calls| ==>
      var blank := IsBlank(s.calls[t].request);
      && (s.calls[t].outcome.Some? ==> (s.calls[t].outcome.value.Refused? <==> blank))
      && (s.flight.tasks[t].Running? ==> !blank)
  }

  predicate IsBlank(r: Request) { r.owner == "" || r.command == "" || r.key == "" || r.hash == "" }

  lemma MoveKeepsRefusals(s: System, move: Move)
    requires RefusalsFit(s) && Enabled(s, move)
    ensures var z := Apply(s, move);
            RefusalsFit(z) && |z.calls| == |s.calls|
            && forall t :: 0 <= t < |s.calls| ==> z.calls[t].request == s.calls[t].request
  {
    hide Purged;
  }

  lemma {:induction false} RunKeepsRefusals(s: System, moves: seq<Move>)
    requires RefusalsFit(s) && Runs(s, moves)
    ensures var z := After(s, moves);
            RefusalsFit(z) && |z.calls| == |s.calls|
            && forall t :: 0 <= t < |s.calls| ==> z.calls[t].request == s.calls[t].request
    decreases |moves|
  {
    if moves != [] {
      MoveKeepsRefusals(s, moves[0]);
      hide Apply, Enabled, RefusalsFit;
      RunKeepsRefusals(Apply(s, moves[0]), moves[1..]);
    }
  }

  /** In every interleaving a call is refused if and only if its owner, command, key or hash is empty. */
  lemma RefusedIff(s: System, moves: seq<Move>, t: nat)
    requires Init(s) && Runs(s, moves) && t < |s.calls|
    ensures var z, r := After(s, moves), s.calls[t].request;
            |z.calls| == |s.calls| && z.calls[t].request == r &&
            (z.calls[t].outcome.Some? ==>
               (z.calls[t].outcome.value.Refused? <==> r.owner == "" || r.command == "" || r.key == "" || r.hash == ""))
  {
    RunKeepsRefusals(s, moves);
  }

  lemma WaiterMeetsOwner(s: System, t: nat, u: nat)
    requires Inv(s) && t < |s.calls| && u < |s.calls|
    requires var waiter, owner := s.flight.tasks[t], s.flight.tasks[u];
             waiter.Waiting? && owner.Owns() && owner.event == waiter.event
    ensures s.calls[t].request.owner == s.calls[u].request.owner && s.calls[t].request.key == s.calls[u].request.key
  {
    assert CallOk(s, t) && CallOk(s, u);
  }

  /** In every interleaving a call only waits for a call of the same owner under the same key. */
  lemma WaitsForItsOwn(s: System, moves: seq<Move>, t: nat, u: nat)
    requires Init(s) && Runs(s, moves) && t < |After(s, moves).calls| && u < |After(s, moves).calls|
    requires var tasks := After(s, moves).flight.tasks;
             && t < |tasks| && u < |tasks| && tasks[t].Waiting? && tasks[u].Owns()
             && tasks[u].event == tasks[t].event
    ensures var calls := After(s, moves).calls;
            calls[t].request.owner == calls[u].request.owner && calls[t].request.key == calls[u].request.key
  {
    RunKeepsInv(s, moves);
    hide Init, Runs, Inv;
    WaiterMeetsOwner(After(s, moves), t, u);
  }

  /** Some unfinished call runs, or has just run, an operation for that owner under that key. */
  ghost predicate Busy(s: System, owner: string, key: string) {
    exists u :: 0 <= u < |s.calls| == |s.flight.tasks| && s.flight.tasks[u].Owns()
      && s.calls[u].request.owner == owner && s.calls[u].request.key == key
  }

  lemma EnterMeansHere(s: System, t: nat)
    requires Inv(s) && Enabled(s, Enter(t))
    ensures var r := s.calls[t].request;
            var next := Apply(s, Enter(t)).flight.tasks[t];
            var answered := exists j :: Precedent(s.log, r, s.clock, j);
            && (next.Running? <==> !IsBlank(r) && !answered && !Busy(s, r.owner, r.key))
            && (next.Waiting? <==> !IsBlank(r) && !answered && Busy(s, r.owner, r.key))
            && (next.Done? <==> IsBlank(r) || answered)
  {
    KeptIsPrecedent(s, s.calls[t].request);
    PendingIsBusy(s, t);
    assert CallOk(s, t);
    hide CallOk, RecordsMatchLog, LogMatchesCalls, Sequential, SingleFlight.Inv, Busy, Precedent, Purged;
  }

  lemma KeptIsPrecedent(s: System, r: Request)
    requires RecordsMatchLog(s)
    ensures r.Slot() in Purged(s.records, s.clock) <==> exists j :: Precedent(s.log, r, s.clock, j)
  {
    RetainedIsPrecedent(s.log, r, s.clock);
    hide Precedent, Latest;
  }

  lemma PendingIsBusy(s: System, t: nat)
    requires Inv(s) && t < |s.calls|
    ensures s.calls[t].request.Slot() in s.flight.pending <==>
            Busy(s, s.calls[t].request.owner, s.calls[t].request.key)
  {
    hide RecordsMatchLog, LogMatchesCalls, Sequential;
    var slot := s.calls[t].request.Slot();
    if slot in s.flight.pending {
      var u :| 0 <= u < |s.flight.tasks| && s.flight.tasks[u].Owns() && s.flight.tasks[u].key == slot;
      assert CallOk(s, u);
    }
    if u :| 0 <= u < |s.calls| && s.flight.tasks[u].Owns() && s.calls[u].request.owner == slot.0
            && s.calls[u].request.key == slot.1
    {
      assert CallOk(s, u);
    }
  }

  /** In every interleaving a call that enters runs its operation exactly when no run of the same owner under the
      same key precedes it within the hour and none is under way; it waits exactly when one is. Calls of other
      owners, or under other keys, make no difference. */
  lemma EnterMeans(s: System, moves: seq<Move>, t: nat)
    requires Init(s) && Runs(s, moves) && Enabled(After(s, moves), Enter(t))
    ensures var z := After(s, moves);
            var r := z.calls[t].request;
            var next := Apply(z, Enter(t)).flight.tasks[t];
            var answered := exists j :: Precedent(z.log, r, z.clock, j);
            && (next.Running? <==> !IsBlank(r) && !answered && !Busy(z, r.owner, r.key))
            && (next.Waiting? <==> !IsBlank(r) && !answered && Busy(z, r.owner, r.key))
            && (next.Done? <==> IsBlank(r) || answered)
  {
    RunKeepsInv(s, moves);
    hide Init, Runs, Inv, Enabled, Apply, Precedent, Busy, IsBlank;
    EnterMeansHere(After(s, moves), t);
  }
}
