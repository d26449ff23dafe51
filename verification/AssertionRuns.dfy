/** Any number of authentication attempts of the Service, interleaved.

    Each reads the clock, awaits the verifier and only then reaches the replay store, with the time it read. So the
    store may see times out of order although the clock never runs backwards. Main results: a run in which that
    lets one assertion through twice, and that nothing but such overlapping does. */
module AssertionRuns {
  import opened Prelude
  import opened Replay

  datatype Phase = Unread | Verifying(now: int) | Over(accepted: bool)

  datatype Attempt = Attempt(header: Header, assertion: Assertion, op: Operation, resource: Option<string>,
                             phase: Phase)

  /** `begun` lists the attempts that have read the clock and what they read, `uses` and `users` those that have
      reached the store. */
  datatype System = System(
    clock: int, records: map<Subject, int>, attempts: seq<Attempt>, begun: seq<(nat, int)>, uses: seq<Use>,
        users: seq<nat>)

  /** Reject: the verifier raises. Consume: it returns, and the checks and the locked block of the store follow. */
  datatype Move = Tick(to: int) | Begin(t: nat) | Reject(t: nat) | Consume(t: nat)

  predicate Enabled(s: System, move: Move) {
    match move
    case Tick(to) => s.clock <= to
    case Begin(t) => t < |s.attempts| && s.attempts[t].phase.Unread?
    case Reject(t) => t < |s.attempts| && s.attempts[t].phase.Verifying?
    case Consume(t) => t < |s.attempts| && s.attempts[t].phase.Verifying?
  }

  function At(s: System, t: nat, phase: Phase): System
    requires t < |s.attempts|
  {
    s.(attempts := s.attempts[t := s.attempts[t].(phase := phase)])
  }

  function UseOf(a: Attempt, now: int): Use {
    Use(a.header, a.assertion, a.op, a.resource, now)
  }

  function Apply(p: Policy, s: System, move: Move): System
    requires Enabled(s, move)
  {
    match move
    case Tick(to) => s.(clock := to)
    case Begin(t) => At(s, t, Verifying(s.clock)).(begun := s.begun + [(t, s.clock)])
    case Reject(t) => At(s, t, Over(false))
    case Consume(t) =>
      var u := UseOf(s.attempts[t], s.attempts[t].phase.now);
      var call := CallOf(p, u);
      var accepted := Passes(p, u) && Accepts(s.records, call.key, call.expiresAt, call.now);
      var records := if Passes(p, u) then Consumed(s.records, call.key, call.expiresAt, call.now) else s.records;
      At(s, t, Over(accepted)).(records := records, uses := s.uses + [u], users := s.users + [t])
  }

  /** Attempts about to start, on an empty store. */
  predicate Init(s: System) {
    && s.records == map[] && s.begun == [] && s.uses == [] && s.users == []
    && forall t :: 0 <= t < |s.attempts| ==> s.attempts[t].phase.Unread?
  }

  predicate Runs(p: Policy, s: System, moves: seq<Move>)
    decreases |moves|
  {
    moves == [] || (Enabled(s, moves[0]) && Runs(p, Apply(p, s, moves[0]), moves[1..]))
  }

  function After(p: Policy, s: System, moves: seq<Move>): System
    requires Runs(p, s, moves)
    decreases |moves|
  {
    if moves == [] then s else After(p, Apply(p, s, moves[0]), moves[1..])
  }

  // ---- the history of a run ----

  /** The i-th use is of an attempt that is over, with the verdict the history calls for. */
  predicate UseOk(p: Policy, s: System, i: nat)
    requires i < |s.uses| == |s.users|
  {
    var t := s.users[i];
    && t < |s.attempts| && s.attempts[t].phase == Over(Authenticated(p, s.uses, i))
    && s.uses[i] == UseOf(s.attempts[t], s.uses[i].now) && (t, s.uses[i].now) in s.begun
  }

  ghost predicate BegunInOrder(s: System) {
    && (forall a, b :: 0 <= a < b < |s.begun| ==> s.begun[a].1 <= s.begun[b].1)
    && (forall a :: 0 <= a < |s.begun| ==> s.begun[a].1 <= s.clock)
  }

  ghost predicate Inv(p: Policy, s: System) {
    && s.records == Filed(p, s.uses) && |s.uses| == |s.users| && BegunInOrder(s)
    && (forall i :: 0 <= i < |s.uses| ==> UseOk(p, s, i))
    && (forall t :: 0 <= t < |s.attempts| && s.attempts[t].phase.Verifying? ==> (t, s.attempts[t].phase.now) in s.begun)
    && (forall t :: 0 <= t < |s.attempts| && s.attempts[t].phase == Over(true) ==> t in s.users)
  }

  lemma UsesStay(p: Policy, s: System, z: System, i: nat)
    requires i < |s.uses| == |s.users| && UseOk(p, s, i) && |z.uses| == |z.users|
    requires s.uses <= z.uses && s.users <= z.users && s.begun <= z.begun
    requires |z.attempts| == |s.attempts| && z.attempts[s.users[i]] == s.attempts[s.users[i]]
    ensures UseOk(p, z, i)
  {
    assert z.uses[..i] == s.uses[..i];
  }

  lemma MoveKeepsInv(p: Policy, s: System, move: Move)
    requires Inv(p, s) && Enabled(s, move)
    ensures Inv(p, Apply(p, s, move))
  {
    var z := Apply(p, s, move);
    hide Passes, Accepts, Authenticated, Filed;
    if move.Consume? {
      var u := UseOf(s.attempts[move.t], s.attempts[move.t].phase.now);
      ConsumeMatches(p, s, move.t);
      assert z.uses[|s.uses|] == u && z.users[|s.uses|] == move.t;
    }
    forall i | 0 <= i < |s.uses| ensures UseOk(p, z, i) {
      assert UseOk(p, s, i);
      UsesStay(p, s, z, i);
    }
  }

  lemma ConsumeMatches(p: Policy, s: System, t: nat)
    requires Enabled(s, Consume(t)) && s.records == Filed(p, s.uses)
    ensures var u, z := UseOf(s.attempts[t], s.attempts[t].phase.now), Apply(p, s, Consume(t));
            && z.uses == s.uses + [u] && |z.attempts| == |s.attempts|
            && z.records == Filed(p, s.uses + [u])
            && z.attempts[t].phase == Over(Authenticated(p, s.uses + [u], |s.uses|))
  {
    var u := UseOf(s.attempts[t], s.attempts[t].phase.now);
    assert (s.uses + [u])[..|s.uses|] == s.uses;
    FiledAfter(p, s.uses, u);
    hide Passes, Filed, Calls;
  }

  lemma {:induction false} RunKeepsInv(p: Policy, s: System, moves: seq<Move>)
    requires Inv(p, s) && Runs(p, s, moves)
    ensures Inv(p, After(p, s, moves))
    decreases |moves|
  {
    if moves != [] {
      MoveKeepsInv(p, s, moves[0]);
      RunKeepsInv(p, Apply(p, s, moves[0]), moves[1..]);
    }
  }

  /** In every interleaving each attempt that reached the store got the verdict of the history of uses, and the
      store holds what that history files. */
  lemma RunIsHistory(p: Policy, s: System, moves: seq<Move>)
    requires Init(s) && Runs(p, s, moves)
    ensures Inv(p, After(p, s, moves))
  {
    RunKeepsInv(p, s, moves);
  }

  lemma AcceptedIff(p: Policy, s: System, i: nat, j: nat)
    requires Inv(p, s) && i < j < |s.uses| && Authenticated(p, s.uses, i) && SameKey(s.uses[i], s.uses[j])
    requires forall k :: i < k < j && SameKey(s.uses[k], s.uses[i]) ==> !Authenticated(p, s.uses, k)
    ensures |s.users| == |s.uses| && s.users[j] < |s.attempts|
    ensures s.attempts[s.users[j]].phase == Over(true) <==>
            Passes(p, s.uses[j]) && PurgedAfter(p, s.uses, i + 1, j + 1, s.uses[i].assertion.exp + p.tolerance)
  {
    hide Passes, Authenticated, Filed, PurgedAfter, SameKey, BegunInOrder;
    assert UseOk(p, s, j);
    Replay.AuthenticatedAgainIff(p, s.uses, i, j);
  }

  /** Exactly when an attempt gets an assertion through whose identifier was last accepted by an earlier one. */
  lemma AcceptedAgainIff(p: Policy, s: System, moves: seq<Move>, i: nat, j: nat)
    requires Init(s) && Runs(p, s, moves)
    requires var uses := After(p, s, moves).uses;
             && i < j < |uses| && Authenticated(p, uses, i) && SameKey(uses[i], uses[j])
             && forall k :: i < k < j && SameKey(uses[k], uses[i]) ==> !Authenticated(p, uses, k)
    ensures var z := After(p, s, moves);
            && |z.users| == |z.uses| && z.users[j] < |z.attempts|
            && (z.attempts[z.users[j]].phase == Over(true) <==>
                  && Passes(p, z.uses[j])
                  && PurgedAfter(p, z.uses, i + 1, j + 1, z.uses[i].assertion.exp + p.tolerance))
  {
    hide *;
    RunIsHistory(p, s, moves);
    AcceptedIff(p, After(p, s, moves), i, j);
  }

  lemma OverlapOf(p: Policy, s: System, i: nat, j: nat) returns (m: nat, a: nat, b: nat)
    requires Inv(p, s) && i < j < |s.uses| && s.uses[i].assertion == s.uses[j].assertion
    requires Authenticated(p, s.uses, i) && Authenticated(p, s.uses, j)
    ensures |s.users| == |s.uses| && i < m < j
    ensures a < b < |s.begun| && s.begun[a] == (s.users[j], s.uses[j].now) && s.begun[b] == (s.users[m], s.uses[m].now)
    ensures s.uses[j].now < s.uses[i].assertion.exp + p.tolerance <= s.uses[m].now
  {
    hide Passes, Authenticated, Filed;
    m := ReplayNeedsOvertaking(p, s.uses, i, j);
    assert UseOk(p, s, j) && UseOk(p, s, m);
    a :| 0 <= a < |s.begun| && s.begun[a] == (s.users[j], s.uses[j].now);
    b :| 0 <= b < |s.begun| && s.begun[b] == (s.users[m], s.uses[m].now);
    assert BegunInOrder(s);
  }

  /** One assertion gets through twice only if a third attempt overlaps with the second: it reads the clock after
      that one has, past the filed expiry, and reaches the store before it. */
  lemma ReplayNeedsOverlap(p: Policy, s: System, moves: seq<Move>, i: nat, j: nat) returns (m: nat, a: nat, b: nat)
    requires Init(s) && Runs(p, s, moves)
    requires var z := After(p, s, moves);
             && i < j < |z.uses| && z.uses[i].assertion == z.uses[j].assertion
             && Authenticated(p, z.uses, i) && Authenticated(p, z.uses, j)
    ensures var z := After(p, s, moves);
            && |z.users| == |z.uses| && i < m < j
            && a < b < |z.begun| && z.begun[a] == (z.users[j], z.uses[j].now)
            && z.begun[b] == (z.users[m], z.uses[m].now)
            && z.uses[j].now < z.uses[i].assertion.exp + p.tolerance <= z.uses[m].now
  {
    hide *;
    RunIsHistory(p, s, moves);
    m, a, b := OverlapOf(p, After(p, s, moves), i, j);
  }

  lemma AcceptedIsUsed(p: Policy, s: System, t: nat) returns (i: nat)
    requires Inv(p, s) && t < |s.attempts| && s.attempts[t].phase == Over(true)
    ensures i < |s.uses| == |s.users| && s.users[i] == t
    ensures Authenticated(p, s.uses, i) && s.uses[i].assertion == s.attempts[t].assertion
  {
    assert t in s.users;
    i :| 0 <= i < |s.users| && s.users[i] == t;
    assert UseOk(p, s, i);
  }

  /** In runs in which attempts reach the store in the order of their clock reads, no two attempts get the same
      assertion through. */
  lemma InOrderAcceptedOnce(p: Policy, s: System, moves: seq<Move>, t: nat, u: nat)
    requires Init(s) && Runs(p, s, moves)
    requires var z := After(p, s, moves);
             && (forall k, l :: 0 <= k < l < |z.uses| ==> z.uses[k].now <= z.uses[l].now)
             && t < |z.attempts| && u < |z.attempts| && t != u && z.attempts[t].assertion == z.attempts[u].assertion
    ensures var z := After(p, s, moves);
            !(z.attempts[t].phase == Over(true) && z.attempts[u].phase == Over(true))
  {
    RunKeepsInv(p, s, moves);
    var z := After(p, s, moves);
    hide Inv, Runs, After, Init, Authenticated;
    if z.attempts[t].phase == Over(true) && z.attempts[u].phase == Over(true) {
      var i := AcceptedIsUsed(p, z, t);
      var j := AcceptedIsUsed(p, z, u);
      AssertionAcceptedOnce(p, z.uses, if i < j then i else j, if i < j then j else i);
    }
  }

  lemma {:induction false} AttemptsStay(p: Policy, s: System, moves: seq<Move>, now: int)
    requires Runs(p, s, moves)
    ensures var z := After(p, s, moves);
            |z.attempts| == |s.attempts| &&
            forall t :: 0 <= t < |s.attempts| ==> UseOf(z.attempts[t], now) == UseOf(s.attempts[t], now)
    decreases |moves|
  {
    if moves != [] {
      AttemptsStay(p, Apply(p, s, moves[0]), moves[1..], now);
      hide Passes, Accepts;
    }
  }

  /** Whatever the interleaving, an attempt that gets through presented an assertion meant for this Service, this
      operation and this resource, under a key of the Agent that issued it, within its window when the attempt read
      the clock. */
  lemma AcceptedMeans(p: Policy, s: System, moves: seq<Move>, t: nat) returns (now: int)
    requires Init(s) && Runs(p, s, moves) && t < |s.attempts|
    ensures |After(p, s, moves).attempts| == |s.attempts|
    ensures After(p, s, moves).attempts[t].phase == Over(true) ==>
              && (t, now) in After(p, s, moves).begun && Meets(p, UseOf(s.attempts[t], now))
  {
    hide Meets, Passes, Authenticated, Init, Inv, Runs, After;
    now := 0;
    AttemptsStay(p, s, moves, now);
    RunIsHistory(p, s, moves);
    if After(p, s, moves).attempts[t].phase == Over(true) {
      now := AcceptedMeets(p, After(p, s, moves), t);
      AttemptsStay(p, s, moves, now);
    }
  }

  lemma AcceptedMeets(p: Policy, s: System, t: nat) returns (now: int)
    requires Inv(p, s) && t < |s.attempts| && s.attempts[t].phase == Over(true)
    ensures (t, now) in s.begun && Meets(p, UseOf(s.attempts[t], now))
  {
    hide Meets, Passes, Authenticated;
    var i := AcceptedIsUsed(p, s, t);
    assert UseOk(p, s, i);
    now := s.uses[i].now;
    AuthenticatedMeans(p, s.uses, i);
  }

  lemma FirstUseIff(p: Policy, s: System, i: nat)
    requires Inv(p, s) && i < |s.uses|
    requires forall k :: 0 <= k < i && SameKey(s.uses[k], s.uses[i]) ==> !Meets(p, s.uses[k])
    ensures i < |s.users| && s.users[i] < |s.attempts|
    ensures s.attempts[s.users[i]].phase == Over(true) <==> Meets(p, s.uses[i])
  {
    hide Meets, Passes, Authenticated;
    assert UseOk(p, s, i);
    AuthenticatedMeans(p, s.uses, i);
  }

  /** Conversely, an attempt that meets all that gets through if no earlier one with its identifier did meet it. */
  lemma FirstUseAccepted(p: Policy, s: System, moves: seq<Move>, i: nat)
    requires Init(s) && Runs(p, s, moves)
    requires var uses := After(p, s, moves).uses;
             i < |uses| && forall k :: 0 <= k < i && SameKey(uses[k], uses[i]) ==> !Meets(p, uses[k])
    ensures var z := After(p, s, moves);
            && i < |z.users| && z.users[i] < |z.attempts|
            && z.uses[i] == UseOf(z.attempts[z.users[i]], z.uses[i].now) && (z.users[i], z.uses[i].now) in z.begun
            && (z.attempts[z.users[i]].phase == Over(true) <==> Meets(p, z.uses[i]))
  {
    hide Meets, Passes, Authenticated, Init, Runs, After, SameKey;
    RunIsHistory(p, s, moves);
    FirstUseIff(p, After(p, s, moves), i);
    assert UseOk(p, After(p, s, moves), i);
  }

  // ---- a run that authenticates one assertion twice ----

  function Ticket(jti: string, iat: int): Attempt {
    Attempt(Header("JWT", Some("a"), "EdDSA"), Assertion("s", iat + 10, iat, "a", jti, EnrollOp, None, "a"),
            EnrollOp, None, Unread)
  }

  function Lenient(): Policy {
    Policy("s", {"EdDSA"}, {IdentityMethod("a")}, 0, 300, uri => None)
  }

  lemma TicketPasses(jti: string, iat: int, now: int)
    requires jti != "" && iat <= now < iat + 10
    ensures Passes(Lenient(), UseOf(Ticket(jti, iat), now)) && Lenient().tolerance == 0
  {
  }

  lemma Step(p: Policy, s: System, move: Move, rest: seq<Move>)
    requires Enabled(s, move) && Runs(p, Apply(p, s, move), rest)
    ensures Runs(p, s, [move] + rest) && After(p, s, [move] + rest) == After(p, Apply(p, s, move), rest)
  {
    assert ([move] + rest)[1..] == rest;
  }

  lemma LateUsePasses(x: Attempt, y: Attempt)
    requires x == Ticket("x", 0) && y == Ticket("y", 10)
    ensures var uses := [UseOf(x, 0), UseOf(y, 15), UseOf(x, 5)];
            Authenticated(Lenient(), uses, 0) && Authenticated(Lenient(), uses, 2)
  {
    var p, uses := Lenient(), [UseOf(x, 0), UseOf(y, 15), UseOf(x, 5)];
    TicketPasses("x", 0, 0);
    TicketPasses("y", 10, 15);
    TicketPasses("x", 0, 5);
    hide Passes, Lenient;
    assert uses[..0] == [];
    assert Authenticated(p, uses, 0);
    assert PurgedAfter(p, uses, 1, 3, 10) by {
      assert Passes(p, uses[1]) && uses[1].now >= 10;
    }
    assert !SameKey(uses[1], uses[0]);
    Replay.AuthenticatedAgainIff(p, uses, 0, 2);
  }

  /** The clock never runs backwards. The first assertion is used at 0 and again at 5, but verifying the second use
      takes until after 15, when the use of another assertion has purged the first. */
  lemma OverlappingUsesReplay() returns (p: Policy, s: System, moves: seq<Move>)
    ensures Init(s) && Runs(p, s, moves) && |s.attempts| == 3
    ensures s.attempts[0].assertion == s.attempts[2].assertion
    ensures var z := After(p, s, moves);
            |z.attempts| == 3 && z.attempts[0].phase == Over(true) && z.attempts[2].phase == Over(true)
  {
    p := Lenient();
    var x, y := Ticket("x", 0), Ticket("y", 10);
    s := System(0, map[], [x, y, x], [], [], []);
    LateUsePasses(x, y);
    var z;
    moves, z := EightMoves(p, s, x, y);
    hide *;
    RunIsHistory(p, s, moves);
    Verdict(p, z, 0);
    Verdict(p, z, 2);
  }

  lemma Verdict(p: Policy, s: System, i: nat)
    requires Inv(p, s) && i < |s.users| && i < |s.uses| && Authenticated(p, s.uses, i)
    ensures s.users[i] < |s.attempts| && s.attempts[s.users[i]].phase == Over(true)
  {
    assert UseOk(p, s, i);
  }

  lemma FourMoves(p: Policy, s: System, a: Move, b: Move, c: Move, d: Move, rest: seq<Move>) returns (moves: seq<Move>)
    requires Enabled(s, a)
    requires var s1 := Apply(p, s, a);
             && Enabled(s1, b)
             && var s2 := Apply(p, s1, b);
                && Enabled(s2, c)
                && var s3 := Apply(p, s2, c);
                   Enabled(s3, d) && Runs(p, Apply(p, s3, d), rest)
    ensures Runs(p, s, moves)
    ensures After(p, s, moves) == After(p, Apply(p, Apply(p, Apply(p, Apply(p, s, a), b), c), d), rest)
  {
    hide Enabled, Apply, Runs, After;
    var s1 := Apply(p, s, a);
    var s2 := Apply(p, s1, b);
    var s3 := Apply(p, s2, c);
    Step(p, s3, d, rest);
    Step(p, s2, c, [d] + rest);
    Step(p, s1, b, [c] + ([d] + rest));
    Step(p, s, a, [b] + ([c] + ([d] + rest)));
    moves := [a] + ([b] + ([c] + ([d] + rest)));
  }

  lemma EightMoves(p: Policy, s: System, x: Attempt, y: Attempt) returns (moves: seq<Move>, z: System)
    requires s == System(0, map[], [x, y, x], [], [], []) && x.phase.Unread? && y.phase.Unread?
    ensures Init(s) && Runs(p, s, moves) && z == After(p, s, moves)
    ensures z.uses == [UseOf(x, 0), UseOf(y, 15), UseOf(x, 5)] && z.users == [0, 1, 2] && |z.attempts| == 3
  {
    hide Passes, Accepts, Consumed, CallOf;
    var middle := Apply(p, Apply(p, Apply(p, Apply(p, s, Begin(0)), Consume(0)), Tick(5)), Begin(2));
    z := Apply(p, Apply(p, Apply(p, Apply(p, middle, Tick(15)), Begin(1)), Consume(1)), Consume(2));
    var rest := FourMoves(p, middle, Tick(15), Begin(1), Consume(1), Consume(2), []);
    moves := FourMoves(p, s, Begin(0), Consume(0), Tick(5), Begin(2), rest);
  }
}
