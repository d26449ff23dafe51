/** The waiting protocol shared by every in-memory store that runs an asynchronous
    factory at most once per key: look the key up under the lock, claim it or wait for its owner's
    event, run the operation without the lock, then pop the event and set it under the lock.

    A state holds any number of tasks, each somewhere in the protocol. A step is one stretch of
    execution between two scheduling points, so any sequence of enabled steps is one interleaving.
    What a store keeps beside its pending events is added by the modules that use this one. */
module SingleFlight {

  /** asyncio.Event, as far as the stores use it. */
  class Event {
    var isSet: bool

    constructor ()
      ensures !isSet
    {
      isSet := false;
    }

    method Set()
      modifies this
      ensures isSet
    {
      isSet := true;
    }
  }

  /** Where one call stands. `event` identifies the asyncio.Event the call created or waits for. */
  datatype Pc<K> =
    | Asking(key: K)
    | Waiting(key: K, event: nat)
    | Running(key: K, event: nat)
    | Settled(key: K, event: nat)
    | Done
  {
    predicate Owns() { Running? || Settled? }
  }

  /** `pending` is the store's dictionary of events, `fired` the events that have been set, and
      `issued` the number of events created so far, so that `issued` names the next one. */
  datatype State<K> = State(pending: map<K, nat>, fired: set<nat>, issued: nat, tasks: seq<Pc<K>>)

  /** Hit: the lookup found what it wanted. Join and Claim: it did not, and the key was or was not
      pending. Settle: the operation returned or raised. Release: the `finally` block. */
  datatype Step = Hit(t: nat) | Join(t: nat) | Claim(t: nat) | Wake(t: nat) | Settle(t: nat) | Release(t: nat)

  predicate Enabled<K(==)>(s: State<K>, step: Step) {
    && step.t < |s.tasks|
    && var pc := s.tasks[step.t];
       match step
       case Hit(_) => pc.Asking?
       case Join(_) => pc.Asking? && pc.key in s.pending
       case Claim(_) => pc.Asking? && pc.key !in s.pending
       case Wake(_) => pc.Waiting? && pc.event in s.fired
       case Settle(_) => pc.Running?
       case Release(_) => pc.Settled? && pc.key in s.pending
  }

  function Apply<K(==)>(s: State<K>, step: Step): State<K>
    requires Enabled(s, step)
  {
    var t, pc := step.t, s.tasks[step.t];
    match step
    case Hit(_) => s.(tasks := s.tasks[t := Done])
    case Join(_) => s.(tasks := s.tasks[t := Waiting(pc.key, s.pending[pc.key])])
    case Claim(_) =>
      s.(pending := s.pending[pc.key := s.issued], issued := s.issued + 1,
         tasks := s.tasks[t := Running(pc.key, s.issued)])
    case Wake(_) => s.(tasks := s.tasks[t := Asking(pc.key)])
    case Settle(_) => s.(tasks := s.tasks[t := Settled(pc.key, pc.event)])
    case Release(_) =>
      // pop(key).set(): the event that is set is the one found under the key
      s.(pending := s.pending - {pc.key}, fired := s.fired + {s.pending[pc.key]},
         tasks := s.tasks[t := Done])
  }

  ghost predicate Init<K(!new)>(s: State<K>) {
    s.pending == map[] && s.fired == {} && s.issued == 0 &&
    forall t :: 0 <= t < |s.tasks| ==> s.tasks[t].Asking?
  }

  predicate Runs<K(==)>(s: State<K>, steps: seq<Step>)
    decreases |steps|
  {
    steps == [] || (Enabled(s, steps[0]) && Runs(Apply(s, steps[0]), steps[1..]))
  }

  function After<K(==)>(s: State<K>, steps: seq<Step>): State<K>
    requires Runs(s, steps)
    decreases |steps|
  {
    if steps == [] then s else After(Apply(s, steps[0]), steps[1..])
  }

  // ---- who owns what ----

  ghost predicate OwnersHoldTheirEvent<K(!new)>(s: State<K>) {
    forall t :: 0 <= t < |s.tasks| && s.tasks[t].Owns() ==>
      s.tasks[t].key in s.pending && s.pending[s.tasks[t].key] == s.tasks[t].event
  }

  ghost predicate OwnersAreUnique<K(!new)>(s: State<K>) {
    forall t, u :: 0 <= t < u < |s.tasks| && s.tasks[t].Owns() && s.tasks[u].Owns() ==>
      s.tasks[t].key != s.tasks[u].key
  }

  ghost predicate Owned<K(!new)>(s: State<K>, k: K) {
    exists t :: 0 <= t < |s.tasks| && s.tasks[t].Owns() && s.tasks[t].key == k
  }

  ghost predicate EventsAreFresh<K(!new)>(s: State<K>) {
    && (forall k :: k in s.pending ==> s.pending[k] < s.issued && s.pending[k] !in s.fired)
    && (forall k, l :: k in s.pending && l in s.pending && k != l ==> s.pending[k] != s.pending[l])
    && (forall e :: e in s.fired ==> e < s.issued)
  }

  ghost predicate WaitersAreServed<K(!new)>(s: State<K>) {
    forall t :: 0 <= t < |s.tasks| && s.tasks[t].Waiting? && s.tasks[t].event !in s.fired ==>
      s.tasks[t].key in s.pending && s.pending[s.tasks[t].key] == s.tasks[t].event
  }

  ghost predicate Inv<K(!new)>(s: State<K>) {
    && OwnersHoldTheirEvent(s)
    && OwnersAreUnique(s)
    && (forall k :: k in s.pending ==> Owned(s, k))
    && EventsAreFresh(s)
    && WaitersAreServed(s)
  }

  /** Pending keys survive a step of a task that did not own them. */
  lemma OwnedSurvives<K(!new)>(s: State<K>, s': State<K>, t: nat, k: K)
    requires Owned(s, k) && t < |s.tasks| && |s'.tasks| == |s.tasks|
    requires forall u :: 0 <= u < |s.tasks| && u != t ==> s'.tasks[u] == s.tasks[u]
    requires s.tasks[t].Owns() && s.tasks[t].key == k ==> s'.tasks[t].Owns() && s'.tasks[t].key == k
    ensures Owned(s', k)
  {
    var u :| 0 <= u < |s.tasks| && s.tasks[u].Owns() && s.tasks[u].key == k;
    assert s'.tasks[u].Owns() && s'.tasks[u].key == k;
  }

  lemma StepKeepsOwned<K(!new)>(s: State<K>, step: Step, k: K)
    requires Inv(s) && Enabled(s, step) && k in Apply(s, step).pending
    ensures Owned(Apply(s, step), k)
  {
    var s', t := Apply(s, step), step.t;
    if k in s.pending {
      OwnedSurvives(s, s', t, k);
    } else {
      assert s'.tasks[t].Owns() && s'.tasks[t].key == k;
    }
  }

  lemma StepKeepsOwners<K(!new)>(s: State<K>, step: Step)
    requires Inv(s) && Enabled(s, step)
    ensures OwnersHoldTheirEvent(Apply(s, step)) && OwnersAreUnique(Apply(s, step))
  {
    var s', t := Apply(s, step), step.t;
    forall u | 0 <= u < |s'.tasks| && u != t
      ensures s'.tasks[u] == s.tasks[u]
      ensures s'.tasks[u].Owns() ==>
              s'.tasks[u].key in s'.pending && s'.pending[s'.tasks[u].key] == s'.tasks[u].event
    {
      if s'.tasks[u].Owns() && step.Release? {
        assert s.tasks[u].key != s.tasks[t].key by {
          if u < t { assert OwnersAreUnique(s); } else { assert OwnersAreUnique(s); }
        }
      }
    }
  }

  lemma StepKeepsEvents<K(!new)>(s: State<K>, step: Step)
    requires Inv(s) && Enabled(s, step)
    ensures EventsAreFresh(Apply(s, step))
  {
  }

  lemma StepKeepsWaiters<K(!new)>(s: State<K>, step: Step)
    requires Inv(s) && Enabled(s, step)
    ensures WaitersAreServed(Apply(s, step))
  {
    var s', t := Apply(s, step), step.t;
    forall u | 0 <= u < |s'.tasks| && s'.tasks[u].Waiting? && s'.tasks[u].event !in s'.fired
      ensures s'.tasks[u].key in s'.pending && s'.pending[s'.tasks[u].key] == s'.tasks[u].event
    {
      if u != t { assert s'.tasks[u] == s.tasks[u]; }
    }
  }

  lemma StepKeepsInv<K(!new)>(s: State<K>, step: Step)
    requires Inv(s) && Enabled(s, step)
    ensures Inv(Apply(s, step))
  {
    StepKeepsOwners(s, step);
    StepKeepsEvents(s, step);
    StepKeepsWaiters(s, step);
    forall k | k in Apply(s, step).pending ensures Owned(Apply(s, step), k) {
      StepKeepsOwned(s, step, k);
    }
  }

  lemma {:induction false} RunKeepsInv<K(!new)>(s: State<K>, steps: seq<Step>)
    requires Inv(s) && Runs(s, steps)
    ensures Inv(After(s, steps))
    decreases |steps|
  {
    if steps != [] {
      StepKeepsInv(s, steps[0]);
      RunKeepsInv(Apply(s, steps[0]), steps[1..]);
    }
  }

  /** At every moment of every interleaving: a key is pending iff some task owns it, then exactly one
      does, and that task holds the very event stored under the key. */
  lemma PendingMeansOneOwner<K(!new)>(s: State<K>, steps: seq<Step>, k: K)
    requires Init(s) && Runs(s, steps)
    ensures var z := After(s, steps);
            k in z.pending <==>
            exists t :: 0 <= t < |z.tasks| && z.tasks[t].Owns() && z.tasks[t].key == k &&
              (k in z.pending ==> z.tasks[t].event == z.pending[k]) &&
              forall u :: 0 <= u < |z.tasks| && z.tasks[u].Owns() && z.tasks[u].key == k ==> u == t
  {
    RunKeepsInv(s, steps);
    var z := After(s, steps);
    if k in z.pending {
      assert Owned(z, k);
      var t :| 0 <= t < |z.tasks| && z.tasks[t].Owns() && z.tasks[t].key == k;
      assert OwnersHoldTheirEvent(z) && OwnersAreUnique(z);
    }
  }

  /** The `finally` block never misses its key, and it sets the event its own waiters wait for. */
  lemma ReleaseFindsItsEvent<K(!new)>(s: State<K>, steps: seq<Step>, t: nat)
    requires Init(s) && Runs(s, steps)
    requires t < |After(s, steps).tasks| && After(s, steps).tasks[t].Settled?
    ensures var z := After(s, steps);
            Enabled(z, Release(t)) && Apply(z, Release(t)).fired == z.fired + {z.tasks[t].event}
  {
    RunKeepsInv(s, steps);
  }

  /** A task blocked on an event that is not set has a live owner whose remaining steps, taken
      alone, set that event, whether the operation returns or raises. */
  lemma WaiterHasLiveOwner<K(!new)>(s: State<K>, steps: seq<Step>, t: nat) returns (owner: nat, rest: seq<Step>)
    requires Init(s) && Runs(s, steps)
    requires var z := After(s, steps);
             t < |z.tasks| && z.tasks[t].Waiting? && z.tasks[t].event !in z.fired
    ensures var z := After(s, steps);
            && owner < |z.tasks| && z.tasks[owner].Owns() && z.tasks[owner].event == z.tasks[t].event
            && |rest| <= 2 && (forall i :: 0 <= i < |rest| ==> rest[i].t == owner)
            && Runs(z, rest) && Enabled(After(z, rest), Wake(t))
  {
    RunKeepsInv(s, steps);
    var z := After(s, steps);
    assert Owned(z, z.tasks[t].key);
    owner :| 0 <= owner < |z.tasks| && z.tasks[owner].Owns() && z.tasks[owner].key == z.tasks[t].key;
    if z.tasks[owner].Running? {
      var y := Apply(z, Settle(owner));
      rest := [Settle(owner), Release(owner)];
      assert rest[1..] == [Release(owner)] && rest[1..][1..] == [];
      assert After(y, rest[1..]) == Apply(y, Release(owner));
    } else {
      rest := [Release(owner)];
      assert rest[1..] == [] && After(z, rest) == Apply(z, Release(owner));
    }
  }

  // ---- no call is ever stranded and no interleaving goes on forever ----

  /** A task that is neither finished nor waiting for an unset event can move; and if every unfinished
      task waited, one of the owners they wait for could move. */
  lemma NeverStuck<K(!new)>(s: State<K>, t: nat) returns (step: Step)
    requires Inv(s) && t < |s.tasks| && !s.tasks[t].Done?
    ensures Enabled(s, step)
  {
    var pc := s.tasks[t];
    if pc.Asking? {
      step := Hit(t);
    } else if pc.Running? {
      step := Settle(t);
    } else if pc.Settled? {
      step := Release(t);
    } else if pc.event in s.fired {
      step := Wake(t);
    } else {
      assert Owned(s, pc.key);
      var u :| 0 <= u < |s.tasks| && s.tasks[u].Owns() && s.tasks[u].key == pc.key;
      step := if s.tasks[u].Running? then Settle(u) else Release(u);
    }
  }

  function Sum(xs: seq<nat>): nat {
    if xs == [] then 0 else xs[0] + Sum(xs[1..])
  }

  lemma {:induction false} SumOfUpdate(xs: seq<nat>, i: nat, x: nat)
    requires i < |xs|
    ensures Sum(xs[i := x]) + xs[i] == Sum(xs) + x
    decreases |xs|
  {
    if i == 0 {
      assert xs[0 := x][1..] == xs[1..];
    } else {
      assert xs[i := x][1..] == xs[1..][i - 1 := x];
      SumOfUpdate(xs[1..], i - 1, x);
    }
  }

  lemma {:induction false} SumIsBounded(xs: seq<nat>, most: nat)
    requires forall i :: 0 <= i < |xs| ==> xs[i] <= most
    ensures Sum(xs) <= most * |xs|
    decreases |xs|
  {
    if xs != [] { SumIsBounded(xs[1..], most); }
  }

  /** How many of its own steps a task can take before somebody releases a key. */
  function Rank<K>(pc: Pc<K>, fired: set<nat>): nat {
    match pc
    case Asking(_) => 3
    case Waiting(_, e) => if e in fired then 4 else 0
    case Running(_, _) => 2
    case Settled(_, _) => 1
    case Done => 0
  }

  function Ranks<K>(s: State<K>): seq<nat> {
    seq(|s.tasks|, i requires 0 <= i < |s.tasks| => Rank(s.tasks[i], s.fired))
  }

  function Unfinished<K>(s: State<K>): seq<nat> {
    seq(|s.tasks|, i requires 0 <= i < |s.tasks| => if s.tasks[i].Done? then 0 else 1)
  }

  /** Bounds the steps still to come: finishing a task may wake every other one, but it never comes
      back, and between two completions each task has only Rank steps. */
  function Fuel<K>(s: State<K>): nat {
    Sum(Unfinished(s)) * (4 * |s.tasks| + 1) + Sum(Ranks(s))
  }

  lemma StepBurnsFuel<K(!new)>(s: State<K>, step: Step)
    requires Inv(s) && Enabled(s, step)
    ensures Fuel(Apply(s, step)) < Fuel(s)
  {
    var s', t := Apply(s, step), step.t;
    if s'.tasks[t].Done? {
      CompletionBurnsFuel(s, s', t);
    } else {
      MoveBurnsFuel(s, s', t);
    }
  }

  lemma CompletionBurnsFuel<K(!new)>(s: State<K>, s': State<K>, t: nat)
    requires t < |s.tasks| && !s.tasks[t].Done? && s'.tasks == s.tasks[t := Done]
    ensures Fuel(s') < Fuel(s)
  {
    assert Unfinished(s') == Unfinished(s)[t := 0];
    SumOfUpdate(Unfinished(s), t, 0);
    SumIsBounded(Ranks(s'), 4);
    Distribute(Sum(Unfinished(s')), 4 * |s.tasks| + 1);
  }

  lemma MoveBurnsFuel<K(!new)>(s: State<K>, s': State<K>, t: nat)
    requires t < |s.tasks| && !s.tasks[t].Done? && s'.fired == s.fired
    requires |s'.tasks| == |s.tasks| && s'.tasks == s.tasks[t := s'.tasks[t]] && !s'.tasks[t].Done?
    requires Rank(s'.tasks[t], s.fired) < Rank(s.tasks[t], s.fired)
    ensures Fuel(s') < Fuel(s)
  {
    assert Unfinished(s') == Unfinished(s);
    assert Ranks(s') == Ranks(s)[t := Rank(s'.tasks[t], s.fired)];
    SumOfUpdate(Ranks(s), t, Rank(s'.tasks[t], s.fired));
  }

  lemma Distribute(a: nat, c: nat)
    ensures (a + 1) * c == a * c + c
  {
  }

  lemma {:induction false} RunBurnsFuel<K(!new)>(s: State<K>, steps: seq<Step>)
    requires Inv(s) && Runs(s, steps)
    ensures |steps| + Fuel(After(s, steps)) <= Fuel(s)
    decreases |steps|
  {
    if steps != [] {
      StepBurnsFuel(s, steps[0]);
      StepKeepsInv(s, steps[0]);
      RunBurnsFuel(Apply(s, steps[0]), steps[1..]);
    }
  }

  lemma FuelIsBounded<K(!new)>(s: State<K>)
    requires Init(s)
    ensures Fuel(s) <= 4 * |s.tasks| * (|s.tasks| + 1)
  {
    var n := |s.tasks|;
    SumIsBounded(Unfinished(s), 1);
    SumIsBounded(Ranks(s), 3);
    Monotone(Sum(Unfinished(s)), n, 4 * n + 1);
    assert n * (4 * n + 1) + 3 * n == 4 * n * (n + 1);
  }

  /** Among n calls no interleaving has more than 4n(n + 1) steps, and one that cannot be extended
      has finished every call: whatever the scheduler does and whichever operations raise, no call
      starves or is left waiting. */
  lemma EveryCallCompletes<K(!new)>(s: State<K>, steps: seq<Step>)
    requires Init(s) && Runs(s, steps)
    ensures |steps| <= 4 * |s.tasks| * (|s.tasks| + 1)
    ensures (forall step :: !Enabled(After(s, steps), step)) ==>
            forall t :: 0 <= t < |After(s, steps).tasks| ==> After(s, steps).tasks[t].Done?
  {
    RunBurnsFuel(s, steps);
    RunKeepsInv(s, steps);
    FuelIsBounded(s);
    var z := After(s, steps);
    forall t | 0 <= t < |z.tasks| && !z.tasks[t].Done? ensures exists step :: Enabled(z, step) {
      var step := NeverStuck(z, t);
    }
  }

  lemma Monotone(a: nat, b: nat, c: nat)
    requires a <= b
    ensures a * c <= b * c
  {
  }
}
