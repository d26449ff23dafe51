/** Any number of sessions that inspect Services through one shared cache, interleaved.

    A session reads the cache, may drop the entry it found, awaits the Service's responses, and only then writes the
    cache, from the snapshot it read. Main results: whatever other sessions do to the cache in between, what a
    session returns is bound to its own Service origin, and a sound cache stays sound. */
module InspectRuns {
  import opened Prelude
  import opened Urls
  import opened InspectCache

  /** About to read the cache; about to drop an unusable entry; with a snapshot, waiting for responses; about to
      store what they led to; and over, with the Inspection returned or none. */
  datatype Phase =
    | Start
    | Dropping(now: int)
    | Waiting(known: Option<Entry>, now: int)
    | Storing(entry: Entry)
    | Over(result: Option<Inspection>)

  datatype Session = Session(inspectUrl: Url, phase: Phase)

  datatype System = System(records: map<Url, Entry>, sessions: seq<Session>)

  /** Receive: the requests of the session end in `entry`, or in an error. The responses are any. */
  datatype Move =
    | Find(t: nat, now: int)
    | Drop(t: nat)
    | Receive(t: nat, send: nat -> Option<Response>, requests: seq<Request>, entry: Option<Entry>)
    | Store(t: nat)

  ghost predicate Enabled(r: Reading, s: System, move: Move) {
    && move.t < |s.sessions|
    && var session := s.sessions[move.t];
       match move
       case Find(_, _) => session.phase.Start?
       case Drop(_) => session.phase.Dropping?
       case Receive(_, send, requests, entry) =>
         && session.phase.Waiting?
         && (entry.Some? ==>
               Revalidated(r, session.phase.known, session.inspectUrl, session.phase.now, send, requests, entry.value))
       case Store(_) => session.phase.Storing?
  }

  function At(s: System, t: nat, phase: Phase): System
    requires t < |s.sessions|
  {
    s.(sessions := s.sessions[t := s.sessions[t].(phase := phase)])
  }

  /** What a session does with what it finds. */
  ghost function Found(r: Reading, records: map<Url, Entry>, url: Url, now: int): Phase {
    if url !in records then Waiting(None, now)
    else if !Usable(r, url, records[url]) then Dropping(now)
    else if Fresh(r, records[url], now) then Over(Some(InspectionFrom(records[url], url)))
    else Waiting(Some(records[url]), now)
  }

  ghost function Apply(r: Reading, s: System, move: Move): System
    requires Enabled(r, s, move)
  {
    var t, session := move.t, s.sessions[move.t];
    match move
    case Find(_, now) => At(s, t, Found(r, s.records, session.inspectUrl, now))
    case Drop(_) => At(s.(records := s.records - {session.inspectUrl}), t, Waiting(None, session.phase.now))
    case Receive(_, _, _, entry) => At(s, t, if entry.Some? then Storing(entry.value) else Over(None))
    case Store(_) =>
      At(s.(records := Stored(s.records, session.inspectUrl, session.phase.entry)), t,
         Over(Some(InspectionFrom(session.phase.entry, session.inspectUrl))))
  }

  /** Sessions about to start, each with the URL of an acceptable Service reference. */
  predicate Init(r: Reading, s: System) {
    forall t :: 0 <= t < |s.sessions| ==>
      s.sessions[t].phase.Start? && ValidHttps(s.sessions[t].inspectUrl, r.allowLoopback)
  }

  ghost predicate Runs(r: Reading, s: System, moves: seq<Move>)
    decreases |moves|
  {
    moves == [] || (Enabled(r, s, moves[0]) && Runs(r, Apply(r, s, moves[0]), moves[1..]))
  }

  ghost function After(r: Reading, s: System, moves: seq<Move>): System
    requires Runs(r, s, moves)
    decreases |moves|
  {
    if moves == [] then s else After(r, Apply(r, s, moves[0]), moves[1..])
  }

  /** The document is believed for the origin of the session's own Service. */
  predicate BoundTo(r: Reading, i: Inspection, url: Url) {
    && Bound(r, i.document, i.finalUrl) && r.didOrigin(i.document.serviceDid) == OriginOf(url) && i.inspectUrl == url
  }

  predicate SessionOk(r: Reading, session: Session) {
    && ValidHttps(session.inspectUrl, r.allowLoopback)
    && match session.phase
       case Start => true
       case Dropping(_) => true
       case Waiting(known, _) => known.Some? ==> Usable(r, session.inspectUrl, known.value)
       case Storing(entry) => Usable(r, session.inspectUrl, entry)
       case Over(result) => result.Some? ==> BoundTo(r, result.value, session.inspectUrl)
  }

  ghost predicate Inv(r: Reading, s: System) {
    forall t :: 0 <= t < |s.sessions| ==> SessionOk(r, s.sessions[t])
  }

  lemma UsableIsBound(r: Reading, url: Url, e: Entry)
    requires Usable(r, url, e)
    ensures BoundTo(r, InspectionFrom(e, url), url)
  {
  }

  lemma MoveKeepsInv(r: Reading, s: System, move: Move)
    requires Inv(r, s) && Enabled(r, s, move)
    ensures Inv(r, Apply(r, s, move))
    ensures Sound(r, s.records) ==> Sound(r, Apply(r, s, move).records)
  {
    var session := s.sessions[move.t];
    assert SessionOk(r, session);
    hide Usable, BoundTo, Fresh, Revalidated, InspectionFrom, ValidHttps, Says;
    match move {
      case Find(_, _) =>
        var url := session.inspectUrl;
        if url in s.records && Usable(r, url, s.records[url]) { UsableIsBound(r, url, s.records[url]); }
      case Drop(_) =>
      case Receive(_, send, requests, entry) =>
        if entry.Some? {
          RevalidatedIsUsable(r, session.phase.known, session.inspectUrl, session.phase.now, send, requests,
                              entry.value);
        }
      case Store(_) => UsableIsBound(r, session.inspectUrl, session.phase.entry);
    }
  }

  lemma {:induction false} RunKeepsInv(r: Reading, s: System, moves: seq<Move>)
    requires Inv(r, s) && Runs(r, s, moves)
    ensures Inv(r, After(r, s, moves))
    ensures Sound(r, s.records) ==> Sound(r, After(r, s, moves).records)
    decreases |moves|
  {
    if moves != [] {
      MoveKeepsInv(r, s, moves[0]);
      hide Inv, Sound, Apply, Enabled;
      RunKeepsInv(r, Apply(r, s, moves[0]), moves[1..]);
    }
  }

  /** However sessions interleave, and whatever the cache held at first: every Inspection returned is of a document
      whose Service DID stands for the origin of the session's own Service. */
  lemma EveryInspectionIsBound(r: Reading, s: System, moves: seq<Move>, t: nat)
    requires Init(r, s) && Runs(r, s, moves) && t < |After(r, s, moves).sessions|
    ensures var session := After(r, s, moves).sessions[t];
            session.phase.Over? && session.phase.result.Some? ==>
              BoundTo(r, session.phase.result.value, session.inspectUrl)
  {
    RunKeepsInv(r, s, moves);
  }

  /** However sessions interleave, a cache of usable entries that were allowed to be stored stays one. */
  lemma CacheStaysSound(r: Reading, s: System, moves: seq<Move>)
    requires Init(r, s) && Runs(r, s, moves) && Sound(r, s.records)
    ensures Sound(r, After(r, s, moves).records)
  {
    RunKeepsInv(r, s, moves);
  }
}
