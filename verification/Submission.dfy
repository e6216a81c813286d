/**
 * Ballot submission behind a Redis cache and lock: ballots/submit.go and ballots/idempotency.go.
 * `Submit` is a sequence of separate steps; requests interleave freely, locks expire and cached
 * responses are evicted at any moment.
 */
module Submission {
  type ElectionId = nat
  type Voter = nat
  type BallotId = nat
  type Request = nat

  /** The cache key: election, voter hash and idempotency key. */
  datatype Key = Key(election: ElectionId, voter: Voter, idem: nat)

  /** One call: its key and the ballot it carries. */
  datatype Call = Call(key: Key, ballot: nat)

  datatype Owner = Owner(election: ElectionId, voter: Voter)

  function OwnerOf(k: Key): Owner { Owner(k.election, k.voter) }

  /** A row of the ballots table, unique per election and voter. */
  datatype Row = Row(id: BallotId, accepted: bool, ballot: nat)

  datatype Refusal = AlreadySubmitted | InProgress | Rejected | Cancelled | Crashed

  datatype Answer = Success(id: BallotId) | Refused(why: Refusal)

  /** Where a request stands; `holds` says that it acquired the lock. */
  datatype Stage =
    | Missed                                // first cache read found nothing
    | Polling                               // did not get the lock, watches the cache
    | Writing(holds: bool)                  // validates, then upserts
    | Committed(id: BallotId, holds: bool)  // upsert committed, response not yet cached
    | Leaving(answer: Answer, holds: bool)  // runs the deferred unlock
    | Answered(answer: Answer)

  datatype Process = Process(call: Call, stage: Stage)

  /** `winner` records, for the proofs, the call whose upsert was accepted. */
  datatype System = System(
    redis: bool,
    rows: map<Owner, Row>,
    cache: map<Key, BallotId>,
    locks: set<Key>,
    procs: map<Request, Process>,
    winner: map<Owner, Call>)

  datatype Event =
    | Begin(p: Request, call: Call, readOk: bool)
    | TryLock(p: Request, redisOk: bool)
    | Poll(p: Request, readOk: bool)
    | GiveUp(p: Request, cancelled: bool)
    | Reject(p: Request)
    | Upsert(p: Request, newId: BallotId, acked: bool)
    | Store(p: Request, stored: bool)
    | Unlock(p: Request, released: bool)
    | Crash(p: Request)
    | ExpireLock(key: Key)
    | Evict(key: Key)

  /** The stage each step starts from; the database gives new rows fresh ids. */
  ghost predicate Enabled(s: System, ev: Event) {
    match ev
    case Begin(p, _, _) => p !in s.procs
    case TryLock(p, _) => p in s.procs && s.procs[p].stage.Missed?
    case Poll(p, _) => p in s.procs && s.procs[p].stage.Polling?
    case GiveUp(p, _) => p in s.procs && s.procs[p].stage.Polling?
    case Reject(p) => p in s.procs && s.procs[p].stage.Writing?
    case Upsert(p, newId, _) =>
      p in s.procs && s.procs[p].stage.Writing? && forall o :: o in s.rows ==> s.rows[o].id != newId
    case Store(p, _) => p in s.procs && s.procs[p].stage.Committed?
    case Unlock(p, _) => p in s.procs && s.procs[p].stage.Leaving?
    case Crash(p) => p in s.procs && !s.procs[p].stage.Answered?
    case ExpireLock(_) => true
    case Evict(_) => true
  }

  function Moved(s: System, p: Request, stage: Stage): System
    requires p in s.procs
  {
    s.(procs := s.procs[p := s.procs[p].(stage := stage)])
  }

  /** `tryGetCached`. */
  predicate Hit(s: System, k: Key, readOk: bool) {
    s.redis && readOk && k in s.cache
  }

  /** INSERT ... ON CONFLICT DO UPDATE ... WHERE status = 'draft' RETURNING id. */
  function Upserted(s: System, p: Request, newId: BallotId, acked: bool): System
    requires p in s.procs && s.procs[p].stage.Writing?
  {
    var call, holds := s.procs[p].call, s.procs[p].stage.holds;
    var o := OwnerOf(call.key);
    if o in s.rows && s.rows[o].accepted then Moved(s, p, Leaving(Refused(AlreadySubmitted), holds))
    else
      var id := if o in s.rows then s.rows[o].id else newId;
      var written := s.(rows := s.rows[o := Row(id, true, call.ballot)], winner := s.winner[o := call]);
      Moved(written, p, if acked then Committed(id, holds) else Leaving(Refused(Rejected), holds))
  }

  ghost function Step(s: System, ev: Event): System {
    if !Enabled(s, ev) then s
    else
      match ev
      case Begin(p, call, readOk) =>
        s.(procs := s.procs[p := Process(call,
            if Hit(s, call.key, readOk) then Answered(Success(s.cache[call.key])) else Missed)])
      case TryLock(p, redisOk) =>
        var k := s.procs[p].call.key;
        if !s.redis then Moved(s, p, Writing(false))
        else if redisOk && k !in s.locks then Moved(s.(locks := s.locks + {k}), p, Writing(true))
        else Moved(s, p, Polling)
      case Poll(p, readOk) =>
        var k := s.procs[p].call.key;
        if Hit(s, k, readOk) then Moved(s, p, Answered(Success(s.cache[k]))) else s
      case GiveUp(p, cancelled) => Moved(s, p, Answered(Refused(if cancelled then Cancelled else InProgress)))
      case Reject(p) => Moved(s, p, Leaving(Refused(Rejected), s.procs[p].stage.holds))
      case Upsert(p, newId, acked) => Upserted(s, p, newId, acked)
      case Store(p, stored) =>
        var proc := s.procs[p];
        var kept := if s.redis && stored then s.(cache := s.cache[proc.call.key := proc.stage.id]) else s;
        Moved(kept, p, Leaving(Success(proc.stage.id), proc.stage.holds))
      case Unlock(p, released) =>
        var proc := s.procs[p];
        var freed := if proc.stage.holds && released then s.(locks := s.locks - {proc.call.key}) else s;
        Moved(freed, p, Answered(proc.stage.answer))
      case Crash(p) => Moved(s, p, Answered(Refused(Crashed)))
      case ExpireLock(k) => s.(locks := s.locks - {k})
      case Evict(k) => s.(cache := s.cache - {k})
  }

  ghost function Run(s: System, events: seq<Event>): System {
    if events == [] then s
    else Step(Run(s, events[..|events| - 1]), events[|events| - 1])
  }

  /** Any table of drafts and accepted ballots with distinct ids; nothing running or cached yet. */
  ghost predicate Start(s: System) {
    && s.cache == map[] && s.locks == {} && s.procs == map[] && s.winner == map[]
    && forall a, b :: a in s.rows && b in s.rows && s.rows[a].id == s.rows[b].id ==> a == b
  }

  // ----- Safety

  /** The ballot `id` is the accepted row of `k`'s voter, and was accepted under `k` itself. */
  ghost predicate Backed(s: System, k: Key, id: BallotId) {
    var o := OwnerOf(k);
    && o in s.rows && s.rows[o].accepted && s.rows[o].id == id
    && o in s.winner && s.winner[o].key == k && s.winner[o].ballot == s.rows[o].ballot
  }

  ghost predicate StageBacked(s: System, proc: Process) {
    match proc.stage
    case Committed(id, _) => Backed(s, proc.call.key, id)
    case Leaving(Success(id), _) => Backed(s, proc.call.key, id)
    case Answered(Success(id)) => Backed(s, proc.call.key, id)
    case _ => true
  }

  ghost predicate Inv(s: System) {
    && (forall k :: k in s.cache ==> Backed(s, k, s.cache[k]))
    && (forall p :: p in s.procs ==> StageBacked(s, s.procs[p]))
    && (forall a, b :: a in s.rows && b in s.rows && s.rows[a].id == s.rows[b].id ==> a == b)
    && (forall o :: o in s.winner ==> o in s.rows && s.rows[o].accepted)
  }

  /** An accepted row keeps its id, its contents and the call that wrote it. */
  ghost predicate RowsKept(s: System, t: System) {
    forall o :: o in s.rows ==>
      && o in t.rows && t.rows[o].id == s.rows[o].id
      && (s.rows[o].accepted ==> t.rows[o] == s.rows[o]
                                 && (o in s.winner ==> o in t.winner && t.winner[o] == s.winner[o]))
  }

  lemma KeptRowsKeepBacking(s: System, t: System, k: Key, id: BallotId)
    requires RowsKept(s, t) && Backed(s, k, id)
    ensures Backed(t, k, id)
  {
  }

  lemma StepKeepsRows(s: System, ev: Event)
    ensures RowsKept(s, Step(s, ev))
  {
  }

  lemma KeptRowsKeepStage(s: System, t: System, proc: Process)
    requires RowsKept(s, t) && StageBacked(s, proc)
    ensures StageBacked(t, proc)
  {
  }

  lemma UpsertedKeepsIds(s: System, p: Request, newId: BallotId, acked: bool)
    requires Inv(s) && Enabled(s, Upsert(p, newId, acked))
    ensures var t := Upserted(s, p, newId, acked);
            forall a, b :: a in t.rows && b in t.rows && t.rows[a].id == t.rows[b].id ==> a == b
  {
  }

  lemma UpsertedKeepsRows(s: System, p: Request, newId: BallotId, acked: bool)
    requires Enabled(s, Upsert(p, newId, acked))
    ensures RowsKept(s, Upserted(s, p, newId, acked))
  {
  }

  lemma UpsertedIsBacked(s: System, p: Request, newId: BallotId, acked: bool)
    requires Inv(s) && Enabled(s, Upsert(p, newId, acked))
    ensures var t := Upserted(s, p, newId, acked);
            && (forall o :: o in t.winner ==> o in t.rows && t.rows[o].accepted)
            && StageBacked(t, t.procs[p])
  {
  }

  lemma UpsertedKeepsInv(s: System, p: Request, newId: BallotId, acked: bool)
    requires Inv(s) && Enabled(s, Upsert(p, newId, acked))
    ensures Inv(Upserted(s, p, newId, acked))
  {
    var t := Upserted(s, p, newId, acked);
    UpsertedKeepsRows(s, p, newId, acked);
    UpsertedKeepsIds(s, p, newId, acked);
    UpsertedIsBacked(s, p, newId, acked);
    forall k | k in t.cache ensures Backed(t, k, t.cache[k]) {
      KeptRowsKeepBacking(s, t, k, s.cache[k]);
    }
    forall q | q in t.procs ensures StageBacked(t, t.procs[q]) {
      if q != p {
        KeptRowsKeepStage(s, t, s.procs[q]);
      }
    }
  }

  /** A step that leaves the database alone. */
  lemma SameRowsKeepInv(s: System, t: System, p: Request)
    requires Inv(s) && t.rows == s.rows && t.winner == s.winner
    requires forall k :: k in t.cache ==> Backed(s, k, t.cache[k])
    requires forall q :: q in t.procs && q != p ==> q in s.procs && t.procs[q] == s.procs[q]
    requires p in t.procs ==> StageBacked(s, t.procs[p])
    ensures Inv(t)
  {
  }

  /** Time passing in Redis: a lock or a cached response goes. */
  lemma LossKeepsInv(s: System, ev: Event)
    requires Inv(s) && (ev.ExpireLock? || ev.Evict?)
    ensures Inv(Step(s, ev))
  {
    assert 0 in s.procs ==> StageBacked(s, s.procs[0]);
    SameRowsKeepInv(s, Step(s, ev), 0);
  }

  /** The steps before the upsert. */
  lemma ApproachKeepsInv(s: System, ev: Event)
    requires Inv(s) && Enabled(s, ev) && (ev.Begin? || ev.TryLock? || ev.Poll? || ev.GiveUp? || ev.Reject?)
    ensures Inv(Step(s, ev))
  {
    SameRowsKeepInv(s, Step(s, ev), ev.p);
  }

  /** The steps after the upsert, and crashes. */
  lemma ReturnKeepsInv(s: System, ev: Event)
    requires Inv(s) && Enabled(s, ev) && (ev.Store? || ev.Unlock? || ev.Crash?)
    ensures Inv(Step(s, ev))
  {
    assert StageBacked(s, s.procs[ev.p]);
    SameRowsKeepInv(s, Step(s, ev), ev.p);
  }

  lemma StepKeepsInv(s: System, ev: Event)
    requires Inv(s)
    ensures Inv(Step(s, ev))
  {
    if Enabled(s, ev) {
      if ev.Upsert? {
        UpsertedKeepsInv(s, ev.p, ev.newId, ev.acked);
      } else if ev.ExpireLock? || ev.Evict? {
        LossKeepsInv(s, ev);
      } else if ev.Store? || ev.Unlock? || ev.Crash? {
        ReturnKeepsInv(s, ev);
      } else {
        ApproachKeepsInv(s, ev);
      }
    }
  }

  lemma {:induction false} AlwaysInv(s: System, events: seq<Event>)
    requires Start(s)
    ensures Inv(Run(s, events))
  {
    if events != [] {
      AlwaysInv(s, events[..|events| - 1]);
      StepKeepsInv(Run(s, events[..|events| - 1]), events[|events| - 1]);
    }
  }

  /** Over any run, whatever else happens, an accepted ballot never changes. */
  lemma {:induction false} AcceptedBallotsAreFinal(s: System, events: seq<Event>)
    ensures RowsKept(s, Run(s, events))
  {
    if events != [] {
      AcceptedBallotsAreFinal(s, events[..|events| - 1]);
      StepKeepsRows(Run(s, events[..|events| - 1]), events[|events| - 1]);
    }
  }

  ghost predicate Succeeded(s: System, p: Request, id: BallotId) {
    p in s.procs && s.procs[p].stage == Answered(Success(id))
  }

  /**
   * Two successful answers to one voter in one election name the same accepted ballot, and were
   * given under the same idempotency key.
   */
  lemma SuccessesAgree(s: System, events: seq<Event>, p: Request, q: Request, a: BallotId, b: BallotId)
    requires Start(s)
    requires Succeeded(Run(s, events), p, a) && Succeeded(Run(s, events), q, b)
    requires var t := Run(s, events);
             OwnerOf(t.procs[p].call.key) == OwnerOf(t.procs[q].call.key)
    ensures var t := Run(s, events);
            && a == b && t.procs[p].call.key == t.procs[q].call.key
            && OwnerOf(t.procs[p].call.key) in t.rows
            && t.rows[OwnerOf(t.procs[p].call.key)].accepted && t.rows[OwnerOf(t.procs[p].call.key)].id == a
  {
    AlwaysInv(s, events);
    var t := Run(s, events);
    assert StageBacked(t, t.procs[p]) && StageBacked(t, t.procs[q]);
  }

  /** Every cached response names the accepted row of the voter and election in its key. */
  lemma CacheNamesAcceptedRows(s: System, events: seq<Event>, k: Key)
    requires Start(s) && k in Run(s, events).cache
    ensures var t := Run(s, events);
            && OwnerOf(k) in t.rows && t.rows[OwnerOf(k)].accepted
            && t.rows[OwnerOf(k)].id == t.cache[k]
  {
    AlwaysInv(s, events);
  }

  // ----- What a successful answer says about the stored ballot

  /** Nobody reuses `k` for a different ballot. */
  ghost predicate KeyMeans(events: seq<Event>, k: Key, ballot: nat) {
    forall ev :: ev in events && ev.Begin? && ev.call.key == k ==> ev.call.ballot == ballot
  }

  lemma StepKeepsCalls(s: System, ev: Event)
    ensures var t := Step(s, ev);
            && (forall p :: p in t.procs ==>
                  if p in s.procs then t.procs[p].call == s.procs[p].call
                  else ev.Begin? && t.procs[p].call == ev.call)
            && (forall o :: o in t.winner ==>
                  || (o in s.winner && t.winner[o] == s.winner[o])
                  || exists p :: p in s.procs && t.winner[o] == s.procs[p].call)
  {
    if ev.Upsert? && Enabled(s, ev) {
      var t := Step(s, ev);
      assert forall o :: o in t.winner && !(o in s.winner && t.winner[o] == s.winner[o]) ==>
               t.winner[o] == s.procs[ev.p].call;
    }
  }

  /** Every call under key `k`, running or recorded, carries `ballot`. */
  ghost predicate CallsCarry(s: System, k: Key, ballot: nat) {
    && (forall p :: p in s.procs && s.procs[p].call.key == k ==> s.procs[p].call.ballot == ballot)
    && (forall o :: o in s.winner && s.winner[o].key == k ==> s.winner[o].ballot == ballot)
  }

  lemma StepKeepsCallsCarry(s: System, ev: Event, k: Key, ballot: nat)
    requires CallsCarry(s, k, ballot)
    requires ev.Begin? && ev.call.key == k ==> ev.call.ballot == ballot
    ensures CallsCarry(Step(s, ev), k, ballot)
  {
    StepKeepsCalls(s, ev);
  }

  lemma {:induction false} CallsComeFromEvents(s: System, events: seq<Event>, k: Key, ballot: nat)
    requires Start(s) && KeyMeans(events, k, ballot)
    ensures CallsCarry(Run(s, events), k, ballot)
  {
    if events != [] {
      var n := |events| - 1;
      assert events == events[..n] + [events[n]];
      CallsComeFromEvents(s, events[..n], k, ballot);
      StepKeepsCallsCarry(Run(s, events[..n]), events[n], k, ballot);
    }
  }

  /** A client that keeps one ballot per idempotency key is told "accepted" only for its own ballot. */
  lemma SuccessStoresOwnBallot(s: System, events: seq<Event>, p: Request, id: BallotId)
    requires Start(s) && Succeeded(Run(s, events), p, id)
    requires var c := Run(s, events).procs[p].call; KeyMeans(events, c.key, c.ballot)
    ensures var t := Run(s, events);
            OwnerOf(t.procs[p].call.key) in t.rows
            && t.rows[OwnerOf(t.procs[p].call.key)].ballot == t.procs[p].call.ballot
  {
    AlwaysInv(s, events);
    var t := Run(s, events);
    CallsComeFromEvents(s, events, t.procs[p].call.key, t.procs[p].call.ballot);
    assert StageBacked(t, t.procs[p]);
  }

  /** A key reused for another ballot is answered from the cache: accepted, with the first ballot stored. */
  lemma ReusedKeyKeepsFirstBallot(k: Key, first: nat, second: nat)
    requires first != second
    ensures var s := System(true, map[], map[], {}, map[], map[]);
            var events := [Begin(0, Call(k, first), true), TryLock(0, true), Upsert(0, 7, true), Store(0, true),
                           Unlock(0, true), Begin(1, Call(k, second), true)];
            && Start(s) && Succeeded(Run(s, events), 1, 7)
            && OwnerOf(k) in Run(s, events).rows && Run(s, events).rows[OwnerOf(k)].ballot == first
  {
    var s0 := System(true, map[], map[], {}, map[], map[]);
    var e1, e2, e3 := Begin(0, Call(k, first), true), TryLock(0, true), Upsert(0, 7, true);
    var e4, e5, e6 := Store(0, true), Unlock(0, true), Begin(1, Call(k, second), true);
    RunOfTwo(s0, k, first);
    RunSnoc(s0, [e1, e2], e3);
    RunSnoc(s0, [e1, e2, e3], e4);
    RunSnoc(s0, [e1, e2, e3, e4], e5);
    RunSnoc(s0, [e1, e2, e3, e4, e5], e6);
    assert [e1, e2] + [e3] == [e1, e2, e3] && [e1, e2, e3] + [e4] == [e1, e2, e3, e4];
    assert [e1, e2, e3, e4] + [e5] == [e1, e2, e3, e4, e5];
    assert [e1, e2, e3, e4, e5] + [e6] == [e1, e2, e3, e4, e5, e6];
    FirstBallotCached(Run(s0, [e1, e2]), k, first);
  }

  /** The request holding the lock stores its ballot and caches the answer. */
  lemma FirstBallotCached(s: System, k: Key, ballot: nat)
    requires s == System(true, map[], map[], {k}, map[0 := Process(Call(k, ballot), Writing(true))], map[])
    ensures var t := Step(Step(Step(s, Upsert(0, 7, true)), Store(0, true)), Unlock(0, true));
            t.redis && k in t.cache && t.cache[k] == 7 && 1 !in t.procs
            && OwnerOf(k) in t.rows && t.rows[OwnerOf(k)] == Row(7, true, ballot)
  {
  }

  /** The first request finds nothing cached and takes the lock. */
  lemma RunOfTwo(s: System, k: Key, ballot: nat)
    requires s == System(true, map[], map[], {}, map[], map[])
    ensures Run(s, [Begin(0, Call(k, ballot), true), TryLock(0, true)])
         == System(true, map[], map[], {k}, map[0 := Process(Call(k, ballot), Writing(true))], map[])
  {
    var e1, e2 := Begin(0, Call(k, ballot), true), TryLock(0, true);
    RunSnoc(s, [], e1);
    assert [] + [e1] == [e1];
    RunSnoc(s, [e1], e2);
    var s1 := Step(s, e1);
    assert s1 == System(true, map[], map[], {}, map[0 := Process(Call(k, ballot), Missed)], map[]);
    assert [e1] + [e2] == [e1, e2];
  }

  lemma RunSnoc(s: System, events: seq<Event>, ev: Event)
    ensures Run(s, events + [ev]) == Step(Run(s, events), ev)
  {
  }

  // ----- What a request comes to when nobody interferes

  /** All steps of one request in a row, none of them failing. */
  function Alone(p: Request, call: Call, newId: BallotId): seq<Event> {
    [Begin(p, call, true), TryLock(p, true), Upsert(p, newId, true), Store(p, true), Unlock(p, true)]
  }

  lemma {:induction false} RunAppends(s: System, first: seq<Event>, more: seq<Event>)
    ensures Run(s, first + more) == Run(Run(s, first), more)
    decreases |more|
  {
    if more == [] {
      assert first + more == first;
    } else {
      var n := |more| - 1;
      assert (first + more)[..|first + more| - 1] == first + more[..n];
      RunAppends(s, first, more[..n]);
    }
  }

  lemma AloneRun(s: System, p: Request, call: Call, newId: BallotId)
    ensures var s2 := Step(Step(s, Begin(p, call, true)), TryLock(p, true));
            Run(s, Alone(p, call, newId))
              == Step(Step(Step(s2, Upsert(p, newId, true)), Store(p, true)), Unlock(p, true))
  {
    var e1, e2, e3 := Begin(p, call, true), TryLock(p, true), Upsert(p, newId, true);
    var e4, e5 := Store(p, true), Unlock(p, true);
    RunSnoc(s, [], e1);
    RunSnoc(s, [e1], e2);
    RunSnoc(s, [e1, e2], e3);
    RunSnoc(s, [e1, e2, e3], e4);
    RunSnoc(s, [e1, e2, e3, e4], e5);
    assert [] + [e1] == [e1] && [e1] + [e2] == [e1, e2] && [e1, e2] + [e3] == [e1, e2, e3];
    assert [e1, e2, e3] + [e4] == [e1, e2, e3, e4] && [e1, e2, e3, e4] + [e5] == Alone(p, call, newId);
  }

  /** Nothing stands in the way of a request under `k`: no cached answer, no lock. */
  predicate Free(s: System, k: Key) {
    s.redis ==> k !in s.cache && k !in s.locks
  }

  /** The request gets to write, holding the lock if there is one to hold. */
  lemma GetsToWrite(s: System, p: Request, call: Call)
    requires p !in s.procs && Free(s, call.key)
    ensures Step(Step(s, Begin(p, call, true)), TryLock(p, true))
         == s.(procs := s.procs[p := Process(call, Writing(s.redis))],
               locks := if s.redis then s.locks + {call.key} else s.locks)
  {
    var s1 := Step(s, Begin(p, call, true));
    assert s1 == s.(procs := s.procs[p := Process(call, Missed)]);
  }

  /** The id under which the ballot of an owner is stored: the draft's, or a new one. */
  function StoredId(s: System, o: Owner, newId: BallotId): BallotId {
    if o in s.rows then s.rows[o].id else newId
  }

  lemma WriterFinishes(s: System, p: Request, call: Call, newId: BallotId)
    requires p in s.procs && s.procs[p] == Process(call, Writing(s.redis))
    requires forall o :: o in s.rows ==> s.rows[o].id != newId
    ensures var o := OwnerOf(call.key);
            var t := Step(Step(Step(s, Upsert(p, newId, true)), Store(p, true)), Unlock(p, true));
            && t.locks == (if s.redis then s.locks - {call.key} else s.locks)
            && p in t.procs
            && if o in s.rows && s.rows[o].accepted
               then t.procs[p].stage == Answered(Refused(AlreadySubmitted)) && t.rows == s.rows && t.cache == s.cache
               else && t.procs[p].stage == Answered(Success(StoredId(s, o, newId)))
                    && t.rows == s.rows[o := Row(StoredId(s, o, newId), true, call.ballot)]
                    && t.cache == if s.redis then s.cache[call.key := StoredId(s, o, newId)] else s.cache
  {
    var o := OwnerOf(call.key);
    if o in s.rows && s.rows[o].accepted {
      WriterIsLate(s, p, call, newId);
    } else {
      WriterStores(s, p, call, newId);
    }
  }

  lemma WriterIsLate(s: System, p: Request, call: Call, newId: BallotId)
    requires p in s.procs && s.procs[p] == Process(call, Writing(s.redis)) && Enabled(s, Upsert(p, newId, true))
    requires OwnerOf(call.key) in s.rows && s.rows[OwnerOf(call.key)].accepted
    ensures Step(Step(Step(s, Upsert(p, newId, true)), Store(p, true)), Unlock(p, true))
         == s.(procs := s.procs[p := Process(call, Answered(Refused(AlreadySubmitted)))],
               locks := if s.redis then s.locks - {call.key} else s.locks)
  {
    var s3 := Step(s, Upsert(p, newId, true));
    assert s3.procs[p].stage == Leaving(Refused(AlreadySubmitted), s.redis);
    assert Step(s3, Store(p, true)) == s3;
  }

  lemma WriterStores(s: System, p: Request, call: Call, newId: BallotId)
    requires p in s.procs && s.procs[p] == Process(call, Writing(s.redis)) && Enabled(s, Upsert(p, newId, true))
    requires OwnerOf(call.key) in s.rows ==> !s.rows[OwnerOf(call.key)].accepted
    ensures var o := OwnerOf(call.key);
            var id := StoredId(s, o, newId);
            var t := Step(Step(Step(s, Upsert(p, newId, true)), Store(p, true)), Unlock(p, true));
            && t.locks == (if s.redis then s.locks - {call.key} else s.locks)
            && p in t.procs && t.procs[p].stage == Answered(Success(id))
            && t.rows == s.rows[o := Row(id, true, call.ballot)]
            && t.cache == if s.redis then s.cache[call.key := id] else s.cache
  {
    var s3 := Step(s, Upsert(p, newId, true));
    assert s3.procs[p] == Process(call, Committed(StoredId(s, OwnerOf(call.key), newId), s.redis));
    var s4 := Step(s3, Store(p, true));
    assert s4.procs[p].stage == Leaving(Success(StoredId(s, OwnerOf(call.key), newId)), s.redis);
  }

  /**
   * With or without Redis, a request nobody interferes with stores its ballot and says so exactly if the voter has
   * no accepted ballot yet; it leaves the lock as free as it found it.
   */
  lemma UndisturbedSubmission(s: System, p: Request, call: Call, newId: BallotId)
    requires p !in s.procs && Free(s, call.key) && forall o :: o in s.rows ==> s.rows[o].id != newId
    ensures var o := OwnerOf(call.key);
            var t := Run(s, Alone(p, call, newId));
            && t.locks == s.locks && p in t.procs
            && if o in s.rows && s.rows[o].accepted
               then t.procs[p].stage == Answered(Refused(AlreadySubmitted)) && t.rows == s.rows && t.cache == s.cache
               else && t.procs[p].stage == Answered(Success(StoredId(s, o, newId)))
                    && t.rows == s.rows[o := Row(StoredId(s, o, newId), true, call.ballot)]
                    && t.cache == if s.redis then s.cache[call.key := StoredId(s, o, newId)] else s.cache
  {
    AloneRun(s, p, call, newId);
    GetsToWrite(s, p, call);
    WriterFinishes(Step(Step(s, Begin(p, call, true)), TryLock(p, true)), p, call, newId);
    if s.redis {
      assert s.locks + {call.key} - {call.key} == s.locks;
    }
  }

  /** A holder that leaves frees its key: the next request under it can write at once. */
  lemma LeavingFreesKey(s: System, p: Request, q: Request, call: Call, newId: BallotId)
    requires Holds(s, p, call.key) && s.procs[p].stage.Leaving? && call.key !in s.cache && q !in s.procs
    requires forall o :: o in s.rows ==> s.rows[o].id != newId
    ensures var t := Step(s, Unlock(p, true));
            && t.procs[p].stage == Answered(s.procs[p].stage.answer)
            && !Holds(t, p, call.key) && Free(t, call.key) && t.locks == s.locks - {call.key}
    ensures var t := Run(s, [Unlock(p, true)] + Alone(q, call, newId));
            var o := OwnerOf(call.key);
            q in t.procs && t.procs[q].stage == Answered(
              if o in s.rows && s.rows[o].accepted then Refused(AlreadySubmitted) else Success(StoredId(s, o, newId)))
  {
    var t := Step(s, Unlock(p, true));
    RunSnoc(s, [], Unlock(p, true));
    assert [] + [Unlock(p, true)] == [Unlock(p, true)];
    RunAppends(s, [Unlock(p, true)], Alone(q, call, newId));
    UndisturbedSubmission(t, q, call, newId);
  }

  /** So a ballot that was rejected can be submitted again under the same key right away. */
  lemma RejectedCanRetry(s: System, p: Request, q: Request, call: Call, newId: BallotId)
    requires p in s.procs && s.procs[p].stage == Writing(true) && s.procs[p].call.key == call.key
    requires call.key !in s.cache && q !in s.procs
    requires forall o :: o in s.rows ==> s.rows[o].id != newId
    ensures var t := Run(Step(s, Reject(p)), [Unlock(p, true)] + Alone(q, call, newId));
            var o := OwnerOf(call.key);
            q in t.procs && t.procs[q].stage == Answered(
              if o in s.rows && s.rows[o].accepted then Refused(AlreadySubmitted) else Success(StoredId(s, o, newId)))
  {
    var s1 := Step(s, Reject(p));
    LeavingFreesKey(s1, p, q, call, newId);
  }

  /** What failures lead to: none of them answers from the cache, stores anything or frees the lock. */
  lemma FailuresLead(s: System, ev: Event)
    requires Enabled(s, ev)
    requires match ev
             case Begin(_, _, readOk) => !readOk
             case TryLock(_, redisOk) => s.redis && !redisOk
             case Poll(_, readOk) => !readOk
             case GiveUp(_, _) => true
             case Reject(_) => true
             case Store(_, stored) => !stored
             case Unlock(_, released) => !released
             case Crash(_) => true
             case _ => false
    ensures var t := Step(s, ev);
            && t.rows == s.rows && t.cache == s.cache && t.locks == s.locks && ev.p in t.procs
            && t.procs[ev.p].stage ==
               match ev
               case Begin(_, _, _) => Missed
               case TryLock(_, _) => Polling
               case Poll(_, _) => Polling
               case GiveUp(_, cancelled) => Answered(Refused(if cancelled then Cancelled else InProgress))
               case Reject(_) => Leaving(Refused(Rejected), s.procs[ev.p].stage.holds)
               case Store(_, _) => Leaving(Success(s.procs[ev.p].stage.id), s.procs[ev.p].stage.holds)
               case Unlock(_, _) => Answered(s.procs[ev.p].stage.answer)
               case _ => Answered(Refused(Crashed))
  {
  }

  /** A request that waits for the lock gets the holder's answer as soon as it is cached. */
  lemma WaiterGetsHoldersAnswer(s: System, p: Request, q: Request)
    requires s.redis && p in s.procs && q in s.procs && p != q && s.procs[p].call.key == s.procs[q].call.key
    requires s.procs[p].stage.Committed? && s.procs[q].stage.Polling?
    ensures var t := Step(Step(s, Store(p, true)), Poll(q, true));
            q in t.procs && t.procs[q].stage == Answered(Success(s.procs[p].stage.id))
  {
  }

  // ----- The lock

  ghost predicate Holds(s: System, p: Request, k: Key) {
    p in s.procs && s.procs[p].call.key == k
    && match s.procs[p].stage
       case Writing(h) => h
       case Committed(_, h) => h
       case Leaving(_, h) => h
       case _ => false
  }

  ghost predicate Exclusive(s: System, k: Key) {
    && (forall p :: Holds(s, p, k) ==> k in s.locks)
    && (forall p, q :: Holds(s, p, k) && Holds(s, q, k) ==> p == q)
  }

  ghost predicate NewHolder(s: System, ev: Event, t: System, p: Request, k: Key) {
    ev.TryLock? && ev.p == p && k !in s.locks && k in t.locks
  }

  /** A request holds the lock after a step because it just got it, or held it before. */
  lemma HolderCameHow(s: System, ev: Event, p: Request, k: Key)
    requires Holds(Step(s, ev), p, k)
    ensures Holds(s, p, k) || NewHolder(s, ev, Step(s, ev), p, k)
  {
  }

  /** Only an expiry or an unlock by a holder frees the lock. */
  lemma LockGoesHow(s: System, ev: Event, k: Key)
    requires k in s.locks && k !in Step(s, ev).locks
    ensures ev == ExpireLock(k) || (ev.Unlock? && Holds(s, ev.p, k) && !Holds(Step(s, ev), ev.p, k))
  {
  }

  ghost predicate Held(s: System, k: Key) {
    exists p :: Holds(s, p, k)
  }

  lemma StepKeepsExclusive(s: System, ev: Event, k: Key)
    requires Exclusive(s, k) && (ev == ExpireLock(k) ==> !Held(s, k))
    ensures Exclusive(Step(s, ev), k)
  {
    var t := Step(s, ev);
    forall p | Holds(t, p, k) ensures NewHolder(s, ev, t, p, k) || (Holds(s, p, k) && k in t.locks) {
      HolderCameHow(s, ev, p, k);
      if Holds(s, p, k) && k !in t.locks {
        LockGoesHow(s, ev, k);
      }
    }
  }

  /** Some expiry of the lock of `k` fires while a request holds it. */
  ghost predicate ExpiredWhileHeld(s: System, events: seq<Event>, k: Key) {
    events != []
    && (ExpiredWhileHeld(s, events[..|events| - 1], k)
        || (events[|events| - 1] == ExpireLock(k) && Held(Run(s, events[..|events| - 1]), k)))
  }

  lemma {:induction false} StaysExclusive(s: System, events: seq<Event>, k: Key)
    requires Exclusive(s, k) && !ExpiredWhileHeld(s, events, k)
    ensures Exclusive(Run(s, events), k)
  {
    if events != [] {
      var n := |events| - 1;
      StaysExclusive(s, events[..n], k);
      StepKeepsExclusive(Run(s, events[..n]), events[n], k);
    }
  }

  /**
   * As long as the lock never expires under a request that holds it, at most one request at a
   * time works under its key. A crashed request's lock may time out.
   */
  lemma LockExcludesUnlessExpiredWhileHeld(s: System, events: seq<Event>, k: Key)
    requires Start(s) && !ExpiredWhileHeld(s, events, k)
    ensures Exclusive(Run(s, events), k)
  {
    StaysExclusive(s, events, k);
  }

  ghost predicate AtMostOne(s: System, k: Key) {
    forall p, q :: Holds(s, p, k) && Holds(s, q, k) ==> p == q
  }

  /** Three steps let a second request in after an expiry; evicting the cached answer makes sure it tries. */
  function SecondComes(q: Request, k: Key): seq<Event> {
    [Evict(k), Begin(q, Call(k, 0), true), TryLock(q, true)]
  }

  lemma SecondGetsIn(t: System, p: Request, q: Request, k: Key)
    requires t.redis && Holds(t, p, k) && k !in t.locks && q !in t.procs
    ensures var r := Step(Step(Step(t, Evict(k)), Begin(q, Call(k, 0), true)), TryLock(q, true));
            Holds(r, p, k) && Holds(r, q, k)
  {
    var t1 := Step(t, Evict(k));
    var t2 := Step(t1, Begin(q, Call(k, 0), true));
    assert t2.procs[q] == Process(Call(k, 0), Missed);
    var r := Step(t2, TryLock(q, true));
    assert r.procs[p] == t.procs[p];
  }

  lemma SecondComesRun(t: System, q: Request, k: Key)
    ensures Run(t, SecondComes(q, k)) == Step(Step(Step(t, Evict(k)), Begin(q, Call(k, 0), true)), TryLock(q, true))
    ensures !ExpiredWhileHeld(t, SecondComes(q, k), k)
  {
    var e1, e2, e3 := Evict(k), Begin(q, Call(k, 0), true), TryLock(q, true);
    assert [] + [e1] == [e1] && [e1] + [e2] == [e1, e2] && [e1, e2] + [e3] == SecondComes(q, k);
    RunSnoc(t, [], e1);
    RunSnoc(t, [e1], e2);
    RunSnoc(t, [e1, e2], e3);
    NoExpiry(t, SecondComes(q, k), k);
  }

  lemma {:induction false} NoExpiry(s: System, events: seq<Event>, k: Key)
    requires ExpireLock(k) !in events
    ensures !ExpiredWhileHeld(s, events, k)
  {
    if events != [] {
      var n := |events| - 1;
      assert events[n] in events;
      assert forall ev :: ev in events[..n] ==> ev in events;
      NoExpiry(s, events[..n], k);
    }
  }

  lemma {:induction false} NumberOutside(used: set<Request>) returns (q: Request)
    ensures forall x :: x in used ==> x < q
    decreases used
  {
    if used == {} {
      q := 0;
    } else {
      var x :| x in used;
      var above := NumberOutside(used - {x});
      q := if x < above then above else x + 1;
      assert forall y :: y in used ==> y == x || y in used - {x};
    }
  }

  lemma {:induction false} HoldersUseRedis(s: System, events: seq<Event>, p: Request, k: Key)
    requires Start(s) && Holds(Run(s, events), p, k)
    ensures Run(s, events).redis
  {
    if events != [] {
      var n := |events| - 1;
      var before := Run(s, events[..n]);
      HolderCameHow(before, events[n], p, k);
      if Holds(before, p, k) {
        HoldersUseRedis(s, events[..n], p, k);
      }
    }
  }

  /** An expiry can lead to two holders, with no further expiry under a holder, exactly when the lock is held. */
  lemma SecondHolderPossibleIffHeld(s: System, events: seq<Event>, k: Key)
    requires Start(s) && !ExpiredWhileHeld(s, events, k)
    ensures var t := Step(Run(s, events), ExpireLock(k));
            (exists more :: !ExpiredWhileHeld(t, more, k) && !AtMostOne(Run(t, more), k)) <==> Held(Run(s, events), k)
  {
    var before := Run(s, events);
    var t := Step(before, ExpireLock(k));
    LockExcludesUnlessExpiredWhileHeld(s, events, k);
    if p :| Holds(before, p, k) {
      HoldersUseRedis(s, events, p, k);
      var q := NumberOutside(t.procs.Keys);
      SecondGetsIn(t, p, q, k);
      SecondComesRun(t, q, k);
      assert !AtMostOne(Run(t, SecondComes(q, k)), k);
    } else {
      StepKeepsExclusive(before, ExpireLock(k), k);
      forall more | !ExpiredWhileHeld(t, more, k) ensures AtMostOne(Run(t, more), k) {
        StaysExclusive(t, more, k);
      }
    }
  }

  /** After an expiry two requests can be inside together; safety then rests on the upsert alone. */
  lemma ExpiryAdmitsSecond(k: Key, ballot: nat)
    ensures var s := System(true, map[], map[], {}, map[], map[]);
            var events := [Begin(0, Call(k, ballot), true), TryLock(0, true), ExpireLock(k),
                           Begin(1, Call(k, ballot), true), TryLock(1, true)];
            Start(s) && Holds(Run(s, events), 0, k) && Holds(Run(s, events), 1, k)
  {
    var s0 := System(true, map[], map[], {}, map[], map[]);
    var e1, e2, e3 := Begin(0, Call(k, ballot), true), TryLock(0, true), ExpireLock(k);
    var e4, e5 := Begin(1, Call(k, ballot), true), TryLock(1, true);
    RunOfTwo(s0, k, ballot);
    RunSnoc(s0, [e1, e2], e3);
    RunSnoc(s0, [e1, e2, e3], e4);
    RunSnoc(s0, [e1, e2, e3, e4], e5);
    assert [e1, e2] + [e3] == [e1, e2, e3] && [e1, e2, e3] + [e4] == [e1, e2, e3, e4];
    assert [e1, e2, e3, e4] + [e5] == [e1, e2, e3, e4, e5];
    var s4 := Step(Step(Run(s0, [e1, e2]), e3), e4);
    assert s4.locks == {} && s4.redis && s4.procs[1] == Process(Call(k, ballot), Missed);
    assert s4.procs[0] == Process(Call(k, ballot), Writing(true));
  }
}
