/**
 * Election status, tally jobs and versioned results: elections/actions.go, elections/other.go,
 * worker/scheduler.go, worker/election_tally_result.go and jobs/runner_claim.go.
 * Each database transaction is one step.
 */
module ElectionLifecycle {
  import opened Wrappers
  import opened Sums

  type ElectionId = nat
  type Time = int

  datatype Status = Draft | Scheduled | Active | Paused | Closed | ResultsReady | Published

  datatype Action = Schedule | Open | Pause | Resume | Close | Publish | Unknown

  datatype Election = Election(
    owner: string, status: Status, endAt: Time, publishAt: Option<Time>, publishedAt: Option<Time>)

  datatype JobStatus = Queued | Running | Finished | Failed

  /** A tally job; `claims` counts how often a worker has claimed it. */
  datatype Job = Job(election: ElectionId, status: JobStatus, claims: nat)

  datatype ResultRow = ResultRow(version: int, publishedAt: Option<Time>)

  /** The rows of the three tables; results are grouped by election. */
  datatype Db = Db(
    elections: map<ElectionId, Election>, jobs: seq<Job>, results: map<ElectionId, seq<ResultRow>>)

  datatype Code = Ok | NotFound | InvalidTransition | NotReady(check: string) | NoResults

  /** `nextStatus`. */
  function NextStatus(cur: Status, action: Action): Option<Status> {
    match action
    case Schedule => if cur == Draft then Some(Scheduled) else None
    case Open => if cur == Draft || cur == Scheduled then Some(Active) else None
    case Pause => if cur == Active then Some(Paused) else None
    case Resume => if cur == Paused then Some(Active) else None
    case Close => if cur == Active || cur == Paused then Some(Closed) else None
    case Publish => if cur == Closed || cur == ResultsReady then Some(Published) else None
    case Unknown => None
  }

  predicate Ongoing(s: Status) { s == Active || s == Paused }

  // ----- Result rows of one election

  function Rows(results: map<ElectionId, seq<ResultRow>>, e: ElectionId): seq<ResultRow> {
    if e in results then results[e] else []
  }

  /** `COALESCE(MAX(version), 0)`. */
  function MaxVersion(rows: seq<ResultRow>): int {
    if rows == [] then 0
    else
      var m := MaxVersion(rows[..|rows| - 1]);
      var last := rows[|rows| - 1].version;
      if |rows| == 1 || last > m then last else m
  }

  /** `ORDER BY version DESC LIMIT 1`, as a row position. */
  function Latest(rows: seq<ResultRow>): (k: nat)
    requires rows != []
    ensures k < |rows| && rows[k].version == MaxVersion(rows)
  {
    var n := |rows| - 1;
    if n == 0 || rows[n].version > MaxVersion(rows[..n]) then n
    else Latest(rows[..n])
  }

  /** No version is above the latest. */
  lemma {:induction false} LatestIsHighest(rows: seq<ResultRow>)
    requires rows != []
    ensures forall k :: 0 <= k < |rows| ==> rows[k].version <= rows[Latest(rows)].version
  {
    if |rows| > 1 {
      LatestIsHighest(rows[..|rows| - 1]);
    }
  }

  function Coalesce(stamp: Option<Time>, now: Time): Option<Time> {
    if stamp.Some? then stamp else Some(now)
  }

  /** Stamps the latest version, unless it already carries a stamp. */
  function StampLatest(rows: seq<ResultRow>, now: Time): (r: seq<ResultRow>)
    requires rows != []
    ensures |r| == |rows|
  {
    var k := Latest(rows);
    rows[k := rows[k].(publishedAt := Coalesce(rows[k].publishedAt, now))]
  }

  /** The first stamp stays: stamping again changes nothing. */
  lemma StampTwice(rows: seq<ResultRow>, first: Time, later: Time)
    requires rows != []
    ensures StampLatest(StampLatest(rows, first), later) == StampLatest(rows, first)
  {
    var stamped := StampLatest(rows, first);
    SameVersionsSameLatest(rows, stamped);
  }

  lemma {:induction false} SameVersionsSameLatest(a: seq<ResultRow>, b: seq<ResultRow>)
    requires |a| == |b| && forall k :: 0 <= k < |a| ==> a[k].version == b[k].version
    ensures MaxVersion(a) == MaxVersion(b) && (a != [] ==> Latest(a) == Latest(b))
  {
    if a != [] {
      SameVersionsSameLatest(a[..|a| - 1], b[..|b| - 1]);
    }
  }

  // ----- The transactions

  /** The effect of `Action`; `check` is the outcome of the open-time configuration checks. */
  function Acted(db: Db, e: ElectionId, admin: string, action: Action, check: Option<string>, now: Time): (Db, Code) {
    if e !in db.elections || db.elections[e].owner != admin then (db, NotFound)
    else
      var row := db.elections[e];
      match NextStatus(row.status, action)
      case None => (db, InvalidTransition)
      case Some(next) =>
        if action == Open && check.Some? then (db, NotReady(check.value))
        else if action == Close then
          (Db(db.elections[e := row.(status := next)], db.jobs + [Job(e, Queued, 0)], db.results), Ok)
        else if action == Publish then
          if Rows(db.results, e) == [] then (db, NoResults)
          else (Db(db.elections[e := row.(status := next, publishedAt := Some(now))], db.jobs,
                   db.results[e := StampLatest(Rows(db.results, e), now)]), Ok)
        else (db.(elections := db.elections[e := row.(status := next)]), Ok)
  }

  /** One pass of the auto-close loop. */
  function ClosedOne(db: Db, e: ElectionId): Db
    requires e in db.elections
  {
    var row := db.elections[e];
    Db(if Ongoing(row.status) then db.elections[e := row.(status := Closed)] else db.elections,
       db.jobs + [Job(e, Queued, 0)], db.results)
  }

  function ClosedAll(db: Db, due: seq<ElectionId>): (r: Db)
    requires forall e :: e in due ==> e in db.elections
    ensures r.elections.Keys == db.elections.Keys
  {
    if due == [] then db
    else ClosedOne(ClosedAll(db, due[..|due| - 1]), due[|due| - 1])
  }

  /** One pass of the auto-publish loop. */
  function PublishedOne(db: Db, e: ElectionId, now: Time): Db
    requires e in db.elections
  {
    var row, rows := db.elections[e], Rows(db.results, e);
    if rows == [] then db
    else
      Db(if row.status == ResultsReady
         then db.elections[e := row.(status := Published, publishedAt := Some(now))] else db.elections,
         db.jobs, db.results[e := StampLatest(rows, now)])
  }

  function PublishedAll(db: Db, due: seq<ElectionId>, now: Time): (r: Db)
    requires forall e :: e in due ==> e in db.elections
    ensures r.elections.Keys == db.elections.Keys
  {
    if due == [] then db
    else PublishedOne(PublishedAll(db, due[..|due| - 1], now), due[|due| - 1], now)
  }

  /** The oldest queued job whose row is not locked by another worker. */
  function NextQueued(jobs: seq<Job>, locked: set<nat>): (r: Option<nat>)
    ensures r.Some? ==> r.value < |jobs| && jobs[r.value].status == Queued && r.value !in locked
    ensures r.Some? ==> forall k :: 0 <= k < r.value ==> jobs[k].status != Queued || k in locked
    ensures r.None? ==> forall k :: 0 <= k < |jobs| ==> jobs[k].status != Queued || k in locked
  {
    if jobs == [] then None
    else
      var n := |jobs| - 1;
      var r := NextQueued(jobs[..n], locked);
      if r.Some? then r
      else if jobs[n].status == Queued && n !in locked then Some(n)
      else None
  }

  function Claimed(db: Db, locked: set<nat>): Db {
    match NextQueued(db.jobs, locked)
    case None => db
    case Some(k) => db.(jobs := db.jobs[k := db.jobs[k].(status := Running, claims := db.jobs[k].claims + 1)])
  }

  /** A successful result message: new version, closed to results_ready, job done. */
  function Applied(db: Db, job: nat, e: ElectionId): Db {
    var rows := Rows(db.results, e);
    Db(if e in db.elections && db.elections[e].status == Closed
       then db.elections[e := db.elections[e].(status := ResultsReady)] else db.elections,
       if job < |db.jobs| then db.jobs[job := db.jobs[job].(status := Finished)] else db.jobs,
       db.results[e := rows + [ResultRow(MaxVersion(rows) + 1, None)]])
  }

  function JobFailed(db: Db, job: nat): Db {
    if job < |db.jobs| then db.(jobs := db.jobs[job := db.jobs[job].(status := Failed)]) else db
  }

  // ----- The service and the worker

  class Store {
    var elections: map<ElectionId, Election>
    var jobs: seq<Job>
    var results: map<ElectionId, seq<ResultRow>>

    constructor ()
      ensures Snap() == Db(map[], [], map[])
    {
      elections, jobs, results := map[], [], map[];
    }

    function Snap(): Db
      reads this
    {
      Db(elections, jobs, results)
    }

    /** `Service.Action`: a returned code other than `Ok` has rolled the transaction back. */
    method Act(e: ElectionId, admin: string, action: Action, check: Option<string>, now: Time) returns (code: Code)
      modifies this
      ensures (Snap(), code) == Acted(old(Snap()), e, admin, action, check, now)
    {
      if e !in elections || elections[e].owner != admin {
        return NotFound;
      }
      var status := elections[e].status;
      var next: Status;
      if action == Open {
        if status != Draft && status != Scheduled {
          return InvalidTransition;
        }
        if check.Some? {
          return NotReady(check.value);
        }
        next := Active;
      } else {
        var found := NextStatus(status, action);
        if found.None? {
          return InvalidTransition;
        }
        next := found.value;
      }
      var begin := elections;
      if action == Close {
        elections := elections[e := elections[e].(status := next)];
        jobs := jobs + [Job(e, Queued, 0)];
      } else if action == Publish {
        elections := elections[e := elections[e].(status := next, publishedAt := Some(now))];
        var rows := Rows(results, e);
        if rows == [] {
          elections := begin;
          return NoResults;
        }
        results := results[e := StampLatest(rows, now)];
      } else {
        elections := elections[e := elections[e].(status := next)];
      }
      return Ok;
    }

    /** `autoCloseDueElections`, given the rows its query selected. */
    method AutoClose(due: seq<ElectionId>)
      requires forall e :: e in due ==> e in elections
      modifies this
      ensures Snap() == ClosedAll(old(Snap()), due)
    {
      for k := 0 to |due|
        invariant elections.Keys == old(elections.Keys)
        invariant Snap() == ClosedAll(old(Snap()), due[..k])
      {
        var e := due[k];
        assert due[..k + 1][..k] == due[..k];
        if Ongoing(elections[e].status) {
          elections := elections[e := elections[e].(status := Closed)];
        }
        jobs := jobs + [Job(e, Queued, 0)];
      }
      assert due[..|due|] == due;
    }

    /** `autoPublishDueElections`, given the rows its query selected. */
    method AutoPublish(due: seq<ElectionId>, now: Time)
      requires forall e :: e in due ==> e in elections
      modifies this
      ensures Snap() == PublishedAll(old(Snap()), due, now)
    {
      for k := 0 to |due|
        invariant elections.Keys == old(elections.Keys)
        invariant Snap() == PublishedAll(old(Snap()), due[..k], now)
      {
        var e := due[k];
        assert due[..k + 1][..k] == due[..k];
        var rows := Rows(results, e);
        if rows == [] {
          continue;
        }
        results := results[e := StampLatest(rows, now)];
        if elections[e].status == ResultsReady {
          elections := elections[e := elections[e].(status := Published, publishedAt := Some(now))];
        }
      }
      assert due[..|due|] == due;
    }

    /** `ClaimNext`. */
    method ClaimNext(locked: set<nat>) returns (job: Option<nat>)
      modifies `jobs
      ensures Snap() == Claimed(old(Snap()), locked)
      ensures job == NextQueued(old(jobs), locked)
    {
      job := NextQueued(jobs, locked);
      if job.Some? {
        var k := job.value;
        jobs := jobs[k := jobs[k].(status := Running, claims := jobs[k].claims + 1)];
      }
    }

    /** `applyElectionTallyResult` for a successful message. */
    method ApplyResult(job: nat, e: ElectionId)
      modifies this
      ensures Snap() == Applied(old(Snap()), job, e)
    {
      var rows := Rows(results, e);
      var version := MaxVersion(rows) + 1;
      results := results[e := rows + [ResultRow(version, None)]];
      if e in elections && elections[e].status == Closed {
        elections := elections[e := elections[e].(status := ResultsReady)];
      }
      if job < |jobs| {
        jobs := jobs[job := jobs[job].(status := Finished)];
      }
    }
  }

  // ----- Runs

  /**
   * What may happen next. A result or error message is produced only for a job that a worker has
   * claimed, and may be delivered any number of times.
   */
  datatype Event =
    | Created(e: ElectionId, owner: string, endAt: Time, publishAt: Option<Time>)
    | RulesChanged(e: ElectionId, publishAt: Option<Time>)
    | Acting(e: ElectionId, admin: string, action: Action, check: Option<string>, now: Time)
    | AutoClosing(due: seq<ElectionId>, now: Time)
    | AutoPublishing(due: seq<ElectionId>, now: Time)
    | Claiming(locked: set<nat>)
    | Delivered(job: nat, e: ElectionId)
    | Errored(job: nat)

  /** `due` is some of the rows the scheduler's query matches, each once: other rows may be locked. */
  ghost predicate DueToClose(db: Db, due: seq<ElectionId>, now: Time) {
    NoDup(due) && forall e :: e in due ==>
      e in db.elections && Ongoing(db.elections[e].status) && db.elections[e].endAt <= now
  }

  ghost predicate DueToPublish(db: Db, due: seq<ElectionId>, now: Time) {
    NoDup(due) && forall e :: e in due ==>
      && e in db.elections && db.elections[e].status == ResultsReady
      && db.elections[e].publishAt.Some? && db.elections[e].publishAt.value <= now
  }

  ghost predicate Enabled(db: Db, ev: Event) {
    match ev
    case Created(e, _, _, _) => e !in db.elections
    case RulesChanged(e, _) => e in db.elections
    case AutoClosing(due, now) => DueToClose(db, due, now)
    case AutoPublishing(due, now) => DueToPublish(db, due, now)
    case Delivered(job, e) => job < |db.jobs| && db.jobs[job].election == e && db.jobs[job].claims > 0
    case _ => true
  }

  ghost function Step(db: Db, ev: Event): Db {
    if !Enabled(db, ev) then db
    else
      match ev
      case Created(e, owner, endAt, publishAt) =>
        db.(elections := db.elections[e := Election(owner, Draft, endAt, publishAt, None)])
      case RulesChanged(e, publishAt) => db.(elections := db.elections[e := db.elections[e].(publishAt := publishAt)])
      case Acting(e, admin, action, check, now) => Acted(db, e, admin, action, check, now).0
      case AutoClosing(due, _) => ClosedAll(db, due)
      case AutoPublishing(due, now) => PublishedAll(db, due, now)
      case Claiming(locked) => Claimed(db, locked)
      case Delivered(job, e) => Applied(db, job, e)
      case Errored(job) => JobFailed(db, job)
  }

  ghost function Run(db: Db, events: seq<Event>): Db {
    if events == [] then db
    else Step(Run(db, events[..|events| - 1]), events[|events| - 1])
  }

  const EMPTY := Db(map[], [], map[])

  // ----- The invariant

  predicate Tallied(s: Status) { s == Closed || s == ResultsReady || s == Published }

  function For(e: ElectionId): Job -> int {
    (j: Job) => if j.election == e then 1 else 0
  }

  /** How many tally jobs election `e` has. */
  function JobCount(jobs: seq<Job>, e: ElectionId): int {
    Sum(jobs, For(e))
  }

  /** Versions are 1, 2, ..., k in the order they were written. */
  predicate Numbered(rows: seq<ResultRow>) {
    forall k :: 0 <= k < |rows| ==> rows[k].version == k + 1
  }

  predicate Unstamped(rows: seq<ResultRow>) {
    forall k :: 0 <= k < |rows| ==> rows[k].publishedAt.None?
  }

  /** Exactly one version carries a stamp, and it is the election's publication time. */
  predicate StampedOnce(rows: seq<ResultRow>, at: Option<Time>) {
    at.Some? && exists k :: 0 <= k < |rows| && rows[k].publishedAt == at
                         && forall m :: 0 <= m < |rows| && m != k ==> rows[m].publishedAt.None?
  }

  predicate ElectionOk(row: Election, rows: seq<ResultRow>, jobCount: int) {
    && jobCount == (if Tallied(row.status) then 1 else 0)
    && Numbered(rows)
    && (rows != [] <==> row.status == ResultsReady || row.status == Published)
    && (if row.status == Published then StampedOnce(rows, row.publishedAt)
        else row.publishedAt.None? && Unstamped(rows))
  }

  ghost predicate Inv(db: Db) {
    && (forall e :: e in db.elections ==> ElectionOk(db.elections[e], Rows(db.results, e), JobCount(db.jobs, e)))
    && (forall e :: e !in db.elections ==> Rows(db.results, e) == [] && JobCount(db.jobs, e) == 0)
    && ClaimsOk(db.jobs)
  }

  lemma {:induction false} NumberedMax(rows: seq<ResultRow>)
    requires Numbered(rows)
    ensures MaxVersion(rows) == |rows|
    ensures rows != [] ==> Latest(rows) == |rows| - 1
  {
    if rows != [] {
      NumberedMax(rows[..|rows| - 1]);
    }
  }

  lemma JobAppended(jobs: seq<Job>, j: Job, e: ElectionId)
    ensures JobCount(jobs + [j], e) == JobCount(jobs, e) + (if j.election == e then 1 else 0)
  {
    SumAppend(jobs, [j], For(e));
  }

  /** Updating a job without moving it to another election changes no count. */
  lemma JobUpdated(jobs: seq<Job>, k: nat, j: Job, e: ElectionId)
    requires k < |jobs| && j.election == jobs[k].election
    ensures JobCount(jobs[k := j], e) == JobCount(jobs, e)
  {
    SumPullOut(jobs, k, For(e));
    SumPullOut(jobs[k := j], k, For(e));
    assert jobs[k := j][..k] == jobs[..k] && jobs[k := j][k + 1..] == jobs[k + 1..];
  }

  lemma {:induction false} JobCounted(jobs: seq<Job>, k: nat, e: ElectionId)
    requires k < |jobs| && jobs[k].election == e
    ensures JobCount(jobs, e) >= 1
  {
    SumPullOut(jobs, k, For(e));
    var zero: Job -> int := (j: Job) => 0;
    SumConst(jobs[..k] + jobs[k + 1..], zero, 0);
    SumLe(jobs[..k] + jobs[k + 1..], zero, For(e));
  }

  lemma StampKeepsNumbers(rows: seq<ResultRow>, now: Time)
    requires Numbered(rows) && rows != [] && Unstamped(rows)
    ensures Numbered(StampLatest(rows, now)) && StampedOnce(StampLatest(rows, now), Some(now))
    ensures StampLatest(rows, now)[|rows| - 1].publishedAt == Some(now)
  {
    NumberedMax(rows);
    var r := StampLatest(rows, now);
    assert r[|rows| - 1].publishedAt == Some(now);
  }

  ghost predicate ClaimsOk(jobs: seq<Job>) {
    forall k :: 0 <= k < |jobs| ==> jobs[k].claims <= (if jobs[k].status == Queued then 0 else 1)
  }

  /** A step that touches one election only has to be checked there. */
  lemma InvElsewhere(db: Db, after: Db, e: ElectionId)
    requires Inv(db) && e in db.elections && after.elections.Keys == db.elections.Keys
    requires forall x :: x in db.elections && x != e ==> after.elections[x] == db.elections[x]
    requires forall x :: x != e ==> Rows(after.results, x) == Rows(db.results, x)
    requires forall x :: x != e ==> JobCount(after.jobs, x) == JobCount(db.jobs, x)
    requires ElectionOk(after.elections[e], Rows(after.results, e), JobCount(after.jobs, e))
    requires ClaimsOk(after.jobs)
    ensures Inv(after)
  {
  }

  /** Moving an election among the stages before closing touches neither jobs nor results. */
  lemma StatusKeepsInv(db: Db, e: ElectionId, next: Status)
    requires Inv(db) && e in db.elections && !Tallied(db.elections[e].status) && !Tallied(next)
    ensures Inv(db.(elections := db.elections[e := db.elections[e].(status := next)]))
  {
  }

  lemma PublishKeepsInv(db: Db, e: ElectionId, now: Time)
    requires Inv(db) && e in db.elections && Rows(db.results, e) != []
    requires NextStatus(db.elections[e].status, Publish).Some?
    ensures Inv(Db(db.elections[e := db.elections[e].(status := Published, publishedAt := Some(now))], db.jobs,
                   db.results[e := StampLatest(Rows(db.results, e), now)]))
  {
    assert ElectionOk(db.elections[e], Rows(db.results, e), JobCount(db.jobs, e));
    StampKeepsNumbers(Rows(db.results, e), now);
    InvElsewhere(db, Db(db.elections[e := db.elections[e].(status := Published, publishedAt := Some(now))], db.jobs,
                        db.results[e := StampLatest(Rows(db.results, e), now)]), e);
  }

  lemma ActedKeepsInv(db: Db, e: ElectionId, admin: string, action: Action, check: Option<string>, now: Time)
    requires Inv(db)
    ensures Inv(Acted(db, e, admin, action, check, now).0)
  {
    if Acted(db, e, admin, action, check, now).1 == Ok {
      if action == Close {
        ClosedOneKeepsInv(db, e);
      } else if action == Publish {
        PublishKeepsInv(db, e, now);
      } else {
        StatusKeepsInv(db, e, NextStatus(db.elections[e].status, action).value);
      }
    }
  }

  lemma ClosedOneKeepsInv(db: Db, e: ElectionId)
    requires Inv(db) && e in db.elections && Ongoing(db.elections[e].status)
    ensures Inv(ClosedOne(db, e))
  {
    forall x ensures JobCount(db.jobs + [Job(e, Queued, 0)], x) == JobCount(db.jobs, x) + (if x == e then 1 else 0) {
      JobAppended(db.jobs, Job(e, Queued, 0), x);
    }
    assert ElectionOk(db.elections[e], Rows(db.results, e), JobCount(db.jobs, e));
    InvElsewhere(db, ClosedOne(db, e), e);
  }

  lemma PublishedOneKeepsInv(db: Db, e: ElectionId, now: Time)
    requires Inv(db) && e in db.elections && db.elections[e].status == ResultsReady
    ensures Inv(PublishedOne(db, e, now))
  {
    assert ElectionOk(db.elections[e], Rows(db.results, e), JobCount(db.jobs, e));
    StampKeepsNumbers(Rows(db.results, e), now);
    InvElsewhere(db, PublishedOne(db, e, now), e);
  }

  lemma {:induction false} ClosedAllKeepsInv(db: Db, due: seq<ElectionId>)
    requires Inv(db) && NoDup(due)
    requires forall e :: e in due ==> e in db.elections && Ongoing(db.elections[e].status)
    ensures Inv(ClosedAll(db, due))
    ensures forall e :: e in db.elections && e !in due ==> ClosedAll(db, due).elections[e] == db.elections[e]
  {
    if due != [] {
      var n := |due| - 1;
      assert due == due[..n] + [due[n]];
      ClosedAllKeepsInv(db, due[..n]);
      assert due[n] !in due[..n] && due[n] in due;
      ClosedOneKeepsInv(ClosedAll(db, due[..n]), due[n]);
    }
  }

  lemma {:induction false} PublishedAllKeepsInv(db: Db, due: seq<ElectionId>, now: Time)
    requires Inv(db) && NoDup(due)
    requires forall e :: e in due ==> e in db.elections && db.elections[e].status == ResultsReady
    ensures Inv(PublishedAll(db, due, now))
    ensures forall e :: e in db.elections && e !in due ==> PublishedAll(db, due, now).elections[e] == db.elections[e]
  {
    if due != [] {
      var n := |due| - 1;
      assert due == due[..n] + [due[n]];
      PublishedAllKeepsInv(db, due[..n], now);
      assert due[n] !in due[..n] && due[n] in due;
      PublishedOneKeepsInv(PublishedAll(db, due[..n], now), due[n], now);
    }
  }

  lemma JobRewrittenKeepsInv(db: Db, k: nat, j: Job)
    requires Inv(db) && k < |db.jobs| && j.election == db.jobs[k].election
    requires j.claims <= (if j.status == Queued then 0 else 1)
    ensures Inv(db.(jobs := db.jobs[k := j]))
  {
    forall x ensures JobCount(db.jobs[k := j], x) == JobCount(db.jobs, x) {
      JobUpdated(db.jobs, k, j, x);
    }
  }

  /** One more version on an election that has its tally job. */
  lemma GrownOk(row: Election, rows: seq<ResultRow>)
    requires ElectionOk(row, rows, 1)
    ensures var grown := rows + [ResultRow(MaxVersion(rows) + 1, None)];
            ElectionOk(if row.status == Closed then row.(status := ResultsReady) else row, grown, 1)
  {
    NumberedMax(rows);
    var grown := rows + [ResultRow(MaxVersion(rows) + 1, None)];
    assert Numbered(grown);
    if row.status == Published {
      var k :| 0 <= k < |rows| && rows[k].publishedAt == row.publishedAt
               && forall m :: 0 <= m < |rows| && m != k ==> rows[m].publishedAt.None?;
      assert grown[k].publishedAt == row.publishedAt;
    }
  }

  lemma AppliedKeepsInv(db: Db, job: nat, e: ElectionId)
    requires Inv(db) && Enabled(db, Delivered(job, e))
    ensures Inv(Applied(db, job, e))
  {
    JobCounted(db.jobs, job, e);
    assert e in db.elections;
    assert ElectionOk(db.elections[e], Rows(db.results, e), JobCount(db.jobs, e));
    GrownOk(db.elections[e], Rows(db.results, e));
    var mid := Applied(db, |db.jobs|, e);
    InvElsewhere(db, mid, e);
    JobRewrittenKeepsInv(mid, job, db.jobs[job].(status := Finished));
  }

  lemma CreatedKeepsInv(db: Db, e: ElectionId, row: Election)
    requires Inv(db) && e !in db.elections && row.status == Draft && row.publishedAt.None?
    ensures Inv(db.(elections := db.elections[e := row]))
  {
    assert Rows(db.results, e) == [] && JobCount(db.jobs, e) == 0;
  }

  lemma RulesChangedKeepsInv(db: Db, e: ElectionId, publishAt: Option<Time>)
    requires Inv(db) && e in db.elections
    ensures Inv(db.(elections := db.elections[e := db.elections[e].(publishAt := publishAt)]))
  {
    assert ElectionOk(db.elections[e], Rows(db.results, e), JobCount(db.jobs, e));
    InvElsewhere(db, db.(elections := db.elections[e := db.elections[e].(publishAt := publishAt)]), e);
  }

  lemma ClaimedKeepsInv(db: Db, locked: set<nat>)
    requires Inv(db)
    ensures Inv(Claimed(db, locked))
  {
    var next := NextQueued(db.jobs, locked);
    if next.Some? {
      var k := next.value;
      JobRewrittenKeepsInv(db, k, db.jobs[k].(status := Running, claims := db.jobs[k].claims + 1));
    }
  }

  /** Every step keeps the invariant. */
  lemma StepKeepsInv(db: Db, ev: Event)
    requires Inv(db)
    ensures Inv(Step(db, ev))
  {
    if Enabled(db, ev) {
      match ev
      case Created(e, owner, endAt, publishAt) =>
        CreatedKeepsInv(db, e, Election(owner, Draft, endAt, publishAt, None));
      case RulesChanged(e, publishAt) => RulesChangedKeepsInv(db, e, publishAt);
      case Acting(e, admin, action, check, now) => ActedKeepsInv(db, e, admin, action, check, now);
      case AutoClosing(due, _) => ClosedAllKeepsInv(db, due);
      case AutoPublishing(due, now) => PublishedAllKeepsInv(db, due, now);
      case Claiming(locked) => ClaimedKeepsInv(db, locked);
      case Delivered(job, e) => AppliedKeepsInv(db, job, e);
      case Errored(job) =>
        if job < |db.jobs| {
          JobRewrittenKeepsInv(db, job, db.jobs[job].(status := Failed));
        }
    }
  }

  /**
   * In every reachable state an election has exactly one tally job once closed and none before,
   * no job is claimed twice, versions are 1..k, and a published election has exactly one stamped
   * version.
   */
  lemma {:induction false} AlwaysInv(events: seq<Event>)
    ensures Inv(Run(EMPTY, events))
  {
    if events == [] {
      forall e ensures JobCount([], e) == 0 {
      }
    } else {
      AlwaysInv(events[..|events| - 1]);
      StepKeepsInv(Run(EMPTY, events[..|events| - 1]), events[|events| - 1]);
    }
  }

  // ----- The only way forward

  /** The moves an election can make in one step. Results come only after closing, publication only after results. */
  predicate Follows(a: Status, b: Status) {
    match b
    case Draft => false
    case Scheduled => a == Draft
    case Active => a == Draft || a == Scheduled || a == Paused
    case Paused => a == Active
    case Closed => Ongoing(a)
    case ResultsReady => a == Closed
    case Published => a == ResultsReady
  }

  lemma {:induction false} ClosedAllStatus(db: Db, due: seq<ElectionId>, e: ElectionId)
    requires e in db.elections && forall x :: x in due ==> x in db.elections
    ensures ClosedAll(db, due).elections[e].status == db.elections[e].status
         || (ClosedAll(db, due).elections[e].status == Closed && Ongoing(db.elections[e].status))
  {
    if due != [] {
      assert due == due[..|due| - 1] + [due[|due| - 1]];
      ClosedAllStatus(db, due[..|due| - 1], e);
    }
  }

  lemma {:induction false} PublishedAllStatus(db: Db, due: seq<ElectionId>, now: Time, e: ElectionId)
    requires e in db.elections && forall x :: x in due ==> x in db.elections
    ensures PublishedAll(db, due, now).elections[e].status == db.elections[e].status
         || (PublishedAll(db, due, now).elections[e].status == Published && db.elections[e].status == ResultsReady)
  {
    if due != [] {
      assert due == due[..|due| - 1] + [due[|due| - 1]];
      PublishedAllStatus(db, due[..|due| - 1], now, e);
    }
  }

  /** An election's status is left alone or moves one step on. */
  predicate SameOrFollows(a: Status, b: Status) { b == a || Follows(a, b) }

  lemma ActedFollows(
    db: Db, e: ElectionId, admin: string, action: Action, check: Option<string>, now: Time, x: ElectionId)
    requires Inv(db) && x in db.elections
    ensures var after := Acted(db, e, admin, action, check, now).0;
            x in after.elections && SameOrFollows(db.elections[x].status, after.elections[x].status)
  {
  }

  lemma StepFollows(db: Db, ev: Event, e: ElectionId)
    requires Inv(db) && e in db.elections
    ensures e in Step(db, ev).elections
    ensures SameOrFollows(db.elections[e].status, Step(db, ev).elections[e].status)
  {
    if Enabled(db, ev) {
      match ev
      case Acting(x, admin, action, check, now) => ActedFollows(db, x, admin, action, check, now, e);
      case AutoClosing(due, _) => ClosedAllStatus(db, due, e);
      case AutoPublishing(due, now) => PublishedAllStatus(db, due, now, e);
      case _ =>
    }
  }

  /** In every reachable state the next step leaves an election's status alone or makes one of these moves. */
  lemma StatusMovesForward(events: seq<Event>, ev: Event, e: ElectionId)
    requires e in Run(EMPTY, events).elections
    ensures var before, after := Run(EMPTY, events), Step(Run(EMPTY, events), ev);
            && e in after.elections
            && SameOrFollows(before.elections[e].status, after.elections[e].status)
  {
    AlwaysInv(events);
    StepFollows(Run(EMPTY, events), ev, e);
  }

  /** What an action needs, beyond its owner asking for it. */
  predicate Allowed(s: Status, action: Action, check: Option<string>) {
    match action
    case Schedule => s == Draft
    case Open => (s == Draft || s == Scheduled) && check.None?
    case Pause => s == Active
    case Resume => s == Paused
    case Close => Ongoing(s)
    case Publish => s == ResultsReady
    case Unknown => false
  }

  /** The status each action leads to. */
  predicate LeadsTo(action: Action, s: Status) {
    match action
    case Schedule => s == Scheduled
    case Open => s == Active
    case Pause => s == Paused
    case Resume => s == Active
    case Close => s == Closed
    case Publish => s == Published
    case Unknown => false
  }

  /** In every reachable state an action succeeds exactly when it is allowed, and each refusal has its own condition. */
  lemma ActionSucceedsIff(
    events: seq<Event>, e: ElectionId, admin: string, action: Action, check: Option<string>, now: Time)
    ensures SucceedsIffAllowed(Run(EMPTY, events), e, admin, action, check, now)
  {
    AlwaysInv(events);
    InvSucceedsIffAllowed(Run(EMPTY, events), e, admin, action, check, now);
  }

  ghost predicate Owns(db: Db, e: ElectionId, admin: string) {
    e in db.elections && db.elections[e].owner == admin
  }

  ghost predicate SucceedsIffAllowed(
    db: Db, e: ElectionId, admin: string, action: Action, check: Option<string>, now: Time)
  {
    var (after, code) := Acted(db, e, admin, action, check, now);
    && (code == Ok <==> Owns(db, e, admin) && Allowed(db.elections[e].status, action, check))
    && (code == NotFound <==> !Owns(db, e, admin))
    && (code == NoResults <==> Owns(db, e, admin) && action == Publish && db.elections[e].status == Closed)
    && (code.NotReady? <==>
          Owns(db, e, admin) && action == Open && Allowed(db.elections[e].status, Open, None) && check.Some?)
    && (code.NotReady? ==> check == Some(code.check))
    && (code != Ok ==> after == db)
  }

  lemma InvSucceedsIffAllowed(db: Db, e: ElectionId, admin: string, action: Action, check: Option<string>, now: Time)
    requires Inv(db)
    ensures SucceedsIffAllowed(db, e, admin, action, check, now)
  {
    if e in db.elections {
      assert ElectionOk(db.elections[e], Rows(db.results, e), JobCount(db.jobs, e));
    }
  }

  /** All elections but `e` and their results are as before. */
  ghost predicate OthersKept(db: Db, after: Db, e: ElectionId) {
    && after.elections.Keys == db.elections.Keys
    && (forall x :: x in db.elections && x != e ==> after.elections[x] == db.elections[x])
    && forall x :: x != e ==> Rows(after.results, x) == Rows(db.results, x)
  }

  /** What a successful action does: the status it leads to, a job on closing, a stamp on publishing, no more. */
  lemma ActionDoes(db: Db, e: ElectionId, admin: string, action: Action, check: Option<string>, now: Time)
    requires Acted(db, e, admin, action, check, now).1 == Ok
    ensures var after := Acted(db, e, admin, action, check, now).0;
            && e in db.elections && OthersKept(db, after, e)
            && LeadsTo(action, after.elections[e].status)
            && after.elections[e] == db.elections[e].(
                 status := after.elections[e].status,
                 publishedAt := if action == Publish then Some(now) else db.elections[e].publishedAt)
            && after.jobs == db.jobs + (if action == Close then [Job(e, Queued, 0)] else [])
            && Rows(after.results, e)
                 == (if action == Publish then StampLatest(Rows(db.results, e), now) else Rows(db.results, e))
  {
  }

  /** Publishing a closed election never succeeds: there is nothing to publish, and nothing changes. */
  lemma PublishFromClosedIsRolledBack(events: seq<Event>, e: ElectionId, check: Option<string>, now: Time)
    requires e in Run(EMPTY, events).elections && Run(EMPTY, events).elections[e].status == Closed
    ensures var db := Run(EMPTY, events);
            Acted(db, e, db.elections[e].owner, Publish, check, now) == (db, NoResults)
  {
    AlwaysInv(events);
    var db := Run(EMPTY, events);
    assert ElectionOk(db.elections[e], Rows(db.results, e), JobCount(db.jobs, e));
  }

  // ----- What the scheduler and the worker do

  /** One queued tally job for each of these elections. */
  function QueuedFor(due: seq<ElectionId>): (r: seq<Job>)
    ensures |r| == |due| && forall k :: 0 <= k < |r| ==> r[k] == Job(due[k], Queued, 0)
  {
    seq(|due|, k requires 0 <= k < |due| => Job(due[k], Queued, 0))
  }

  lemma {:induction false} ClosedAllExactly(db: Db, due: seq<ElectionId>)
    requires NoDup(due) && forall e :: e in due ==> e in db.elections && Ongoing(db.elections[e].status)
    ensures var after := ClosedAll(db, due);
            && after.jobs == db.jobs + QueuedFor(due) && after.results == db.results
            && forall e :: e in db.elections ==>
                 after.elections[e] == if e in due then db.elections[e].(status := Closed) else db.elections[e]
  {
    if due != [] {
      var n := |due| - 1;
      assert due == due[..n] + [due[n]];
      assert due[n] in due && due[n] !in due[..n];
      ClosedAllExactly(db, due[..n]);
      assert QueuedFor(due) == QueuedFor(due[..n]) + [Job(due[n], Queued, 0)];
    }
  }

  /**
   * From every reachable state an auto-close closes each due election, paused ones included, and queues its one
   * tally job; nothing else changes.
   */
  lemma AutoCloseCloses(events: seq<Event>, due: seq<ElectionId>, now: Time)
    requires Enabled(Run(EMPTY, events), AutoClosing(due, now))
    ensures var db := Run(EMPTY, events);
            var after := Step(db, AutoClosing(due, now));
            && (forall e :: e in due ==>
                  && after.elections[e] == db.elections[e].(status := Closed)
                  && JobCount(db.jobs, e) == 0 && JobCount(after.jobs, e) == 1)
            && (forall e :: e in db.elections && e !in due ==> after.elections[e] == db.elections[e])
            && after.jobs == db.jobs + QueuedFor(due) && after.results == db.results
  {
    var db := Run(EMPTY, events);
    AlwaysInv(events);
    ClosedAllExactly(db, due);
    ClosedAllKeepsInv(db, due);
    forall e | e in due ensures JobCount(db.jobs, e) == 0 && JobCount(ClosedAll(db, due).jobs, e) == 1 {
      assert ElectionOk(db.elections[e], Rows(db.results, e), JobCount(db.jobs, e));
    }
  }

  lemma {:induction false} PublishedAllExactly(db: Db, due: seq<ElectionId>, now: Time)
    requires NoDup(due)
    requires forall e :: e in due ==>
               e in db.elections && db.elections[e].status == ResultsReady && Rows(db.results, e) != []
    ensures var after := PublishedAll(db, due, now);
            && after.jobs == db.jobs
            && (forall e :: e in db.elections ==>
                  after.elections[e] == if e in due
                                        then db.elections[e].(status := Published, publishedAt := Some(now))
                                        else db.elections[e])
            && forall e :: Rows(after.results, e)
                 == if e in due then StampLatest(Rows(db.results, e), now) else Rows(db.results, e)
  {
    if due != [] {
      var n := |due| - 1;
      assert due == due[..n] + [due[n]];
      assert due[n] in due && due[n] !in due[..n];
      PublishedAllExactly(db, due[..n], now);
    }
  }

  /** The latest version, and no other, has got the stamp `now`. */
  ghost predicate OnlyLatestStamped(before: seq<ResultRow>, after: seq<ResultRow>, now: Time) {
    && before != [] && |after| == |before|
    && after[..|after| - 1] == before[..|before| - 1]
    && after[|after| - 1] == ResultRow(|after|, Some(now))
  }

  lemma StampOnlyLatest(rows: seq<ResultRow>, now: Time)
    requires Numbered(rows) && rows != [] && Unstamped(rows)
    ensures OnlyLatestStamped(rows, StampLatest(rows, now), now)
  {
    NumberedMax(rows);
  }

  /** From every reachable state an auto-publish publishes each due election and stamps its latest version. */
  lemma AutoPublishPublishes(events: seq<Event>, due: seq<ElectionId>, now: Time)
    requires Enabled(Run(EMPTY, events), AutoPublishing(due, now))
    ensures var db := Run(EMPTY, events);
            var after := Step(db, AutoPublishing(due, now));
            && (forall e :: e in due ==>
                  && after.elections[e] == db.elections[e].(status := Published, publishedAt := Some(now))
                  && OnlyLatestStamped(Rows(db.results, e), Rows(after.results, e), now))
            && (forall e :: e in db.elections && e !in due ==> after.elections[e] == db.elections[e])
            && (forall e :: e !in due ==> Rows(after.results, e) == Rows(db.results, e))
            && after.jobs == db.jobs
  {
    var db := Run(EMPTY, events);
    AlwaysInv(events);
    forall e | e in due
      ensures Rows(db.results, e) != []
      ensures OnlyLatestStamped(Rows(db.results, e), StampLatest(Rows(db.results, e), now), now)
    {
      assert ElectionOk(db.elections[e], Rows(db.results, e), JobCount(db.jobs, e));
      StampOnlyLatest(Rows(db.results, e), now);
    }
    PublishedAllExactly(db, due, now);
  }

  /** A new election starts as a draft; a change of rules moves only its publication date. */
  lemma ElectionsBegin(db: Db, ev: Event)
    requires ev.Created? || ev.RulesChanged?
    ensures var after := Step(db, ev);
            && after.jobs == db.jobs && after.results == db.results
            && (forall x :: x in db.elections && x != ev.e ==>
                  x in after.elections && after.elections[x] == db.elections[x])
            && (ev.Created? && ev.e !in db.elections ==>
                  ev.e in after.elections
                  && after.elections[ev.e] == Election(ev.owner, Draft, ev.endAt, ev.publishAt, None))
            && (ev.RulesChanged? && ev.e in db.elections ==>
                  ev.e in after.elections
                  && after.elections[ev.e] == db.elections[ev.e].(publishAt := ev.publishAt))
  {
  }

  /** Job k is the first in line: queued, not locked by another worker, and no older one is. */
  predicate FirstInLine(jobs: seq<Job>, locked: set<nat>, k: nat) {
    && k < |jobs| && jobs[k].status == Queued && k !in locked
    && forall m :: 0 <= m < k ==> jobs[m].status != Queued || m in locked
  }

  lemma ClaimTakesFirst(jobs: seq<Job>, locked: set<nat>, k: nat)
    ensures NextQueued(jobs, locked) == Some(k) <==> FirstInLine(jobs, locked, k)
  {
  }

  /** What becomes of a job in a step: claimed if first in line, ended by its message, and otherwise left alone. */
  lemma JobStep(db: Db, ev: Event, k: nat)
    requires k < |db.jobs|
    ensures k < |Step(db, ev).jobs|
    ensures Step(db, ev).jobs[k]
         == if ev.Claiming? && FirstInLine(db.jobs, ev.locked, k)
            then Job(db.jobs[k].election, Running, db.jobs[k].claims + 1)
            else if ev.Delivered? && ev.job == k && Enabled(db, ev)
            then Job(db.jobs[k].election, Finished, db.jobs[k].claims)
            else if ev.Errored? && ev.job == k
            then Job(db.jobs[k].election, Failed, db.jobs[k].claims)
            else db.jobs[k]
  {
    match ev
    case Claiming(locked) => ClaimTakesFirst(db.jobs, locked, k);
    case AutoClosing(due, now) =>
      if Enabled(db, ev) {
        ClosedAllExactly(db, due);
      }
    case AutoPublishing(due, now) =>
      if Enabled(db, ev) {
        PublishedAllLeavesJobs(db, due, now);
      }
    case _ =>
  }

  lemma {:induction false} PublishedAllLeavesJobs(db: Db, due: seq<ElectionId>, now: Time)
    requires forall x :: x in due ==> x in db.elections
    ensures PublishedAll(db, due, now).jobs == db.jobs
  {
    if due != [] {
      assert due == due[..|due| - 1] + [due[|due| - 1]];
      PublishedAllLeavesJobs(db, due[..|due| - 1], now);
    }
  }

  // ----- No way back

  function Rank(s: Status): nat {
    match s
    case Draft => 0
    case Scheduled => 1
    case Active => 2
    case Paused => 2
    case Closed => 3
    case ResultsReady => 4
    case Published => 5
  }

  /** `later` knows every election of `earlier`, none at an earlier stage or under another owner. */
  ghost predicate NotBehind(earlier: Db, later: Db) {
    && (forall e :: e in earlier.elections ==>
          && e in later.elections
          && Rank(earlier.elections[e].status) <= Rank(later.elections[e].status)
          && later.elections[e].owner == earlier.elections[e].owner)
    && |earlier.jobs| <= |later.jobs|
    && (forall k :: 0 <= k < |earlier.jobs| ==> later.jobs[k].election == earlier.jobs[k].election)
  }

  lemma {:induction false} ClosedAllNotBehind(db: Db, due: seq<ElectionId>)
    requires forall e :: e in due ==> e in db.elections
    ensures NotBehind(db, ClosedAll(db, due))
  {
    if due != [] {
      assert due == due[..|due| - 1] + [due[|due| - 1]];
      ClosedAllNotBehind(db, due[..|due| - 1]);
    }
  }

  lemma PublishedOneNotBehind(earlier: Db, db: Db, e: ElectionId, now: Time)
    requires NotBehind(earlier, db) && e in db.elections
    ensures NotBehind(earlier, PublishedOne(db, e, now))
  {
  }

  lemma {:induction false} PublishedAllNotBehind(db: Db, due: seq<ElectionId>, now: Time)
    requires forall e :: e in due ==> e in db.elections
    ensures NotBehind(db, PublishedAll(db, due, now))
  {
    if due != [] {
      assert due == due[..|due| - 1] + [due[|due| - 1]];
      PublishedAllNotBehind(db, due[..|due| - 1], now);
      PublishedOneNotBehind(db, PublishedAll(db, due[..|due| - 1], now), due[|due| - 1], now);
    }
  }

  lemma NextStatusAdvances(s: Status, action: Action)
    ensures NextStatus(s, action).Some? ==> Rank(s) <= Rank(NextStatus(s, action).value)
  {
  }

  lemma ActedNotBehind(db: Db, e: ElectionId, admin: string, action: Action, check: Option<string>, now: Time)
    ensures NotBehind(db, Acted(db, e, admin, action, check, now).0)
  {
    if e in db.elections {
      NextStatusAdvances(db.elections[e].status, action);
    }
  }

  lemma StepNotBehind(db: Db, ev: Event)
    ensures NotBehind(db, Step(db, ev))
  {
    if Enabled(db, ev) {
      match ev
      case Acting(e, admin, action, check, now) => ActedNotBehind(db, e, admin, action, check, now);
      case AutoClosing(due, _) => ClosedAllNotBehind(db, due);
      case AutoPublishing(due, now) => PublishedAllNotBehind(db, due, now);
      case _ =>
    }
  }

  /** Over any run, no election ever moves back to an earlier stage. */
  lemma {:induction false} NeverBackwards(db: Db, events: seq<Event>)
    ensures NotBehind(db, Run(db, events))
  {
    if events != [] {
      NeverBackwards(db, events[..|events| - 1]);
      StepNotBehind(Run(db, events[..|events| - 1]), events[|events| - 1]);
    }
  }

  // ----- Which version readers see

  /** The latest version, the one the results service returns, is the published one. */
  ghost predicate LatestIsStamped(db: Db, e: ElectionId) {
    var rows := Rows(db.results, e);
    rows != [] && rows[Latest(rows)].publishedAt.Some?
  }

  ghost predicate AppliesTo(db: Db, ev: Event, e: ElectionId) {
    ev.Delivered? && ev.e == e && Enabled(db, ev)
  }

  /** Some event of the run writes another version of `e`. */
  ghost predicate Redelivered(db: Db, events: seq<Event>, e: ElectionId) {
    events != []
    && (Redelivered(db, events[..|events| - 1], e)
        || AppliesTo(Run(db, events[..|events| - 1]), events[|events| - 1], e))
  }

  lemma {:induction false} PublishedAllLeavesRows(db: Db, due: seq<ElectionId>, now: Time, e: ElectionId)
    requires forall x :: x in due ==> x in db.elections
    requires e !in due
    ensures Rows(PublishedAll(db, due, now).results, e) == Rows(db.results, e)
  {
    if due != [] {
      assert due == due[..|due| - 1] + [due[|due| - 1]];
      PublishedAllLeavesRows(db, due[..|due| - 1], now, e);
    }
  }

  lemma {:induction false} ClosedAllLeavesResults(db: Db, due: seq<ElectionId>)
    requires forall x :: x in due ==> x in db.elections
    ensures ClosedAll(db, due).results == db.results
  {
    if due != [] {
      assert due == due[..|due| - 1] + [due[|due| - 1]];
      ClosedAllLeavesResults(db, due[..|due| - 1]);
    }
  }

  lemma DeliveryOutdatesReaders(db: Db, job: nat, e: ElectionId)
    requires Inv(db) && Enabled(db, Delivered(job, e)) && e in db.elections && db.elections[e].status == Published
    ensures !LatestIsStamped(Applied(db, job, e), e)
  {
  }

  /** Only another result message touches the versions of a published election. */
  lemma StepOnPublished(db: Db, ev: Event, e: ElectionId)
    requires Inv(db) && e in db.elections && db.elections[e].status == Published
    ensures if AppliesTo(db, ev, e) then !LatestIsStamped(Step(db, ev), e)
            else Rows(Step(db, ev).results, e) == Rows(db.results, e)
  {
    if Enabled(db, ev) {
      match ev
      case AutoClosing(due, _) => ClosedAllLeavesResults(db, due);
      case AutoPublishing(due, now) => PublishedAllLeavesRows(db, due, now, e);
      case Delivered(job, x) =>
        if x == e {
          DeliveryOutdatesReaders(db, job, e);
        }
      case _ =>
    }
  }

  /**
   * From a freshly published election, readers keep seeing the published version exactly as long
   * as no repeated result message has been applied.
   */
  lemma {:induction false} ReadersSeePublishedIffNotRedelivered(db: Db, events: seq<Event>, e: ElectionId)
    requires Inv(db) && e in db.elections && db.elections[e].status == Published && LatestIsStamped(db, e)
    ensures Inv(Run(db, events))
    ensures e in Run(db, events).elections && Run(db, events).elections[e].status == Published
    ensures LatestIsStamped(Run(db, events), e) <==> !Redelivered(db, events, e)
  {
    if events != [] {
      var before, last := events[..|events| - 1], events[|events| - 1];
      ReadersSeePublishedIffNotRedelivered(db, before, e);
      StepKeepsInv(Run(db, before), last);
      StepNotBehind(Run(db, before), last);
      StepOnPublished(Run(db, before), last, e);
    }
  }

  // ----- How readers come to see an unpublished version

  /** An election's way to publication, and one repeated result message. */
  function ToPublished(e: ElectionId, owner: string, now: Time): seq<Event> {
    [Created(e, owner, now, None), Acting(e, owner, Open, None, now), Acting(e, owner, Close, None, now), Claiming({}),
     Delivered(0, e), Acting(e, owner, Publish, None, now)]
  }

  function OneElection(
    e: ElectionId, owner: string, status: Status, now: Time, publishedAt: Option<Time>): map<ElectionId, Election>
  {
    map[e := Election(owner, status, now, None, publishedAt)]
  }

  lemma RunSnoc(db: Db, events: seq<Event>, ev: Event)
    ensures Run(db, events + [ev]) == Step(Run(db, events), ev)
  {
  }

  /** Created, opened and closed: a queued job. */
  lemma RunToClosed(e: ElectionId, owner: string, now: Time)
    ensures Run(EMPTY, ToPublished(e, owner, now)[..3])
         == Db(OneElection(e, owner, Closed, now, None), [Job(e, Queued, 0)], map[])
  {
    var es := ToPublished(e, owner, now);
    assert es[..1] == [] + [es[0]] && es[..2] == es[..1] + [es[1]] && es[..3] == es[..2] + [es[2]];
    RunSnoc(EMPTY, [], es[0]);
    RunSnoc(EMPTY, es[..1], es[1]);
    RunSnoc(EMPTY, es[..2], es[2]);
    assert Run(EMPTY, es[..1]) == Db(OneElection(e, owner, Draft, now, None), [], map[]);
    assert Run(EMPTY, es[..2]) == Db(OneElection(e, owner, Active, now, None), [], map[]);
  }

  /** Claimed and answered: the first version. */
  lemma RunToResults(e: ElectionId, owner: string, now: Time)
    ensures Run(EMPTY, ToPublished(e, owner, now)[..5])
         == Db(OneElection(e, owner, ResultsReady, now, None), [Job(e, Finished, 1)], map[e := [ResultRow(1, None)]])
  {
    var es := ToPublished(e, owner, now);
    RunToClosed(e, owner, now);
    assert es[..4] == es[..3] + [es[3]] && es[..5] == es[..4] + [es[4]];
    RunSnoc(EMPTY, es[..3], es[3]);
    RunSnoc(EMPTY, es[..4], es[4]);
    ClaimsOnlyJob(Run(EMPTY, es[..3]), e);
    AppliesFirst(Run(EMPTY, es[..4]), e);
  }

  lemma ClaimsOnlyJob(db: Db, e: ElectionId)
    requires db.jobs == [Job(e, Queued, 0)]
    ensures Step(db, Claiming({})) == db.(jobs := [Job(e, Running, 1)])
  {
  }

  lemma AppliesFirst(db: Db, e: ElectionId)
    requires db.jobs == [Job(e, Running, 1)] && db.results == map[]
    requires e in db.elections && db.elections[e].status == Closed
    ensures Step(db, Delivered(0, e))
         == Db(db.elections[e := db.elections[e].(status := ResultsReady)], [Job(e, Finished, 1)],
               map[e := [ResultRow(1, None)]])
  {
    assert Rows(db.results, e) == [] && [] + [ResultRow(1, None)] == [ResultRow(1, None)];
    assert db.jobs[0 := Job(e, Finished, 1)] == [Job(e, Finished, 1)];
  }

  /** Published: its only version is stamped. */
  lemma RunToPublished(e: ElectionId, owner: string, now: Time)
    ensures Run(EMPTY, ToPublished(e, owner, now))
         == Db(OneElection(e, owner, Published, now, Some(now)),
               [Job(e, Finished, 1)], map[e := [ResultRow(1, Some(now))]])
  {
    var es := ToPublished(e, owner, now);
    RunToResults(e, owner, now);
    assert es == es[..5] + [es[5]];
    RunSnoc(EMPTY, es[..5], es[5]);
    StampsOnly(now);
  }

  lemma StampsOnly(now: Time)
    ensures StampLatest([ResultRow(1, None)], now) == [ResultRow(1, Some(now))]
  {
  }

  /** Every election can be published so that readers get a stamped version, and one more message then hides it. */
  lemma RedeliveryHidesPublishedVersion(e: ElectionId, owner: string, now: Time)
    ensures var published := Run(EMPTY, ToPublished(e, owner, now));
            e in published.elections && published.elections[e].status == Published && LatestIsStamped(published, e)
    ensures var later := Run(EMPTY, ToPublished(e, owner, now) + [Delivered(0, e)]);
            e in later.elections && later.elections[e].status == Published && !LatestIsStamped(later, e)
  {
    var es := ToPublished(e, owner, now);
    var published := Run(EMPTY, es);
    RunToPublished(e, owner, now);
    AlwaysInv(es);
    RunSnoc(EMPTY, es, Delivered(0, e));
    assert AppliesTo(published, Delivered(0, e), e);
    StepOnPublished(published, Delivered(0, e), e);
    StepNotBehind(published, Delivered(0, e));
  }

  /** Publishing stamps the version readers then see. */
  lemma PublishStampsLatest(db: Db, e: ElectionId, admin: string, check: Option<string>, now: Time)
    requires Inv(db) && Acted(db, e, admin, Publish, check, now).1 == Ok
    ensures var after := Acted(db, e, admin, Publish, check, now).0;
            after.elections[e].status == Published && LatestIsStamped(after, e)
  {
  }
}
