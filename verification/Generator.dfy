/**
 * Synthetic ballots: validation and the ballot loop of datasets/generate.go and datasets/validate.go.
 * A dataset is a function of its request, the seed included.
 */
module Generator {
  import opened Wrappers
  import opened Sums
  import opened Text
  import opened Decimal
  import opened Random
  import opened Shuffling
  import opened Preferences
  import opened ScoreLevels

  // ----- Validation

  datatype Candidate = Candidate(id: string, name: string)

  datatype Format = ApprovalFormat | RankingFormat | ScoreFormat

  /** The optional limits of a request. */
  datatype Params = Params(
    approvalMax: Option<Int64>, topK: Option<Int64>,
    scoreMin: Option<Int64>, scoreMax: Option<Int64>, scoreStep: Option<Int64>)

  datatype Problem =
    | InvalidCandidates | InvalidCandidateId | InvalidCandidateName | DuplicateCandidateId
    | InvalidVoters | TooManyVoters | InvalidApprovalMax | InvalidTopK
    | ScoreRulesMissing | ScoreStepInvalid | ScoreRangeInvalid

  function TrimmedIds(cs: seq<Candidate>): (r: seq<string>)
    ensures |r| == |cs| && forall k :: 0 <= k < |r| ==> r[k] == Trim(cs[k].id)
  {
    seq(|cs|, k requires 0 <= k < |cs| => Trim(cs[k].id))
  }

  /** What is wrong with candidate k, given that all earlier ones are fine. */
  function ProblemAt(cs: seq<Candidate>, k: nat): Option<Problem>
    requires k < |cs|
  {
    if Trim(cs[k].id) == "" then Some(InvalidCandidateId)
    else if Trim(cs[k].name) == "" then Some(InvalidCandidateName)
    else if Trim(cs[k].id) in TrimmedIds(cs[..k]) then Some(DuplicateCandidateId)
    else None
  }

  /** The first problem from candidate k on. */
  function FirstProblem(cs: seq<Candidate>, k: nat): Option<Problem>
    requires k <= |cs|
    decreases |cs| - k
  {
    if k == |cs| then None
    else if ProblemAt(cs, k).Some? then ProblemAt(cs, k)
    else FirstProblem(cs, k + 1)
  }

  function CandidatesProblem(cs: seq<Candidate>): Option<Problem> {
    if cs == [] then Some(InvalidCandidates) else FirstProblem(cs, 0)
  }

  lemma TrimmedNext(cs: seq<Candidate>, k: nat)
    requires k < |cs|
    ensures TrimmedIds(cs[..k + 1]) == TrimmedIds(cs[..k]) + [Trim(cs[k].id)]
  {
  }

  /** `validateCandidates`: the first problem of the first bad candidate. */
  method ValidateCandidates(cs: seq<Candidate>) returns (r: Option<Problem>)
    ensures r == CandidatesProblem(cs)
  {
    if cs == [] {
      return Some(InvalidCandidates);
    }
    var seen: set<string> := {};
    for k := 0 to |cs|
      invariant forall id :: id in seen <==> id in TrimmedIds(cs[..k])
      invariant CandidatesProblem(cs) == FirstProblem(cs, k)
    {
      var id, name := Trim(cs[k].id), Trim(cs[k].name);
      if id == "" {
        return Some(InvalidCandidateId);
      }
      if name == "" {
        return Some(InvalidCandidateName);
      }
      if id in seen {
        return Some(DuplicateCandidateId);
      }
      seen := seen + {id};
      TrimmedNext(cs, k);
    }
    return None;
  }

  /** The first `k` candidates have names and different ids. */
  ghost predicate WellNamed(cs: seq<Candidate>, k: nat)
    requires k <= |cs|
  {
    NoDup(TrimmedIds(cs[..k])) && forall m :: 0 <= m < k ==> Trim(cs[m].id) != "" && Trim(cs[m].name) != ""
  }

  lemma OneMoreNamed(cs: seq<Candidate>, k: nat)
    requires k < |cs| && WellNamed(cs, k) && ProblemAt(cs, k).None?
    ensures WellNamed(cs, k + 1)
  {
  }

  lemma {:induction false} NoProblemFrom(cs: seq<Candidate>, k: nat)
    requires k <= |cs| && WellNamed(cs, k)
    ensures FirstProblem(cs, k).None? <==> WellNamed(cs, |cs|)
    decreases |cs| - k
  {
    if k < |cs| {
      if ProblemAt(cs, k).None? {
        OneMoreNamed(cs, k);
        NoProblemFrom(cs, k + 1);
      } else {
        BadStaysBad(cs, k);
      }
    }
  }

  lemma BadStaysBad(cs: seq<Candidate>, k: nat)
    requires k < |cs| && ProblemAt(cs, k).Some?
    ensures !WellNamed(cs, |cs|)
  {
  }

  /** Candidates pass exactly when there are some, all have ids and names, and no id repeats. */
  lemma CandidatesFineIff(cs: seq<Candidate>)
    ensures CandidatesProblem(cs).None? <==>
              && cs != [] && NoDup(TrimmedIds(cs))
              && forall m :: 0 <= m < |cs| ==> Trim(cs[m].id) != "" && Trim(cs[m].name) != ""
  {
    assert cs[..|cs|] == cs;
    NoProblemFrom(cs, 0);
  }

  /** No candidate from k up to but not including m has a problem. */
  ghost predicate FineUpTo(cs: seq<Candidate>, k: nat, m: nat)
    requires m <= |cs|
  {
    forall i: nat :: k <= i < m ==> ProblemAt(cs, i).None?
  }

  /** The problem reported is that of the first candidate who has one; without a report nobody has. */
  lemma {:induction false} FirstProblemIs(cs: seq<Candidate>, k: nat) returns (m: nat)
    requires k <= |cs|
    ensures k <= m <= |cs| && FineUpTo(cs, k, m)
    ensures FirstProblem(cs, k) == if m == |cs| then None else ProblemAt(cs, m)
    ensures m < |cs| ==> ProblemAt(cs, m).Some?
    decreases |cs| - k
  {
    m := k;
    if k < |cs| && ProblemAt(cs, k).None? {
      m := FirstProblemIs(cs, k + 1);
    }
  }

  /** All three score limits are given, with a positive step and in order. */
  predicate Scoring(p: Params) {
    && p.scoreMin.Some? && p.scoreMax.Some? && p.scoreStep.Some?
    && p.scoreStep.value > 0 && p.scoreMin.value <= p.scoreMax.value
  }

  /** `validateDatasetParams`, with score rules required; the range is a machine subtraction. */
  function ValidateParams(format: Format, p: Params, candidateCount: nat): (r: Option<Problem>)
    ensures format == ScoreFormat && r.None? ==> Scoring(p)
  {
    match format
    case ApprovalFormat =>
      if p.approvalMax.Some? && !(0 < p.approvalMax.value <= candidateCount) then Some(InvalidApprovalMax) else None
    case RankingFormat =>
      if p.topK.Some? && !(0 < p.topK.value <= candidateCount) then Some(InvalidTopK) else None
    case ScoreFormat =>
      if p.scoreMin.None? || p.scoreMax.None? || p.scoreStep.None? then Some(ScoreRulesMissing)
      else if p.scoreStep.value <= 0 then Some(ScoreStepInvalid)
      else if p.scoreMin.value > p.scoreMax.value then Some(ScoreRangeInvalid)
      else if Rem(Wrap(p.scoreMax.value - p.scoreMin.value), p.scoreStep.value) != 0 then Some(ScoreStepInvalid)
      else None
  }

  /** The limits of a request are in order, in true numbers: a score range past 2^63 counts less 2^64. */
  predicate LimitsFine(format: Format, p: Params, candidateCount: nat) {
    match format
    case ApprovalFormat => p.approvalMax.Some? ==> 1 <= p.approvalMax.value <= candidateCount
    case RankingFormat => p.topK.Some? ==> 1 <= p.topK.value <= candidateCount
    case ScoreFormat =>
      && Scoring(p)
      && var range := p.scoreMax.value - p.scoreMin.value;
         (if range <= INT_MAX then range else WRAP - range) % p.scoreStep.value == 0
  }

  lemma RemZeroIff(a: int, step: nat)
    requires step > 0
    ensures Rem(a, step) == 0 <==> (if a >= 0 then a else -a) % step == 0
  {
    var b := if a >= 0 then a else -a;
    assert b == step * (b / step) + b % step;
    assert step * -(b / step) == -(step * (b / step));
  }

  /** Which limits pass validation, and which of the problems is reported for score limits that do not. */
  lemma LimitsFineIff(format: Format, p: Params, candidateCount: nat)
    ensures ValidateParams(format, p, candidateCount).None? <==> LimitsFine(format, p, candidateCount)
    ensures format == ScoreFormat && !LimitsFine(format, p, candidateCount) ==>
              ValidateParams(format, p, candidateCount) == Some(
                if p.scoreMin.None? || p.scoreMax.None? || p.scoreStep.None? then ScoreRulesMissing
                else if p.scoreStep.value > 0 && p.scoreMin.value > p.scoreMax.value then ScoreRangeInvalid
                else ScoreStepInvalid)
  {
    if format == ScoreFormat && Scoring(p) {
      RemZeroIff(Wrap(p.scoreMax.value - p.scoreMin.value), p.scoreStep.value);
    }
  }

  // ----- One ballot

  datatype BallotDoc = BallotDoc(
    voterRef: string, approval: seq<string>, ranking: seq<string>, scores: map<string, int>)

  /** What every voter's ballot is generated from. */
  datatype Setup = Setup(
    format: Format, model: Model, ids: seq<string>, base: seq<string>, opposite: seq<string>,
    p: Params, levels: seq<int>)

  /** `scoreSteps`: how many levels the uniform model draws from. */
  function Steps(p: Params): int
    requires Scoring(p)
  {
    Capacity(p.scoreMin.value, p.scoreMax.value, p.scoreStep.value)
  }

  /** No ballot can panic: uniform scores need something to draw from. */
  predicate Runnable(u: Setup) {
    && |u.base| == |u.opposite| == |u.ids| > 0
    && (u.format == ScoreFormat ==> Scoring(u.p) && (u.model == Uniform ==> Steps(u.p) > 0))
  }

  /** At most how many candidates a voter approves. */
  function ApprovalCap(p: Params, n: nat): (q: nat)
    requires n > 0
    ensures 1 <= q <= n
  {
    if p.approvalMax.Some? && 0 < p.approvalMax.value <= n then p.approvalMax.value else n
  }

  function RankingLength(p: Params, n: nat): (k: nat)
    ensures k <= n
  {
    if p.topK.Some? && 0 < p.topK.value < n then p.topK.value else n
  }

  function VoterOrder(u: Setup, s: Word): (r: seq<string>)
    ensures |u.base| == |u.opposite| == |u.ids| ==> |r| == |u.ids|
  {
    Preference(u.ids, u.model, u.base, u.opposite, s)
  }

  function OrderState(u: Setup, s: Word): Word {
    PreferenceState(u.ids, u.model, u.base, u.opposite, s)
  }

  /** The k-th candidate's score in the uniform model. */
  function DrawnScore(p: Params, s: Word, k: nat): Int64
    requires Scoring(p) && Steps(p) > 0
  {
    Wrap(p.scoreMin.value + (AfterN(s, k + 1) % Steps(p)) * p.scoreStep.value)
  }

  function DrawnScores(ids: seq<string>, p: Params, s: Word, k: nat): map<string, int>
    requires Scoring(p) && Steps(p) > 0 && k <= |ids|
  {
    if k == 0 then map[] else DrawnScores(ids, p, s, k - 1)[ids[k - 1] := DrawnScore(p, s, k - 1)]
  }

  /** The number of approvals drawn first. */
  function Approvals(u: Setup, s: Word): (k: nat)
    requires |u.ids| > 0
    ensures 1 <= k <= ApprovalCap(u.p, |u.ids|)
  {
    1 + After(s) % ApprovalCap(u.p, |u.ids|)
  }

  /** The ballot of a voter whose turn starts at state `s`. */
  function Vote(u: Setup, s: Word, voterRef: string): BallotDoc
    requires Runnable(u)
  {
    match u.format
    case ApprovalFormat =>
      var k := Approvals(u, s);
      var choice := if u.model == Uniform then Subset(u.ids, k, After(s)) else VoterOrder(u, After(s))[..k];
      BallotDoc(voterRef, choice, [], map[])
    case RankingFormat =>
      BallotDoc(voterRef, [], VoterOrder(u, s)[..RankingLength(u.p, |u.ids|)], map[])
    case ScoreFormat =>
      BallotDoc(voterRef, [], [],
        if u.model == Uniform then DrawnScores(u.ids, u.p, s, |u.ids|) else ScoresOf(VoterOrder(u, s), u.levels))
  }

  /** The state that voter leaves behind. */
  function VoteState(u: Setup, s: Word): Word
    requires Runnable(u)
  {
    match u.format
    case ApprovalFormat =>
      if u.model == Uniform then SubsetState(|u.ids|, Approvals(u, s), After(s)) else OrderState(u, After(s))
    case RankingFormat => OrderState(u, s)
    case ScoreFormat => if u.model == Uniform then AfterN(s, |u.ids|) else OrderState(u, s)
  }

  /** Voters approve any number from one to the limit, which is the number of candidates if none is given. */
  lemma EveryNumberApproved(u: Setup, k: nat)
    requires |u.ids| > 0 && ValidateParams(ApprovalFormat, u.p, |u.ids|).None? && k <= INT_MAX
    ensures (exists s: Word :: Approvals(u, s) == k)
       <==> 1 <= k <= if u.p.approvalMax.Some? then u.p.approvalMax.value else |u.ids|
  {
    if 1 <= k <= ApprovalCap(u.p, |u.ids|) {
      var s := Reached(k - 1);
      assert After(s) % ApprovalCap(u.p, |u.ids|) == k - 1;
      assert Approvals(u, s) == k;
    }
  }

  method ApprovalVote(rng: Lcg, u: Setup, voterRef: string) returns (b: BallotDoc)
    requires Runnable(u) && u.format == ApprovalFormat
    modifies rng
    ensures b == Vote(u, old(rng.s), voterRef) && rng.s == VoteState(u, old(rng.s))
  {
    var q: int := |u.ids|;
    if u.p.approvalMax.Some? && u.p.approvalMax.value > 0 {
      q := u.p.approvalMax.value;
    }
    if q > |u.ids| {
      q := |u.ids|;
    }
    if q < 1 {
      q := 1;
    }
    var draw := rng.Next();
    var k := 1 + draw % q;
    assert k == Approvals(u, old(rng.s));
    if u.model == Uniform {
      var chosen := PickSubset(rng, u.ids, k);
      b := BallotDoc(voterRef, chosen, [], map[]);
    } else {
      var order := BuildPreferenceOrder(rng, u.ids, u.model, u.base, u.opposite);
      b := BallotDoc(voterRef, order[..k], [], map[]);
    }
  }

  method RankingVote(rng: Lcg, u: Setup, voterRef: string) returns (b: BallotDoc)
    requires Runnable(u) && u.format == RankingFormat
    modifies rng
    ensures b == Vote(u, old(rng.s), voterRef) && rng.s == VoteState(u, old(rng.s))
  {
    var top: int := |u.ids|;
    if u.p.topK.Some? && u.p.topK.value > 0 && u.p.topK.value < top {
      top := u.p.topK.value;
    }
    var order := BuildPreferenceOrder(rng, u.ids, u.model, u.base, u.opposite);
    b := BallotDoc(voterRef, [], order[..top], map[]);
  }

  lemma AfterNSnoc(s: Word, k: nat)
    ensures AfterN(s, k + 1) == After(AfterN(s, k))
  {
    AfterNAdds(s, k, 1);
    assert AfterN(AfterN(s, k), 1) == After(AfterN(s, k));
  }

  /** The uniform model: an independent level for each candidate. */
  method UniformScores(rng: Lcg, ids: seq<string>, p: Params) returns (scores: map<string, int>)
    requires Scoring(p) && Steps(p) > 0
    modifies rng
    ensures scores == DrawnScores(ids, p, old(rng.s), |ids|) && rng.s == AfterN(old(rng.s), |ids|)
  {
    ghost var s := rng.s;
    scores := map[];
    for k := 0 to |ids|
      invariant scores == DrawnScores(ids, p, s, k) && rng.s == AfterN(s, k)
    {
      AfterNSnoc(s, k);
      var draw := rng.Next();
      var v := draw % Steps(p);
      scores := scores[ids[k] := Wrap(p.scoreMin.value + v * p.scoreStep.value)];
    }
  }

  method ScoreVote(rng: Lcg, u: Setup, voterRef: string) returns (b: BallotDoc)
    requires Runnable(u) && u.format == ScoreFormat
    modifies rng
    ensures b == Vote(u, old(rng.s), voterRef) && rng.s == VoteState(u, old(rng.s))
  {
    if u.model == Uniform {
      var scores := UniformScores(rng, u.ids, u.p);
      b := BallotDoc(voterRef, [], [], scores);
    } else {
      var order := BuildPreferenceOrder(rng, u.ids, u.model, u.base, u.opposite);
      var scores := ScoresFromOrder(order, u.levels);
      b := BallotDoc(voterRef, [], [], scores);
    }
  }

  /** The switch of the ballot loop. */
  method GenerateBallot(rng: Lcg, u: Setup, voterRef: string) returns (b: BallotDoc)
    requires Runnable(u)
    modifies rng
    ensures b == Vote(u, old(rng.s), voterRef) && rng.s == VoteState(u, old(rng.s))
  {
    match u.format {
      case ApprovalFormat => b := ApprovalVote(rng, u, voterRef);
      case RankingFormat => b := RankingVote(rng, u, voterRef);
      case ScoreFormat => b := ScoreVote(rng, u, voterRef);
    }
  }

  // ----- All ballots

  const BATCH_SIZE := 1000
  const RAW_LIMIT := 10000
  const MAX_VOTERS := 10_000_000

  /** Where voter number i (from zero) starts, the first one from `s`. */
  function VoterState(u: Setup, s: Word, i: nat): Word
    requires Runnable(u)
  {
    if i == 0 then s else VoteState(u, VoterState(u, s, i - 1))
  }

  function VoterRef(i: nat): string { "v" + Itoa(i + 1) }

  /** The first `n` voters' ballots. */
  function Ballots(u: Setup, s: Word, n: nat): (r: seq<BallotDoc>)
    requires Runnable(u)
    ensures |r| == n
  {
    if n == 0 then [] else Ballots(u, s, n - 1) + [Vote(u, VoterState(u, s, n - 1), VoterRef(n - 1))]
  }

  lemma BallotsNext(u: Setup, s: Word, i: nat)
    requires Runnable(u)
    ensures Ballots(u, s, i + 1) == Ballots(u, s, i) + [Vote(u, VoterState(u, s, i), VoterRef(i))]
  {
  }

  lemma SnocAt<T>(front: seq<T>, last: T, all: seq<T>, i: nat)
    requires all == front + [last] && i <= |front|
    ensures all[i] == if i < |front| then front[i] else last
  {
  }

  lemma {:induction false} BallotOfVoter(u: Setup, s: Word, n: nat, i: nat)
    requires Runnable(u) && i < n
    ensures Ballots(u, s, n)[i] == Vote(u, VoterState(u, s, i), VoterRef(i))
  {
    BallotsNext(u, s, n - 1);
    SnocAt(Ballots(u, s, n - 1), Vote(u, VoterState(u, s, n - 1), VoterRef(n - 1)), Ballots(u, s, n), i);
    if i < n - 1 {
      BallotOfVoter(u, s, n - 1, i);
    }
  }

  lemma NumbersDistinct(i: Int64, j: Int64)
    requires i != j
    ensures Itoa(i) != Itoa(j)
  {
    AtoiItoa(i);
    AtoiItoa(j);
  }

  /** Voter references are all different. */
  lemma VoterRefsDistinct(i: nat, j: nat)
    requires i != j && i < INT_MAX && j < INT_MAX
    ensures VoterRef(i) != VoterRef(j)
  {
    NumbersDistinct(i + 1, j + 1);
    assert VoterRef(i)[1..] == Itoa(i + 1) && VoterRef(j)[1..] == Itoa(j + 1);
  }

  /** Voter i is called "v" and the number i + 1. */
  lemma VoterRefNumber(i: nat)
    requires i < INT_MAX
    ensures VoterRef(i)[0] == 'v' && Atoi(VoterRef(i)[1..]) == Some(i + 1)
  {
    AtoiItoa(i + 1);
    assert VoterRef(i)[1..] == Itoa(i + 1);
  }

  /** Full batches, only the last of which may be smaller. */
  ghost predicate Batched<T>(inserted: seq<seq<T>>) {
    forall k :: 0 <= k < |inserted| ==>
      if k < |inserted| - 1 then |inserted[k]| == BATCH_SIZE else 1 <= |inserted[k]| <= BATCH_SIZE
  }

  /** What the ballot loop has built up: the batches written, the one being filled and the raw copies. */
  datatype Writing = Writing(inserted: seq<seq<BallotDoc>>, batch: seq<BallotDoc>, raw: seq<BallotDoc>)

  /** One more ballot; a full batch is written. */
  function Filed(w: Writing, b: BallotDoc, voters: nat): Writing {
    var batch := w.batch + [b];
    var raw := if voters <= RAW_LIMIT then w.raw + [b] else w.raw;
    if |batch| >= BATCH_SIZE then Writing(w.inserted + [batch], [], raw) else Writing(w.inserted, batch, raw)
  }

  function WritingAfter(u: Setup, s: Word, voters: nat, i: nat): Writing
    requires Runnable(u)
  {
    if i == 0 then Writing([], [], [])
    else Filed(WritingAfter(u, s, voters, i - 1), Vote(u, VoterState(u, s, i - 1), VoterRef(i - 1)), voters)
  }

  /** The ballots so far, in full batches and one being filled. */
  ghost predicate Progress(w: Writing, ballots: seq<BallotDoc>, voters: nat) {
    && Flatten(w.inserted) + w.batch == ballots && |w.batch| < BATCH_SIZE
    && (forall k :: 0 <= k < |w.inserted| ==> |w.inserted[k]| == BATCH_SIZE)
    && w.raw == if voters <= RAW_LIMIT then ballots else []
  }

  lemma FlattenSnoc<T>(inserted: seq<seq<T>>, batch: seq<T>)
    ensures Flatten(inserted + [batch]) == Flatten(inserted) + batch
  {
  }

  lemma Regroup<T>(front: seq<T>, batch: seq<T>, b: T)
    ensures front + (batch + [b]) == front + batch + [b]
  {
  }

  lemma FiledProgress(w: Writing, ballots: seq<BallotDoc>, b: BallotDoc, voters: nat)
    requires Progress(w, ballots, voters)
    ensures Progress(Filed(w, b, voters), ballots + [b], voters)
  {
    var batch, all := w.batch + [b], ballots + [b];
    assert Flatten(w.inserted) + batch == all by {
      Regroup(Flatten(w.inserted), w.batch, b);
    }
    if |batch| >= BATCH_SIZE {
      BatchWritten(w.inserted, batch, all);
    }
  }

  lemma BatchWritten(inserted: seq<seq<BallotDoc>>, batch: seq<BallotDoc>, all: seq<BallotDoc>)
    requires Flatten(inserted) + batch == all
    ensures Flatten(inserted + [batch]) + [] == all
  {
    FlattenSnoc(inserted, batch);
  }

  lemma {:induction false} WritingProgress(u: Setup, s: Word, voters: nat, i: nat)
    requires Runnable(u)
    ensures Progress(WritingAfter(u, s, voters, i), Ballots(u, s, i), voters)
  {
    if i > 0 {
      var b := Vote(u, VoterState(u, s, i - 1), VoterRef(i - 1));
      WritingProgress(u, s, voters, i - 1);
      FiledProgress(WritingAfter(u, s, voters, i - 1), Ballots(u, s, i - 1), b, voters);
    }
  }

  /** All batches, the last one included. */
  function Closed(w: Writing): seq<seq<BallotDoc>> {
    if w.batch == [] then w.inserted else w.inserted + [w.batch]
  }

  lemma AllInserted(w: Writing, u: Setup, s: Word, voters: nat)
    requires Runnable(u) && w == WritingAfter(u, s, voters, voters)
    ensures Flatten(Closed(w)) == Ballots(u, s, voters) && Batched(Closed(w))
    ensures w.raw == if voters <= RAW_LIMIT then Ballots(u, s, voters) else []
  {
    WritingProgress(u, s, voters, voters);
    FlattenSnoc(w.inserted, w.batch);
    if w.batch == [] {
      assert Flatten(w.inserted) + w.batch == Flatten(w.inserted);
    }
  }

  method VoterBallot(rng: Lcg, u: Setup, i: nat) returns (b: BallotDoc)
    requires Runnable(u) && i < MAX_VOTERS
    modifies rng
    ensures b == Vote(u, old(rng.s), VoterRef(i)) && rng.s == VoteState(u, old(rng.s))
  {
    var number := ItoaBuffer(i + 1);
    b := GenerateBallot(rng, u, "v" + number);
  }

  /** The ballot loop of `Generate`; `inserted` are the batches written. */
  method BallotLoop(rng: Lcg, u: Setup, voters: nat) returns (inserted: seq<seq<BallotDoc>>, raw: seq<BallotDoc>)
    requires Runnable(u) && voters <= MAX_VOTERS
    modifies rng
    ensures Flatten(inserted) == Ballots(u, old(rng.s), voters) && Batched(inserted)
    ensures raw == if voters <= RAW_LIMIT then Flatten(inserted) else []
    ensures rng.s == VoterState(u, old(rng.s), voters)
  {
    ghost var s := rng.s;
    inserted, raw := [], [];
    var batch: seq<BallotDoc> := [];
    for i := 0 to voters
      invariant Writing(inserted, batch, raw) == WritingAfter(u, s, voters, i)
      invariant rng.s == VoterState(u, s, i)
    {
      var b := VoterBallot(rng, u, i);
      if voters <= RAW_LIMIT {
        raw := raw + [b];
      }
      batch := batch + [b];
      if |batch| >= BATCH_SIZE {
        inserted, batch := inserted + [batch], [];
      }
    }
    AllInserted(Writing(inserted, batch, raw), u, s, voters);
    if |batch| > 0 {
      inserted := inserted + [batch];
    }
  }

  // ----- The whole request

  /** A request; the seed is the stored one, read as an unsigned word. */
  datatype Request = Request(
    candidates: seq<Candidate>, format: Format, model: Model, p: Params, voters: int, seed: Word)

  /** Why a request is refused, if it is. */
  function RequestProblem(q: Request): Option<Problem> {
    if q.voters <= 0 then Some(InvalidVoters)
    else if q.voters > MAX_VOTERS then Some(TooManyVoters)
    else if CandidatesProblem(q.candidates).Some? then CandidatesProblem(q.candidates)
    else ValidateParams(q.format, q.p, |q.candidates|)
  }

  /** Where the loop over the score levels stands after `passes` passes. */
  function PlannedLevels(q: Request, room: Room, passes: nat): LevelsOutcome
    requires RequestProblem(q).None?
  {
    if q.format != ScoreFormat then Ended([])
    else LevelsAfter(q.p.scoreMin.value, q.p.scoreMax.value, q.p.scoreStep.value, room, passes)
  }

  /** The two poles are the first shuffle and its reverse. */
  function PlannedSetup(q: Request, levels: seq<int>): Setup {
    var ids := TrimmedIds(q.candidates);
    var base := Dealt(ids, LcgDraws(q.seed, |ids|));
    Setup(q.format, q.model, ids, base, Reversed(base), q.p, levels)
  }

  function FirstState(q: Request): Word {
    AfterN(q.seed, DrawCount(|q.candidates|))
  }

  /** The uniform model would divide by zero. */
  predicate NothingToDraw(q: Request)
    requires RequestProblem(q).None?
  {
    q.format == ScoreFormat && q.model == Uniform && Steps(q.p) <= 0
  }

  /** Which requests are valid. */
  lemma RequestFineIff(q: Request)
    ensures RequestProblem(q).None?
       <==> && 1 <= q.voters <= MAX_VOTERS
            && q.candidates != [] && NoDup(TrimmedIds(q.candidates))
            && (forall m :: 0 <= m < |q.candidates| ==>
                  Trim(q.candidates[m].id) != "" && Trim(q.candidates[m].name) != "")
            && LimitsFine(q.format, q.p, |q.candidates|)
  {
    CandidatesFineIff(q.candidates);
    LimitsFineIff(q.format, q.p, |q.candidates|);
  }

  datatype Generated = Generated(ids: seq<string>, inserted: seq<seq<BallotDoc>>, raw: seq<BallotDoc>)

  datatype Outcome = Refused(problem: Problem) | Panicked | StillLooping | Written(dataset: Generated)

  /** What is written: every voter's ballot, in order. */
  ghost predicate Holds(g: Generated, q: Request, levels: seq<int>)
    requires Runnable(PlannedSetup(q, levels)) && q.voters >= 0
  {
    && g.ids == TrimmedIds(q.candidates)
    && Flatten(g.inserted) == Ballots(PlannedSetup(q, levels), FirstState(q), q.voters) && Batched(g.inserted)
    && g.raw == if q.voters <= RAW_LIMIT then Flatten(g.inserted) else []
  }

  lemma SetupRunnable(q: Request, levels: seq<int>)
    requires RequestProblem(q).None? && !NothingToDraw(q)
    ensures Runnable(PlannedSetup(q, levels))
  {
  }

  /** The outcome of a request, given what the allocator grants and `passes` passes of the level loop. */
  ghost predicate Produces(q: Request, room: Room, passes: nat, r: Outcome) {
    if RequestProblem(q).Some? then r == Refused(RequestProblem(q).value)
    else
      match PlannedLevels(q, room, passes)
      case Panic => r == Panicked
      case Looping(_) => r == StillLooping
      case Ended(levels) =>
        if NothingToDraw(q) then r == Panicked
        else SetupRunnable(q, levels); r.Written? && Holds(r.dataset, q, levels)
  }

  method Prepare(rng: Lcg, q: Request, room: Room, passes: nat)
    returns (base: seq<string>, opposite: seq<string>, levels: LevelsOutcome)
    requires RequestProblem(q).None?
    modifies rng
    ensures base == Dealt(TrimmedIds(q.candidates), LcgDraws(old(rng.s), |q.candidates|)) && opposite == Reversed(base)
    ensures levels == PlannedLevels(q, room, passes)
    ensures rng.s == AfterN(old(rng.s), DrawCount(|q.candidates|))
  {
    base := Shuffle(rng, TrimmedIds(q.candidates));
    opposite := ReverseStrings(base);
    levels := Ended([]);
    if q.format == ScoreFormat {
      levels := ScoreLevels.ScoreLevels(q.p.scoreMin.value, q.p.scoreMax.value, q.p.scoreStep.value, room, passes);
    }
  }

  /** `Generate` after its text checks. */
  method Generate(q: Request, room: Room, passes: nat) returns (r: Outcome)
    ensures Produces(q, room, passes, r)
  {
    if q.voters <= 0 {
      return Refused(InvalidVoters);
    }
    if q.voters > MAX_VOTERS {
      return Refused(TooManyVoters);
    }
    var problem := ValidateCandidates(q.candidates);
    if problem.Some? {
      return Refused(problem.value);
    }
    var bad := ValidateParams(q.format, q.p, |q.candidates|);
    if bad.Some? {
      return Refused(bad.value);
    }
    var rng := new Lcg(q.seed);
    var base, opposite, levels := Prepare(rng, q, room, passes);
    match levels {
      case Panic => return Panicked;
      case Looping(_) => return StillLooping;
      case Ended(found) =>
        if q.format == ScoreFormat && q.model == Uniform && Steps(q.p) <= 0 {
          return Panicked;
        }
        var u := Setup(q.format, q.model, TrimmedIds(q.candidates), base, opposite, q.p, found);
        SetupRunnable(q, found);
        assert u == PlannedSetup(q, found);
        var inserted, raw := BallotLoop(rng, u, q.voters);
        return Written(Generated(u.ids, inserted, raw));
    }
  }
}
