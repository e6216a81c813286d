/** What generated datasets are like: determined, legal when the limits fit, and less random than asked for. */
module Datasets {
  import opened Wrappers
  import opened Sums
  import opened Inversions
  import opened Decimal
  import opened Powers
  import opened Random
  import opened Shuffling
  import opened Preferences
  import opened ScoreLevels
  import opened Generator

  // ----- A dataset is a function of its request

  lemma SameLevels(q: Request, room: Room, i: nat, j: nat)
    requires RequestProblem(q).None?
    requires PlannedLevels(q, room, i).Ended? && PlannedLevels(q, room, j).Ended?
    ensures PlannedLevels(q, room, i) == PlannedLevels(q, room, j)
  {
    if q.format == ScoreFormat {
      EndedIsFinal(q.p.scoreMin.value, q.p.scoreMax.value, q.p.scoreStep.value, i, j);
    }
  }

  /** The same request, seed included, writes the same ballots, however long the level loop was given. */
  lemma SameRequestSameDataset(q: Request, room: Room, i: nat, j: nat, a: Outcome, b: Outcome)
    requires Produces(q, room, i, a) && Produces(q, room, j, b) && a.Written? && b.Written?
    ensures a.dataset.ids == b.dataset.ids && a.dataset.raw == b.dataset.raw
    ensures Flatten(a.dataset.inserted) == Flatten(b.dataset.inserted)
  {
    SameLevels(q, room, i, j);
  }

  /** Every request has an outcome. */
  lemma OutcomeExists(q: Request, room: Room, passes: nat) returns (r: Outcome)
    ensures Produces(q, room, passes, r)
  {
    if RequestProblem(q).Some? {
      return Refused(RequestProblem(q).value);
    }
    match PlannedLevels(q, room, passes) {
      case Panic => return Panicked;
      case Looping(_) => return StillLooping;
      case Ended(levels) =>
        if NothingToDraw(q) {
          return Panicked;
        }
        SetupRunnable(q, levels);
        var u := PlannedSetup(q, levels);
        var w := WritingAfter(u, FirstState(q), q.voters, q.voters);
        AllInserted(w, u, FirstState(q), q.voters);
        return Written(Generated(u.ids, Closed(w), w.raw));
    }
  }

  // ----- Legal ballots

  ghost predicate SomeOf(choice: seq<string>, ids: seq<string>, limit: int) {
    1 <= |choice| <= limit && NoDup(choice) && forall x :: x in choice ==> x in ids
  }

  /** Every candidate has a score of the form min + k step within range. */
  ghost predicate LegalScores(scores: map<string, int>, ids: seq<string>, p: Params)
    requires Scoring(p)
  {
    && (forall id :: id in scores <==> id in ids)
    && forall id :: id in scores ==> LegalScore(scores[id], p)
  }

  ghost predicate LegalScore(score: int, p: Params)
    requires Scoring(p)
  {
    exists k: nat :: score == p.scoreMin.value + k * p.scoreStep.value <= p.scoreMax.value
  }

  /** What the format and the limits promise about a ballot. */
  ghost predicate Legal(b: BallotDoc, format: Format, ids: seq<string>, p: Params)
    requires format == ScoreFormat ==> Scoring(p)
  {
    match format
    case ApprovalFormat =>
      && SomeOf(b.approval, ids, if p.approvalMax.Some? then p.approvalMax.value else |ids|)
      && b.ranking == [] && b.scores == map[]
    case RankingFormat =>
      && SomeOf(b.ranking, ids, |ids|)
      && |b.ranking| == (if p.topK.Some? then p.topK.value else |ids|)
      && b.approval == [] && b.scores == map[]
    case ScoreFormat => LegalScores(b.scores, ids, p) && b.approval == [] && b.ranking == []
  }

  /** The levels promised by the limits. */
  function Promised(p: Params): seq<int>
    requires Scoring(p)
  {
    Rungs(p.scoreMin.value, p.scoreMax.value, p.scoreStep.value)
  }

  /** The poles rank the setup's candidates. */
  ghost predicate Ranked(u: Setup) {
    u.ids != [] && NoDup(u.ids) && PolesOf(u.ids, u.base, u.opposite) && |u.base| == |u.opposite| == |u.ids|
  }

  /** A setup whose ballots come out right. */
  ghost predicate Sound(u: Setup) {
    && Ranked(u) && ValidateParams(u.format, u.p, |u.ids|).None?
    && (u.format == ScoreFormat ==>
          if u.model == Uniform then Steps(u.p) == |Promised(u.p)| else u.levels == Promised(u.p))
  }

  lemma OrderIsFull(u: Setup, s: Word)
    requires Ranked(u)
    ensures var order := VoterOrder(u, s);
            |order| == |u.ids| && NoDup(order) && forall x :: x in order <==> x in u.ids
  {
    PreferenceRearranges(u.ids, u.model, u.base, u.opposite, s);
    PermutationNoDup(u.ids, VoterOrder(u, s));
  }

  lemma PrefixIsSome(order: seq<string>, ids: seq<string>, k: nat, limit: int)
    requires |order| == |ids| && NoDup(order) && (forall x :: x in order <==> x in ids)
    requires 1 <= k <= limit && k <= |ids|
    ensures SomeOf(order[..k], ids, limit)
  {
  }

  lemma PromisedIsLegal(p: Params, k: nat)
    requires Scoring(p) && k < |Promised(p)|
    ensures LegalScore(p.scoreMin.value + k * p.scoreStep.value, p)
    ensures Promised(p)[k] == p.scoreMin.value + k * p.scoreStep.value <= p.scoreMax.value
  {
    var lo, hi, step := p.scoreMin.value, p.scoreMax.value, p.scoreStep.value;
    CountIsTop(lo, hi, step);
    ScaleLe(k, Count(lo, hi, step) - 1, step);
  }

  lemma OrderScoresLegal(order: seq<string>, ids: seq<string>, p: Params)
    requires order != [] && NoDup(order) && forall x :: x in order <==> x in ids
    requires Scoring(p)
    ensures LegalScores(ScoresOf(order, Promised(p)), ids, p)
  {
    var levels := Promised(p);
    var scores := ScoresOf(order, levels);
    ScoresAreByOrder(order, levels);
    forall id | id in scores ensures LegalScore(scores[id], p) {
      var k := Pos(order, id);
      LevelsFall(k, k, |order|, |levels|);
      PromisedIsLegal(p, LevelIndex(k, |order|, |levels|));
      assert order[k] == id && scores[order[k]] == LevelOf(levels, k, |order|);
    }
  }

  lemma DrawnScoreLegal(p: Params, s: Word, k: nat)
    requires Scoring(p) && Steps(p) == |Promised(p)|
    ensures LegalScore(DrawnScore(p, s, k), p)
  {
    var v := AfterN(s, k + 1) % Steps(p);
    PromisedIsLegal(p, v);
    ScaleLe(0, v, p.scoreStep.value);
  }

  lemma {:induction false} DrawnScoresLegal(ids: seq<string>, p: Params, s: Word, k: nat)
    requires Scoring(p) && Steps(p) == |Promised(p)| && k <= |ids|
    ensures LegalScores(DrawnScores(ids, p, s, k), ids[..k], p)
  {
    if k > 0 {
      DrawnScoresLegal(ids, p, s, k - 1);
      DrawnScoreLegal(p, s, k - 1);
      assert ids[..k] == ids[..k - 1] + [ids[k - 1]];
    }
  }

  lemma ScoreVoteLegal(u: Setup, s: Word, voterRef: string)
    requires Sound(u) && u.format == ScoreFormat
    ensures Runnable(u) && Legal(Vote(u, s, voterRef), u.format, u.ids, u.p)
  {
    if u.model == Uniform {
      DrawnScoresLegal(u.ids, u.p, s, |u.ids|);
      assert u.ids[..|u.ids|] == u.ids;
    } else {
      OrderIsFull(u, s);
      OrderScoresLegal(VoterOrder(u, s), u.ids, u.p);
    }
  }

  /** Every ballot of a sound setup is legal, from every generator state. */
  lemma VoteIsLegal(u: Setup, s: Word, voterRef: string)
    requires Sound(u)
    ensures Runnable(u) && Legal(Vote(u, s, voterRef), u.format, u.ids, u.p)
  {
    match u.format
    case ApprovalFormat =>
      var k := Approvals(u, s);
      if u.model == Uniform {
        SubsetIsDistinct(u.ids, k, After(s));
      } else {
        OrderIsFull(u, After(s));
        PrefixIsSome(VoterOrder(u, After(s)), u.ids, k, ApprovalCap(u.p, |u.ids|));
      }
    case RankingFormat =>
      OrderIsFull(u, s);
      PrefixIsSome(VoterOrder(u, s), u.ids, RankingLength(u.p, |u.ids|), |u.ids|);
    case ScoreFormat => ScoreVoteLegal(u, s, voterRef);
  }

  /** Every ballot of the dataset is legal. */
  ghost predicate AllLegal(g: Generated, q: Request)
    requires q.format == ScoreFormat ==> Scoring(q.p)
  {
    forall i :: 0 <= i < |Flatten(g.inserted)| ==> Legal(Flatten(g.inserted)[i], q.format, g.ids, q.p)
  }

  lemma PlannedIsRanked(q: Request, levels: seq<int>)
    requires RequestProblem(q).None?
    ensures Ranked(PlannedSetup(q, levels))
  {
    var ids := TrimmedIds(q.candidates);
    CandidatesFineIff(q.candidates);
    DealtRearranges(ids, LcgDraws(q.seed, |ids|));
    ReversedRearranges(Dealt(ids, LcgDraws(q.seed, |ids|)));
  }

  /** Ballot i of the dataset is voter i's. */
  lemma BallotAt(q: Request, levels: seq<int>, g: Generated, i: nat)
    requires Runnable(PlannedSetup(q, levels)) && q.voters >= 0 && Holds(g, q, levels) && i < q.voters
    ensures i < |Flatten(g.inserted)|
    ensures var u := PlannedSetup(q, levels);
            Flatten(g.inserted)[i] == Vote(u, VoterState(u, FirstState(q), i), VoterRef(i))
  {
    BallotOfVoter(PlannedSetup(q, levels), FirstState(q), q.voters, i);
  }

  lemma SoundDatasetLegal(q: Request, levels: seq<int>, g: Generated)
    requires RequestProblem(q).None? && Sound(PlannedSetup(q, levels))
    requires Runnable(PlannedSetup(q, levels)) && Holds(g, q, levels)
    ensures AllLegal(g, q)
  {
    var u := PlannedSetup(q, levels);
    forall i: nat | i < q.voters ensures Legal(Flatten(g.inserted)[i], q.format, g.ids, q.p) {
      BallotOfVoter(u, FirstState(q), q.voters, i);
      VoteIsLegal(u, VoterState(u, FirstState(q), i), VoterRef(i));
    }
  }

  /** In the uniform model every level promised can be drawn. */
  lemma EveryLevelDrawn(p: Params, k: nat)
    requires Scoring(p) && Steps(p) == |Promised(p)| && k < |Promised(p)|
    ensures exists s: Word :: DrawnScore(p, s, 0) == Promised(p)[k]
  {
    var s := Reached(k);
    OneStep(s);
    assert After(s) % Steps(p) == k;
    PromisedIsLegal(p, k);
    ScaleLe(0, k, p.scoreStep.value);
    assert DrawnScore(p, s, 0) == Promised(p)[k];
  }

  /** Some seed makes this the common order. */
  ghost predicate CommonBySome(q: Request, levels: seq<int>, order: seq<string>) {
    exists seed: Word :: PlannedSetup(q.(seed := seed), levels).base == order
  }

  lemma CommonIsDealt(q: Request, levels: seq<int>, order: seq<string>)
    ensures CommonBySome(q, levels, order) <==> DealtBySome(TrimmedIds(q.candidates), order)
  {
    var ids := TrimmedIds(q.candidates);
    if s: Word :| Dealt(ids, LcgDraws(s, |ids|)) == order {
      assert PlannedSetup(q.(seed := s), levels).base == order;
    }
    if seed: Word :| PlannedSetup(q.(seed := seed), levels).base == order {
      assert Dealt(ids, LcgDraws(seed, |ids|)) == order;
    }
  }

  /** Every common order comes from some seed exactly below four candidates. */
  lemma EveryCommonOrderIffFew(q: Request, levels: seq<int>)
    requires RequestProblem(q).None?
    ensures (forall order :: Rearranges(order, TrimmedIds(q.candidates)) ==> CommonBySome(q, levels, order))
       <==> |q.candidates| < 4
  {
    CandidatesFineIff(q.candidates);
    EveryOrderDealtIffFew(TrimmedIds(q.candidates));
    forall order ensures CommonBySome(q, levels, order) <==> DealtBySome(TrimmedIds(q.candidates), order) {
      CommonIsDealt(q, levels, order);
    }
  }

  /** The other pole is the common order backwards. */
  lemma PolesAreReversed(q: Request, levels: seq<int>)
    ensures var u := PlannedSetup(q, levels);
            |u.opposite| == |u.base| && forall k :: 0 <= k < |u.base| ==> u.opposite[k] == u.base[|u.base| - 1 - k]
  {
  }

  // ----- Which requests are written, and which with legal ballots

  /** Checkable beforehand: the levels are reached, and the value past the last one fits. */
  predicate Climbs(p: Params, room: Room)
    requires Scoring(p)
  {
    Climbable(p.scoreMin.value, p.scoreMax.value, p.scoreStep.value, room)
  }

  predicate MakesRoom(p: Params, room: Room)
    requires Scoring(p)
  {
    HasRoom(p.scoreMin.value, p.scoreMax.value, p.scoreStep.value, room)
  }

  /** Checkable beforehand: the largest power of two in the step fits above the upper limit. */
  predicate LoopEnds(p: Params)
    requires Scoring(p)
  {
    p.scoreMax.value + LowBit(p.scoreStep.value) <= INT_MAX
  }

  /** How many levels the limits promise. */
  function Promises(p: Params): nat
    requires Scoring(p)
  {
    Count(p.scoreMin.value, p.scoreMax.value, p.scoreStep.value)
  }

  /** What the uniform model needs: the range is an `int`, and there is room for the levels. */
  predicate Drawable(p: Params, room: Room)
    requires Scoring(p)
  {
    p.scoreMax.value - p.scoreMin.value <= INT_MAX && Promises(p) <= room
  }

  lemma RemZero(a: nat, b: nat)
    requires b > 0 && Rem(a, b) == 0
    ensures a % b == 0
  {
  }

  /** Validation leaves a range that is a multiple of every power of two in the step, however wide. */
  lemma ValidatedRange(lo: Int64, hi: Int64, step: Int64)
    requires step > 0 && lo <= hi && Rem(Wrap(hi - lo), step) == 0
    ensures FirstPast(lo, hi, LowBit(step)) == hi + LowBit(step)
  {
    if hi - lo <= INT_MAX {
      RemZero(hi - lo, step);
      WholeSteps(lo, hi, step);
    } else {
      RemZero(WRAP - (hi - lo), step);
      WholeWhenWrapped(hi - lo, step);
    }
  }

  lemma WholeWhenWrapped(range: nat, step: Int64)
    requires step > 0 && (WRAP - range) % step == 0
    ensures range % LowBit(step) == 0
  {
    var odd, rest := StepSplits(step);
    MultipleOfFactor(WRAP - range, step, LowBit(step), odd);
    Complement(range, WRAP, LowBit(step), Pow2(rest));
  }

  lemma Complement(x: int, y: int, g: nat, k: nat)
    requires g > 0 && y == g * k && (y - x) % g == 0
    ensures x % g == 0
  {
    var m := (y - x) / g;
    assert x == (k - m) * g;
    RemainderIs(x, g, k - m, 0);
  }

  /** In a valid request the level loop ends if and only if max plus the step's lowest bit fits. */
  lemma LoopEndsIff(q: Request, room: Room)
    requires RequestProblem(q).None? && q.format == ScoreFormat && MakesRoom(q.p, room)
    ensures (exists passes: nat :: PlannedLevels(q, room, passes).Ended?) <==> LoopEnds(q.p)
  {
    var lo, hi, step := q.p.scoreMin.value, q.p.scoreMax.value, q.p.scoreStep.value;
    ValidatedRange(lo, hi, step);
    LevelsEndIff(lo, hi, step, room);
    if LoopEnds(q.p) {
      var enough: nat :| LevelsAfter(lo, hi, step, room, enough).Ended?;
      assert PlannedLevels(q, room, enough).Ended?;
    }
  }

  lemma LoopsForever(q: Request, room: Room, passes: nat)
    requires RequestProblem(q).None? && q.format == ScoreFormat && MakesRoom(q.p, room) && !LoopEnds(q.p)
    ensures PlannedLevels(q, room, passes).Looping?
  {
    ValidatedRange(q.p.scoreMin.value, q.p.scoreMax.value, q.p.scoreStep.value);
    NeverEnds(q.p.scoreMin.value, q.p.scoreMax.value, q.p.scoreStep.value, passes);
  }

  /** Generation never returns exactly for score limits whose loop does not end. */
  lemma NeverReturnsIff(q: Request, room: Room)
    requires RequestProblem(q).None?
    ensures (forall passes: nat, r :: Produces(q, room, passes, r) ==> r == StillLooping)
       <==> q.format == ScoreFormat && MakesRoom(q.p, room) && !LoopEnds(q.p)
  {
    if q.format == ScoreFormat && MakesRoom(q.p, room) && !LoopEnds(q.p) {
      forall passes: nat, r | Produces(q, room, passes, r) ensures r == StillLooping {
        LoopsForever(q, room, passes);
      }
    } else {
      var passes: nat := 0;
      if q.format == ScoreFormat && MakesRoom(q.p, room) {
        LoopEndsIff(q, room);
        passes :| PlannedLevels(q, room, passes).Ended?;
      }
      var r := OutcomeExists(q, room, passes);
      assert r != StillLooping;
    }
  }

  /** For a range that is a machine `int` the levels come out right exactly when max + step fits, and there is room. */
  lemma LevelsFitIff(q: Request, room: Room, passes: nat)
    requires RequestProblem(q).None? && q.format == ScoreFormat
    requires q.p.scoreMax.value - q.p.scoreMin.value <= INT_MAX
    ensures Climbs(q.p, room) <==> q.p.scoreMax.value + q.p.scoreStep.value <= INT_MAX && Promises(q.p) <= room
    ensures PlannedLevels(q, room, passes) == Ended(Promised(q.p)) <==> Climbs(q.p, room) && passes >= Promises(q.p)
  {
    RemZero(q.p.scoreMax.value - q.p.scoreMin.value, q.p.scoreStep.value);
    ClimbableIff(q.p.scoreMin.value, q.p.scoreMax.value, q.p.scoreStep.value, room);
    LevelsRightIff(q.p.scoreMin.value, q.p.scoreMax.value, q.p.scoreStep.value, room, passes);
  }

  lemma WideCapacity(lo: Int64, hi: Int64, step: Int64)
    requires step > 0 && hi - lo > INT_MAX && Rem(Wrap(hi - lo), step) == 0
    ensures Capacity(lo, hi, step) <= 0
    ensures Capacity(lo, hi, step) == 0 <==> step == WRAP - (hi - lo)
  {
  }

  lemma NarrowCapacity(lo: Int64, hi: Int64, step: Int64)
    requires step > 0 && lo <= hi && hi - lo <= INT_MAX
    ensures Capacity(lo, hi, step) == if Count(lo, hi, step) <= INT_MAX then Count(lo, hi, step) else INT_MIN
  {
    var q := (hi - lo) / step;
    ScaleLe(1, step, q);
    assert hi - lo == step * q + (hi - lo) % step;
  }

  /** With room made, there is something to draw from exactly when the range is an `int`: all levels promised. */
  lemma DrawableIff(q: Request, room: Room)
    requires RequestProblem(q).None? && q.format == ScoreFormat
    ensures Drawable(q.p, room) <==> MakesRoom(q.p, room) && Steps(q.p) > 0
    ensures Steps(q.p) > 0 ==> Steps(q.p) == |Promised(q.p)|
  {
    var lo, hi, step := q.p.scoreMin.value, q.p.scoreMax.value, q.p.scoreStep.value;
    if hi - lo > INT_MAX {
      WideCapacity(lo, hi, step);
    } else {
      NarrowCapacity(lo, hi, step);
    }
  }

  /** Approvals and rankings: always written, and legal. */
  lemma UnscoredIsWritten(q: Request, room: Room, passes: nat, r: Outcome)
    requires RequestProblem(q).None? && q.format != ScoreFormat && Produces(q, room, passes, r)
    ensures r.Written? && AllLegal(r.dataset, q)
  {
    PlannedIsRanked(q, []);
    SoundDatasetLegal(q, [], r.dataset);
  }

  /** Uniform scores are drawn, not read off the levels: whatever is written is legal, and this is when. */
  lemma UniformScoresIff(q: Request, room: Room, passes: nat, r: Outcome)
    requires RequestProblem(q).None? && q.format == ScoreFormat && q.model == Uniform && Produces(q, room, passes, r)
    ensures r.Written? <==> Drawable(q.p, room) && PlannedLevels(q, room, passes).Ended?
    ensures r.Written? ==> AllLegal(r.dataset, q)
  {
    DrawableIff(q, room);
    if r.Written? {
      var levels := PlannedLevels(q, room, passes).levels;
      PlannedIsRanked(q, levels);
      SoundDatasetLegal(q, levels, r.dataset);
    }
  }

  lemma {:induction false} LastBelow(v: Int64, hi: Int64, step: Int64, passes: nat)
    requires step > 0 && v <= hi && Climb(v, hi, step, passes).ended
    ensures var values := Climb(v, hi, step, passes).values;
            values != [] && values[|values| - 1] <= hi < values[|values| - 1] + step <= INT_MAX
    decreases passes
  {
    if Wrap(v + step) <= hi {
      LastBelow(Wrap(v + step), hi, step, passes - 1);
    }
  }

  /** A legal score within one step of the upper limit is the top level. */
  lemma TopIfLegal(score: int, p: Params)
    requires Scoring(p) && LegalScore(score, p) && p.scoreMax.value < score + p.scoreStep.value
    ensures score == p.scoreMin.value + (Promises(p) - 1) * p.scoreStep.value
  {
    var k: nat :| score == p.scoreMin.value + k * p.scoreStep.value <= p.scoreMax.value;
    QuotientBetween(p.scoreMax.value - p.scoreMin.value, p.scoreStep.value, k);
  }

  /** Whoever a voter ranks first gets the last level appended. */
  lemma FirstGetsLast(u: Setup, s: Word, voterRef: string)
    requires Ranked(u) && Runnable(u) && u.format == ScoreFormat && u.model != Uniform && u.levels != []
    requires Legal(Vote(u, s, voterRef), u.format, u.ids, u.p)
    ensures LegalScore(u.levels[|u.levels| - 1], u.p)
  {
    var order := VoterOrder(u, s);
    OrderIsFull(u, s);
    ScoresAreByOrder(order, u.levels);
    LevelsFall(0, 0, |order|, |u.levels|);
    assert order[0] in ScoresOf(order, u.levels);
  }

  lemma LegalMeansClimbs(q: Request, room: Room, passes: nat, r: Outcome)
    requires RequestProblem(q).None? && q.format == ScoreFormat && q.model != Uniform && Produces(q, room, passes, r)
    requires r.Written? && AllLegal(r.dataset, q)
    ensures Climbs(q.p, room)
  {
    LastBelow(q.p.scoreMin.value, q.p.scoreMax.value, q.p.scoreStep.value, passes);
    LastIsLegal(q, PlannedLevels(q, room, passes).levels, r.dataset);
    LegalLastClimbs(q.p, room, passes);
  }

  lemma LegalLastClimbs(p: Params, room: Room, passes: nat)
    requires Scoring(p) && MakesRoom(p, room)
    requires var c := Climb(p.scoreMin.value, p.scoreMax.value, p.scoreStep.value, passes);
             c.ended && c.values != [] && LegalScore(c.values[|c.values| - 1], p)
    ensures Climbs(p, room)
  {
    var values := Climb(p.scoreMin.value, p.scoreMax.value, p.scoreStep.value, passes).values;
    LastBelow(p.scoreMin.value, p.scoreMax.value, p.scoreStep.value, passes);
    TopIfLegal(values[|values| - 1], p);
  }

  lemma LastIsLegal(q: Request, levels: seq<int>, g: Generated)
    requires RequestProblem(q).None? && q.format == ScoreFormat && q.model != Uniform && levels != []
    requires Runnable(PlannedSetup(q, levels)) && Holds(g, q, levels) && AllLegal(g, q)
    ensures LegalScore(levels[|levels| - 1], q.p)
  {
    PlannedIsRanked(q, levels);
    VoterIsLegal(q, levels, g, 0);
    FirstGetsLast(PlannedSetup(q, levels), FirstState(q), VoterRef(0));
  }

  lemma VoterIsLegal(q: Request, levels: seq<int>, g: Generated, i: nat)
    requires RequestProblem(q).None? && i < q.voters
    requires Runnable(PlannedSetup(q, levels)) && Holds(g, q, levels) && AllLegal(g, q)
    ensures var u := PlannedSetup(q, levels);
            Legal(Vote(u, VoterState(u, FirstState(q), i), VoterRef(i)), u.format, u.ids, u.p)
  {
    BallotAt(q, levels, g, i);
  }

  /** Model-based scores, whatever the range: legal if and only if the limits can be climbed. */
  lemma ModelScoresLegalIff(q: Request, room: Room, passes: nat, r: Outcome)
    requires RequestProblem(q).None? && q.format == ScoreFormat && q.model != Uniform && Produces(q, room, passes, r)
    ensures r.Written? && AllLegal(r.dataset, q) <==> Climbs(q.p, room) && passes >= Promises(q.p)
  {
    LevelsRightIff(q.p.scoreMin.value, q.p.scoreMax.value, q.p.scoreStep.value, room, passes);
    if Climbs(q.p, room) {
      var levels := Promised(q.p);
      if passes >= Promises(q.p) {
        PlannedIsRanked(q, levels);
        SoundDatasetLegal(q, levels, r.dataset);
      } else if r.Written? {
        TooFewPasses(q, room, passes);
      }
    } else if r.Written? && AllLegal(r.dataset, q) {
      LegalMeansClimbs(q, room, passes, r);
    }
  }

  lemma TooFewPasses(q: Request, room: Room, passes: nat)
    requires RequestProblem(q).None? && q.format == ScoreFormat && Climbs(q.p, room) && passes < Promises(q.p)
    ensures !PlannedLevels(q, room, passes).Ended?
  {
    var lo, hi, step := q.p.scoreMin.value, q.p.scoreMax.value, q.p.scoreStep.value;
    LevelsRightIff(lo, hi, step, room, passes);
    LevelsRightIff(lo, hi, step, room, Promises(q.p));
    if Climb(lo, hi, step, passes).ended {
      EndedIsFinal(lo, hi, step, passes, Promises(q.p));
    }
  }

  /** Checkable beforehand: all limits this format and model need. */
  predicate Serves(q: Request, room: Room)
    requires RequestProblem(q).None?
  {
    q.format == ScoreFormat ==>
      if q.model == Uniform then Drawable(q.p, room) && LoopEnds(q.p) else Climbs(q.p, room)
  }

  /** A valid request can come to a dataset of legal ballots if and only if its limits serve. */
  lemma LegalDatasetIff(q: Request, room: Room)
    requires RequestProblem(q).None?
    ensures (exists passes: nat, r :: Produces(q, room, passes, r) && r.Written? && AllLegal(r.dataset, q))
       <==> Serves(q, room)
  {
    if Serves(q, room) {
      var passes := ServingPasses(q, room);
      var r := OutcomeExists(q, room, passes);
      ServedLegally(q, room, passes, r);
    } else {
      forall passes: nat, r | Produces(q, room, passes, r) ensures !(r.Written? && AllLegal(r.dataset, q)) {
        NotServed(q, room, passes, r);
      }
    }
  }

  lemma NotServed(q: Request, room: Room, passes: nat, r: Outcome)
    requires RequestProblem(q).None? && !Serves(q, room) && Produces(q, room, passes, r)
    ensures !(r.Written? && AllLegal(r.dataset, q))
  {
    if q.model != Uniform {
      ModelScoresLegalIff(q, room, passes, r);
    } else {
      UniformScoresIff(q, room, passes, r);
      if Drawable(q.p, room) {
        DrawableIff(q, room);
        LoopsForever(q, room, passes);
      }
    }
  }

  lemma ServingPasses(q: Request, room: Room) returns (passes: nat)
    requires RequestProblem(q).None? && Serves(q, room)
    ensures q.format == ScoreFormat ==>
              if q.model == Uniform then PlannedLevels(q, room, passes).Ended? else passes >= Promises(q.p)
  {
    passes := 0;
    if q.format == ScoreFormat && q.model == Uniform {
      DrawableIff(q, room);
      LoopEndsIff(q, room);
      passes :| PlannedLevels(q, room, passes).Ended?;
    } else if q.format == ScoreFormat {
      passes := Promises(q.p);
    }
  }

  lemma ServedLegally(q: Request, room: Room, passes: nat, r: Outcome)
    requires RequestProblem(q).None? && Serves(q, room) && Produces(q, room, passes, r)
    requires q.format == ScoreFormat ==>
               if q.model == Uniform then PlannedLevels(q, room, passes).Ended? else passes >= Promises(q.p)
    ensures r.Written? && AllLegal(r.dataset, q)
  {
    if q.format != ScoreFormat {
      UnscoredIsWritten(q, room, passes, r);
    } else if q.model == Uniform {
      UniformScoresIff(q, room, passes, r);
    } else {
      ModelScoresLegalIff(q, room, passes, r);
    }
  }

  /** A valid request can be answered with illegal ballots exactly if it is model-based, ends and cannot be climbed. */
  lemma IllegalDatasetIff(q: Request, room: Room)
    requires RequestProblem(q).None?
    ensures (exists passes: nat, r :: Produces(q, room, passes, r) && r.Written? && !AllLegal(r.dataset, q))
       <==> && q.format == ScoreFormat && q.model != Uniform
            && MakesRoom(q.p, room) && LoopEnds(q.p) && !Climbs(q.p, room)
  {
    if q.format != ScoreFormat {
      forall passes: nat, r | Produces(q, room, passes, r) ensures r.Written? && AllLegal(r.dataset, q) {
        UnscoredIsWritten(q, room, passes, r);
      }
    } else if q.model == Uniform {
      forall passes: nat, r | Produces(q, room, passes, r) ensures r.Written? ==> AllLegal(r.dataset, q) {
        UniformScoresIff(q, room, passes, r);
      }
    } else {
      IllegalScoresIff(q, room);
    }
  }

  lemma IllegalScoresIff(q: Request, room: Room)
    requires RequestProblem(q).None? && q.format == ScoreFormat && q.model != Uniform
    ensures (exists passes: nat, r :: Produces(q, room, passes, r) && r.Written? && !AllLegal(r.dataset, q))
       <==> MakesRoom(q.p, room) && LoopEnds(q.p) && !Climbs(q.p, room)
  {
    if MakesRoom(q.p, room) && LoopEnds(q.p) && !Climbs(q.p, room) {
      LoopEndsIff(q, room);
      var passes: nat :| PlannedLevels(q, room, passes).Ended?;
      var r := OutcomeExists(q, room, passes);
      ModelScoresLegalIff(q, room, passes, r);
      assert r.Written?;
    } else {
      forall passes: nat, r | Produces(q, room, passes, r) && r.Written? ensures AllLegal(r.dataset, q) {
        ModelScoresLegalIff(q, room, passes, r);
        if Climbs(q.p, room) {
          if passes < Promises(q.p) {
            TooFewPasses(q, room, passes);
          }
        } else {
          LoopEndsIff(q, room);
        }
      }
    }
  }

  lemma PanicsIff(q: Request, room: Room, passes: nat, r: Outcome)
    requires RequestProblem(q).None? && q.format == ScoreFormat && Produces(q, room, passes, r)
    ensures r == Panicked
       <==> !MakesRoom(q.p, room) || (q.model == Uniform && Steps(q.p) <= 0 && PlannedLevels(q, room, passes).Ended?)
  {
  }

  /** A range too wide for a machine `int` passes validation; exactly when it then panics. */
  lemma WideRange(q: Request, room: Room, passes: nat, r: Outcome)
    requires RequestProblem(q).None? && q.format == ScoreFormat && Produces(q, room, passes, r)
    requires q.p.scoreMax.value - q.p.scoreMin.value > INT_MAX
    ensures r == Panicked
       <==> || q.p.scoreStep.value != WRAP - (q.p.scoreMax.value - q.p.scoreMin.value)
            || (q.model == Uniform && PlannedLevels(q, room, passes).Ended?)
  {
    WideCapacity(q.p.scoreMin.value, q.p.scoreMax.value, q.p.scoreStep.value);
    PanicsIff(q, room, passes, r);
  }

  /** A small request written with an illegal score: one candidate, limits -1 to 2^62 in steps of 2^62 + 1. */
  function WrongStep(seed: Word): Request {
    Request([Candidate("a", "A")], ScoreFormat, Consensus,
            Params(None, None, Some(-1), Some(HALF), Some(HALF + 1)), 1, seed)
  }

  lemma IllegalScoreWritten(seed: Word, room: Room, r: Outcome)
    requires room >= 2 && Produces(WrongStep(seed), room, 5, r)
    ensures RequestProblem(WrongStep(seed)).None?
    ensures r.Written? && !AllLegal(r.dataset, WrongStep(seed))
  {
    WrongStepIsValid(seed);
    WideStepEndsWrong(room);
    ModelScoresLegalIff(WrongStep(seed), room, 5, r);
  }

  lemma WrongStepIsValid(seed: Word)
    ensures RequestProblem(WrongStep(seed)).None?
  {
  }

  // ----- The polarized model

  /** The state from which voter i's order is drawn: approval voters draw their number first. */
  function OrderStart(u: Setup, s: Word, i: nat): Word
    requires Runnable(u)
  {
    var t := VoterState(u, s, i);
    if u.format == ApprovalFormat then After(t) else t
  }

  /** Every voter after the first starts from an odd state. */
  lemma LaterStatesOdd(u: Setup, s: Word, i: nat)
    requires Runnable(u) && u.model == Polarized && |u.ids| >= 2 && i >= 1
    ensures VoterState(u, s, i) % 2 == 1
  {
    var t := VoterState(u, s, i - 1);
    PolarizedLeavesOdd(u.ids, u.base, u.opposite, t);
    PolarizedLeavesOdd(u.ids, u.base, u.opposite, After(t));
  }

  /**
   * All voters after the first are on one side: in ranking and score datasets two swaps from the
   * common order, in approval datasets one swap from its reverse.
   */
  lemma LaterVotersShareOnePole(u: Setup, s: Word, i: nat)
    requires Runnable(u) && u.model == Polarized && |u.ids| >= 2 && i >= 1
    ensures var t := OrderStart(u, s, i);
            VoterOrder(u, t) == if u.format == ApprovalFormat then Noisy(u.opposite, After(After(t)), 1)
                                else Noisy(u.base, After(After(t)), 2)
  {
    LaterStatesOdd(u, s, i);
    NextTwoBits(VoterState(u, s, i));
    PolarizedByParity(u.ids, u.base, u.opposite, OrderStart(u, s, i));
  }

  /** In numbers of pairs: nobody after the first is further than two from the shared pole. */
  lemma LaterVotersAreClose(u: Setup, s: Word, i: nat)
    requires Runnable(u) && u.model == Polarized && |u.ids| >= 2 && i >= 1 && NoDup(u.base) && NoDup(u.opposite)
    ensures var order := VoterOrder(u, OrderStart(u, s, i));
            if u.format == ApprovalFormat then Disagreements(order, u.opposite) == 1
            else Disagreements(order, u.base) == 0 || Disagreements(order, u.base) == 2
  {
    LaterVotersShareOnePole(u, s, i);
    OneSwap(u.opposite, After(After(OrderStart(u, s, i))));
    TwoSwaps(u.base, After(After(OrderStart(u, s, i))));
  }

  /** The ballot follows the shared pole, with the swaps drawn from state `t`. */
  ghost predicate FollowsShared(b: BallotDoc, u: Setup, t: Word) {
    match u.format
    case ApprovalFormat => b.approval <= Noisy(u.opposite, t, 1)
    case RankingFormat => b.ranking <= Noisy(u.base, t, 2)
    case ScoreFormat => b.scores == ScoresOf(Noisy(u.base, t, 2), u.levels)
  }

  /** In a polarized dataset every ballot after the first follows one and the same pole. */
  lemma PolarizedDatasetHasOnePole(q: Request, levels: seq<int>, g: Generated, i: nat)
    requires RequestProblem(q).None? && q.model == Polarized && |q.candidates| >= 2
    requires Runnable(PlannedSetup(q, levels)) && Holds(g, q, levels) && 1 <= i < q.voters
    ensures exists t: Word :: FollowsShared(Flatten(g.inserted)[i], PlannedSetup(q, levels), t)
  {
    BallotAt(q, levels, g, i);
    LaterVoteFollows(PlannedSetup(q, levels), FirstState(q), i, VoterRef(i));
  }

  lemma LaterVoteFollows(u: Setup, s: Word, i: nat, voterRef: string)
    requires Runnable(u) && u.model == Polarized && |u.ids| >= 2 && i >= 1
    ensures exists t: Word :: FollowsShared(Vote(u, VoterState(u, s, i), voterRef), u, t)
  {
    LaterVotersShareOnePole(u, s, i);
    assert FollowsShared(Vote(u, VoterState(u, s, i), voterRef), u, After(After(OrderStart(u, s, i))));
  }

  /** The seed counted on by the draws made before the first voter's order. */
  function DrawsFirst(q: Request): int {
    q.seed + |q.candidates| - if q.format == ApprovalFormat then 0 else 1
  }

  /** The first voter's side is fixed by the parities of the seed and the number of candidates. */
  lemma FirstVotersPole(q: Request, levels: seq<int>)
    requires RequestProblem(q).None? && !NothingToDraw(q) && q.model == Polarized
    ensures Runnable(PlannedSetup(q, levels))
    ensures var u := PlannedSetup(q, levels);
            var t := OrderStart(u, FirstState(q), 0);
            VoterOrder(u, t) == if DrawsFirst(q) % 2 == 1 then Noisy(u.base, After(After(t)), 2)
                                else Noisy(u.opposite, After(After(t)), 1)
  {
    var u := PlannedSetup(q, levels);
    SetupRunnable(q, levels);
    FirstStartParity(u, q);
    PolarizedByParity(u.ids, u.base, u.opposite, OrderStart(u, FirstState(q), 0));
  }

  lemma FirstStartParity(u: Setup, q: Request)
    requires Runnable(u) && u.format == q.format && |q.candidates| > 0
    ensures OrderStart(u, FirstState(q), 0) % 2 == DrawsFirst(q) % 2
  {
    var n := |q.candidates|;
    LowBitsCountDraws(q.seed, n - 1);
    LowBitsCountDraws(q.seed, n);
    AfterNSnoc(q.seed, n - 1);
  }

  // ----- The consensus model

  /** The ballot says what `order` says: its first candidates, or the scores read off it. */
  ghost predicate Follows(b: BallotDoc, u: Setup, order: seq<string>) {
    match u.format
    case ApprovalFormat => b.approval != [] && b.approval <= order
    case RankingFormat => b.ranking != [] && b.ranking <= order
    case ScoreFormat => b.scores == ScoresOf(order, u.levels)
  }

  /** Model-based ballots follow the voter's order. */
  lemma VoteFollowsOrder(u: Setup, s: Word, i: nat, voterRef: string)
    requires Runnable(u) && ValidateParams(u.format, u.p, |u.ids|).None? && u.model != Uniform
    ensures Follows(Vote(u, VoterState(u, s, i), voterRef), u, VoterOrder(u, OrderStart(u, s, i)))
  {
  }

  /** In a consensus dataset every ballot follows an order within three pairs of the common one. */
  lemma ConsensusDatasetIsNear(q: Request, levels: seq<int>, g: Generated, i: nat)
    requires RequestProblem(q).None? && q.model == Consensus && |q.candidates| >= 2
    requires Runnable(PlannedSetup(q, levels)) && Holds(g, q, levels) && i < q.voters
    ensures i < |Flatten(g.inserted)|
    ensures var u := PlannedSetup(q, levels);
            exists order :: Follows(Flatten(g.inserted)[i], u, order) && Rearranges(order, u.base)
                            && Disagreements(order, u.base) <= 3
  {
    var u, s := PlannedSetup(q, levels), FirstState(q);
    var t := OrderStart(u, s, i);
    BallotAt(q, levels, g, i);
    VoteFollowsOrder(u, s, i, VoterRef(i));
    PlannedIsRanked(q, levels);
    PermutationNoDup(u.ids, u.base);
    ConsensusIsNear(u.ids, u.base, u.opposite, t);
    assert Follows(Flatten(g.inserted)[i], u, VoterOrder(u, t));
  }

  // ----- The uniform model

  /** How many draws `i` shuffles of `n` candidates use up. */
  function Used(n: nat, i: nat): nat {
    if i == 0 then 0 else Used(n, i - 1) + DrawCount(n)
  }

  /** In uniform ranking datasets each voter uses up one shuffle's draws. */
  lemma {:induction false} UniformStates(u: Setup, s: Word, i: nat)
    requires Runnable(u) && u.format == RankingFormat && u.model == Uniform
    ensures VoterState(u, s, i) == AfterN(s, Used(|u.ids|, i))
  {
    if i > 0 {
      UniformStates(u, s, i - 1);
      AfterNAdds(s, Used(|u.ids|, i - 1), DrawCount(|u.ids|));
    }
  }

  /** The last draw of voter i's shuffle only counts the draws made so far. */
  lemma UniformLastDraw(u: Setup, s: Word, i: nat)
    requires Runnable(u) && u.format == RankingFormat && u.model == Uniform && |u.ids| >= 2
    ensures LcgDraws(VoterState(u, s, i), |u.ids|)[|u.ids| - 2] == (s + Used(|u.ids|, i + 1)) % 2
  {
    UniformStates(u, s, i);
    LastDrawAfter(s, Used(|u.ids|, i), |u.ids|);
  }

  lemma LastDrawAfter(s: Word, used: nat, n: nat)
    requires n >= 2
    ensures LcgDraws(AfterN(s, used), n)[n - 2] == (s + used + n - 1) % 2
  {
    DrawAt(AfterN(s, used), n, n - 2);
    AfterNAdds(s, used, n - 1);
    LowBitsCountDraws(s, used + (n - 1));
  }

  /** The orders of three candidates that end the shuffle with this bit. */
  function OrdersWithBit(ids: seq<string>, bit: nat): seq<seq<string>>
    requires |ids| == 3 && bit < 2
  {
    [Dealt(ids, [0, bit]), Dealt(ids, [1, bit]), Dealt(ids, [2, bit])]
  }

  lemma {:induction false} PairsUsed(s: nat, i: nat)
    ensures (s + Used(3, i)) % 2 == s % 2
  {
    if i > 0 {
      PairsUsed(s, i - 1);
      Half(s + Used(3, i), (s + Used(3, i - 1)) / 2 + 1, (s + Used(3, i - 1)) % 2);
    }
  }

  /** With three candidates one coin is tossed once for all voters: at most three of the six orders occur. */
  lemma ThreeCandidatesShareACoin(u: Setup, s: Word, i: nat)
    requires Runnable(u) && u.format == RankingFormat && u.model == Uniform && |u.ids| == 3
    ensures VoterOrder(u, VoterState(u, s, i)) in OrdersWithBit(u.ids, s % 2)
  {
    var t := VoterState(u, s, i);
    UniformLastDraw(u, s, i);
    PairsUsed(s, i + 1);
    var draws := LcgDraws(t, 3);
    assert draws == [draws[0], s % 2];
    assert VoterOrder(u, t) == Dealt(u.ids, draws);
  }

  /** So in the whole dataset every ballot starts one of three orders, and the seed's parity says which three. */
  lemma SeedTossesTheCoin(q: Request, g: Generated, i: nat)
    requires RequestProblem(q).None? && q.format == RankingFormat && q.model == Uniform && |q.candidates| == 3
    requires Runnable(PlannedSetup(q, [])) && Holds(g, q, []) && i < q.voters
    ensures exists order :: order in OrdersWithBit(g.ids, q.seed % 2) && Flatten(g.inserted)[i].ranking <= order
  {
    var u, s := PlannedSetup(q, []), FirstState(q);
    BallotAt(q, [], g, i);
    FirstStateParity(q);
    ThreeCandidatesShareACoin(u, s, i);
    RankingStartsOrder(u, VoterState(u, s, i), VoterRef(i));
  }

  lemma FirstStateParity(q: Request)
    requires |q.candidates| == 3
    ensures FirstState(q) % 2 == q.seed % 2
  {
    LowBitsCountDraws(q.seed, 2);
    Half(q.seed + 2, q.seed / 2 + 1, q.seed % 2);
  }

  lemma RankingStartsOrder(u: Setup, s: Word, voterRef: string)
    requires Runnable(u) && u.format == RankingFormat
    ensures Vote(u, s, voterRef).ranking <= VoterOrder(u, s)
  {
  }

  // ----- Uniform scores

  /** In uniform score datasets each voter uses up one draw per candidate. */
  lemma {:induction false} ScoreStates(u: Setup, s: Word, i: nat, j: nat, draws: nat)
    requires Runnable(u) && u.format == ScoreFormat && u.model == Uniform && i <= j && draws == (j - i) * |u.ids|
    ensures VoterState(u, s, j) == AfterN(VoterState(u, s, i), draws)
    decreases j
  {
    if i < j {
      OneLess(j - i, |u.ids|);
      ScoreStates(u, s, i, j - 1, draws - |u.ids|);
      AfterNAdds(VoterState(u, s, i), draws - |u.ids|, |u.ids|);
    } else {
      assert draws == 0;
    }
  }

  lemma {:induction false} DrawnAlike(ids: seq<string>, p: Params, s: Word, t: Word, b: nat, k: nat)
    requires Scoring(p) && Steps(p) == Pow2(b) && b <= 64 && k <= |ids|
    requires s % Pow2(b) == t % Pow2(b)
    ensures DrawnScores(ids, p, s, k) == DrawnScores(ids, p, t, k)
    decreases k
  {
    if k > 0 {
      DrawnAlike(ids, p, s, t, b, k - 1);
      LowBitsStayEqual(s, t, k, b);
    }
  }

  lemma {:induction false} FirstDrawn(ids: seq<string>, p: Params, s: Word, k: nat)
    requires Scoring(p) && Steps(p) > 0 && NoDup(ids) && 1 <= k <= |ids|
    ensures ids[0] in DrawnScores(ids, p, s, k) && DrawnScores(ids, p, s, k)[ids[0]] == DrawnScore(p, s, 0)
  {
    if k > 1 {
      FirstDrawn(ids, p, s, k - 1);
    }
  }

  /** Different draws are different scores. */
  lemma SameDrawnScore(p: Params, s: Word, t: Word)
    requires Scoring(p) && 0 < Steps(p) == |Promised(p)| && DrawnScore(p, s, 0) == DrawnScore(p, t, 0)
    ensures After(s) % Steps(p) == After(t) % Steps(p)
  {
    OneStep(s);
    OneStep(t);
    var v, w := After(s) % Steps(p), After(t) % Steps(p);
    PromisedIsLegal(p, v);
    PromisedIsLegal(p, w);
    ScaleLe(0, v, p.scoreStep.value);
    ScaleLe(0, w, p.scoreStep.value);
    SameFactor(v, w, p.scoreStep.value);
  }

  lemma DrawnAlikeIff(ids: seq<string>, p: Params, s: Word, t: Word, b: nat)
    requires Scoring(p) && Steps(p) == |Promised(p)| == Pow2(b) && b <= 64 && NoDup(ids) && ids != []
    ensures DrawnScores(ids, p, s, |ids|) == DrawnScores(ids, p, t, |ids|) <==> s % Pow2(b) == t % Pow2(b)
  {
    if s % Pow2(b) == t % Pow2(b) {
      DrawnAlike(ids, p, s, t, b, |ids|);
    } else if DrawnScores(ids, p, s, |ids|) == DrawnScores(ids, p, t, |ids|) {
      FirstDrawn(ids, p, s, |ids|);
      FirstDrawn(ids, p, t, |ids|);
      SameDrawnScore(p, s, t);
      LowBitsOneAgo(s, t, b);
    }
  }

  lemma VotersAgreeIff(u: Setup, s: Word, i: nat, j: nat, b: nat)
    requires Ranked(u) && Runnable(u) && u.format == ScoreFormat && u.model == Uniform
    requires Steps(u.p) == |Promised(u.p)| == Pow2(b) && b <= 64 && i <= j
    ensures var x, y := VoterState(u, s, i), VoterState(u, s, j);
            DrawnScores(u.ids, u.p, x, |u.ids|) == DrawnScores(u.ids, u.p, y, |u.ids|)
            <==> (j - i) * |u.ids| % Pow2(b) == 0
  {
    DrawnAlikeIff(u.ids, u.p, VoterState(u, s, i), VoterState(u, s, j), b);
    ScoreStates(u, s, i, j, (j - i) * |u.ids|);
    LowBitsRepeatIff(VoterState(u, s, i), (j - i) * |u.ids|, b);
  }

  /**
   * With 2^b levels, two voters of a uniform score dataset submit the same scores if and only if 2^b divides
   * the number of draws between them.
   */
  lemma UniformScoresRepeatIff(q: Request, levels: seq<int>, g: Generated, i: nat, j: nat, b: nat)
    requires RequestProblem(q).None? && q.format == ScoreFormat && q.model == Uniform && Steps(q.p) == Pow2(b)
    requires Runnable(PlannedSetup(q, levels)) && Holds(g, q, levels) && i <= j < q.voters
    ensures |Flatten(g.inserted)| == q.voters
    ensures Flatten(g.inserted)[i].scores == Flatten(g.inserted)[j].scores
       <==> (j - i) * |q.candidates| % Pow2(b) == 0
  {
    var u, s := PlannedSetup(q, levels), FirstState(q);
    BallotAt(q, levels, g, i);
    BallotAt(q, levels, g, j);
    PlannedIsRanked(q, levels);
    DrawableIff(q, INT_MAX);
    PowerOfInt(b);
    VotersAgreeIff(u, s, i, j, b);
  }

  lemma PowerOfInt(b: nat)
    requires Pow2(b) <= INT_MAX
    ensures b < 64
  {
    Pow64();
    if b >= 64 {
      PowersGrow(64, b);
    }
  }

  lemma SinceTheCycle(i: nat, p: nat, n: nat)
    requires p > 0
    ensures i % p <= i && (i - i % p) * n % p == 0
  {
    var turns := i / p;
    assert i - i % p == turns * p && turns * p * n == turns * n * p;
    ScaleLe(0, turns, p);
    RemainderIs((i - i % p) * n, p, turns * n, 0);
  }

  /** So at most 2^b different ballots are ever submitted, over and over. */
  lemma UniformScoresCycle(q: Request, levels: seq<int>, g: Generated, i: nat, b: nat)
    requires RequestProblem(q).None? && q.format == ScoreFormat && q.model == Uniform && Steps(q.p) == Pow2(b)
    requires Runnable(PlannedSetup(q, levels)) && Holds(g, q, levels) && i < q.voters
    ensures |Flatten(g.inserted)| == q.voters && i % Pow2(b) <= i
    ensures Flatten(g.inserted)[i].scores == Flatten(g.inserted)[i % Pow2(b)].scores
  {
    SinceTheCycle(i, Pow2(b), |q.candidates|);
    UniformScoresRepeatIff(q, levels, g, i % Pow2(b), i, b);
  }

  lemma TimesMultiple(i: nat, n: nat, p: nat)
    requires p > 0 && n % p == 0
    ensures (i - 0) * n % p == 0
  {
    var k := n / p;
    assert i * n == i * k * p;
    RemainderIs(i * n, p, i * k, 0);
  }

  lemma ScoresLikeTheFirst(q: Request, levels: seq<int>, g: Generated, i: nat, b: nat)
    requires RequestProblem(q).None? && q.format == ScoreFormat && q.model == Uniform && Steps(q.p) == Pow2(b)
    requires Runnable(PlannedSetup(q, levels)) && Holds(g, q, levels) && i < q.voters
    requires |q.candidates| % Pow2(b) == 0
    ensures |Flatten(g.inserted)| == q.voters
    ensures Flatten(g.inserted)[i].scores == Flatten(g.inserted)[0].scores
  {
    TimesMultiple(i, |q.candidates|, Pow2(b));
    UniformScoresRepeatIff(q, levels, g, 0, i, b);
  }

  /** And everybody submits the same scores exactly when 2^b divides the number of candidates. */
  lemma EverybodyScoresAlikeIff(q: Request, levels: seq<int>, g: Generated, b: nat)
    requires RequestProblem(q).None? && q.format == ScoreFormat && q.model == Uniform && Steps(q.p) == Pow2(b)
    requires Runnable(PlannedSetup(q, levels)) && Holds(g, q, levels) && q.voters >= 2
    ensures |Flatten(g.inserted)| == q.voters
    ensures (forall i :: 0 <= i < q.voters ==> Flatten(g.inserted)[i].scores == Flatten(g.inserted)[0].scores)
       <==> |q.candidates| % Pow2(b) == 0
  {
    UniformScoresRepeatIff(q, levels, g, 0, 1, b);
    assert (1 - 0) * |q.candidates| == |q.candidates|;
    if |q.candidates| % Pow2(b) == 0 {
      forall i: nat | i < q.voters ensures Flatten(g.inserted)[i].scores == Flatten(g.inserted)[0].scores {
        ScoresLikeTheFirst(q, levels, g, i, b);
      }
    }
  }
}
