/**
 * Rules that remove candidates round by round: voting_rules/elimination/rule.rs with the
 * criteria and stop conditions of the Nanson, inverse Borda and Hare rules.
 */
module Elimination {
  import opened Sums
  import opened CandidateIds
  import opened Profiles
  import opened Reductions
  import opened Scorers
  import opened ScoreAlgebra
  import opened Deciders
  import opened RuleAgreement

  datatype EliminationRule = Nanson | InverseBorda | Hare

  function ScoringRule(rule: EliminationRule): Rule {
    if rule == Hare then PLURALITY else Borda
  }

  datatype RuleOutcome = UniqueWinner(winner: CandidateId) | MultipleWinners(winners: seq<CandidateId>)

  /** How a run ends; `Panicked` is the plurality scorer reading the first entry of an empty ballot. */
  datatype Ending = Returned(outcome: RuleOutcome) | Panicked

  /** `FallthroughTieBreaker::tie_break`. */
  function TieBreak(cands: seq<CandidateId>): RuleOutcome {
    if |cands| == 1 then UniqueWinner(cands[0]) else MultipleWinners(cands)
  }

  /** `NoEarlyStop` for the Borda rules, `MajorityStop` for Hare. */
  predicate ShouldStop(rule: EliminationRule, scores: seq<int>, nVoters: nat) {
    rule == Hare && exists k :: 0 <= k < |scores| && scores[k] * 2 > nVoters
  }

  function Ident(): int -> int { (x: int) => x }

  /** The candidates scoring strictly below the average, without dividing. */
  function BelowAverageOf(scores: seq<int>, cands: seq<CandidateId>, n: nat, total: int): seq<CandidateId>
    requires |scores| == |cands|
  {
    if scores == [] then []
    else (if scores[0] * n < total then [cands[0]] else []) + BelowAverageOf(scores[1..], cands[1..], n, total)
  }

  /** `BelowAverageElimination` and `MinScoreElimination`. */
  function Eliminate(rule: EliminationRule, scores: seq<int>, cands: seq<CandidateId>): seq<CandidateId>
    requires |scores| == |cands|
  {
    if rule == Nanson then BelowAverageOf(scores, cands, |scores|, Sum(scores, Ident()))
    else MinWinners(scores, cands)
  }

  /** The outcome of one pass through the loop. */
  datatype Round = Done(ending: Ending) | Continue(next: Profile)

  function PlayRound(rule: EliminationRule, q: Profile): Round {
    if rule == Hare && q.active == [] then Done(Panicked)
    else
      var scores := ScoreVector(q, ScoringRule(rule));
      if ShouldStop(rule, scores, |q.votes|) then Done(Returned(TieBreak(MaxWinners(scores, q.active))))
      else
        var toRemove := Eliminate(rule, scores, q.active);
        if toRemove == [] then Done(Returned(MultipleWinners([])))
        else
          var next := Removed(q, Members(toRemove));
          if |next.active| == 1 then Done(Returned(UniqueWinner(next.active[0])))
          else Continue(next)
  }

  // ----- What a round removes

  lemma {:induction false} BelowAverageMembers(
    scores: seq<int>, cands: seq<CandidateId>, n: nat, total: int, c: CandidateId)
    requires |scores| == |cands|
    ensures c in BelowAverageOf(scores, cands, n, total)
            <==> exists i :: 0 <= i < |scores| && scores[i] * n < total && cands[i] == c
  {
    if scores != [] {
      BelowAverageMembers(scores[1..], cands[1..], n, total, c);
      var r := BelowAverageOf(scores[1..], cands[1..], n, total);
      if c in r {
        var i :| 0 <= i < |scores[1..]| && scores[1..][i] * n < total && cands[1..][i] == c;
        assert scores[i + 1] * n < total && cands[i + 1] == c;
      }
      if i :| 0 <= i < |scores| && scores[i] * n < total && cands[i] == c {
        if i > 0 {
          assert scores[1..][i - 1] * n < total && cands[1..][i - 1] == c;
        }
      }
    }
  }

  lemma {:induction false} ScoresSumUp(votes: seq<Ballot>, active: seq<CandidateId>, rule: Rule)
    ensures Sum(ScoreVector(Profile(votes, active), rule), Ident()) == Sum(active, ScoreOf(votes, rule))
  {
    if active != [] {
      ScoresSumUp(votes, active[1..], rule);
      assert ScoreVector(Profile(votes, active), rule)[1..] == ScoreVector(Profile(votes, active[1..]), rule);
    }
  }

  /** `c` leaves in a round exactly when its score meets the rule's criterion. */
  ghost predicate MeetsCriterion(rule: EliminationRule, q: Profile, c: CandidateId) {
    if rule == Nanson then Score(q.votes, Borda, c) * |q.active| < Sum(q.active, ScoreOf(q.votes, Borda))
    else forall x :: x in q.active ==> Score(q.votes, ScoringRule(rule), c) <= Score(q.votes, ScoringRule(rule), x)
  }

  lemma NansonEliminates(q: Profile, c: CandidateId)
    requires Valid(q)
    ensures c in Eliminate(Nanson, ScoreVector(q, Borda), q.active) <==> c in q.active && MeetsCriterion(Nanson, q, c)
  {
    var scores := ScoreVector(q, Borda);
    SortedNoDup(q.active);
    ScoresSumUp(q.votes, q.active, Borda);
    BelowAverageMembers(scores, q.active, |scores|, Sum(scores, Ident()), c);
    if c in q.active {
      assert q.active[Pos(q.active, c)] == c;
    }
  }

  lemma LowestIsLeast(q: Profile, rule: Rule, c: CandidateId)
    requires c in q.active
    ensures ScoreVector(q, rule) != []
    ensures Score(q.votes, rule, c) == Lowest(ScoreVector(q, rule))
       <==> forall x :: x in q.active ==> Score(q.votes, rule, c) <= Score(q.votes, rule, x)
  {
    var scores := ScoreVector(q, rule);
    var m := Lowest(scores);
    var i :| 0 <= i < |scores| && scores[i] == m;
    assert q.active[i] in q.active;
    forall x | x in q.active ensures m <= Score(q.votes, rule, x) {
      assert scores[Pos(q.active, x)] in scores;
    }
  }

  lemma LowestEliminates(q: Profile, rule: Rule, c: CandidateId)
    requires Valid(q)
    ensures c in MinWinners(ScoreVector(q, rule), q.active)
       <==> c in q.active && forall x :: x in q.active ==> Score(q.votes, rule, c) <= Score(q.votes, rule, x)
  {
    var scores := ScoreVector(q, rule);
    if scores != [] {
      AtScoreMembers(scores, q.active, Lowest(scores), c);
      if c in q.active {
        LowestIsLeast(q, rule, c);
        assert scores[Pos(q.active, c)] == Score(q.votes, rule, c);
      }
    }
  }

  lemma EliminatedIffCriterion(rule: EliminationRule, q: Profile, c: CandidateId)
    requires Valid(q)
    ensures c in Eliminate(rule, ScoreVector(q, ScoringRule(rule)), q.active)
            <==> c in q.active && MeetsCriterion(rule, q, c)
  {
    if rule == Nanson {
      NansonEliminates(q, c);
    } else {
      LowestEliminates(q, ScoringRule(rule), c);
    }
  }

  lemma {:induction false} WithoutShorter(s: seq<CandidateId>, gone: set<CandidateId>)
    ensures |Without(s, gone)| <= |s|
    ensures (exists x :: x in s && x in gone) ==> |Without(s, gone)| < |s|
  {
    if s != [] {
      WithoutShorter(s[1..], gone);
      if s[0] !in gone && exists x :: x in s && x in gone {
        var x :| x in s && x in gone;
        assert x in s[1..];
      }
    }
  }

  /** Each continued round leaves a valid, smaller profile with the same voters. */
  lemma RoundShrinks(rule: EliminationRule, q: Profile)
    requires Valid(q) && PlayRound(rule, q).Continue?
    ensures Valid(PlayRound(rule, q).next)
    ensures |PlayRound(rule, q).next.active| < |q.active|
    ensures |PlayRound(rule, q).next.votes| == |q.votes|
    ensures forall x :: x in PlayRound(rule, q).next.active ==> x in q.active
  {
    var toRemove := Eliminate(rule, ScoreVector(q, ScoringRule(rule)), q.active);
    EliminatedIffCriterion(rule, q, toRemove[0]);
    RemovedValid(q, Members(toRemove));
    WithoutShorter(q.active, Members(toRemove));
  }

  /** The whole elimination. */
  function Run(rule: EliminationRule, q: Profile): Ending
    requires Valid(q)
    decreases |q.active|
  {
    match PlayRound(rule, q)
    case Done(ending) => ending
    case Continue(next) => RoundShrinks(rule, q); Run(rule, next)
  }

  /** `Elimination::execute`: the loop, with the scorer, decider and removal it calls. */
  method Execute(rule: EliminationRule, profile: Profile, plan: Plan) returns (ending: Ending)
    requires Valid(profile) && Covers(plan, |profile.votes|)
    ensures ending == Run(rule, profile)
  {
    var current := profile;
    while true
      invariant Valid(current) && |current.votes| == |profile.votes|
      invariant Run(rule, current) == Run(rule, profile)
      decreases |current.active|
    {
      var scores: seq<int>;
      if rule == Hare {
        if current.active == [] {
          return Panicked;
        }
        scores := PluralityScore(current, plan);
      } else {
        var computed := ComputeScore(current, Borda, plan);
        scores := computed.value;
      }
      var candidates := DecideMax(scores, current.active);
      var outcome := TieBreak(candidates);
      if ShouldStop(rule, scores, |profile.votes|) {
        return Returned(outcome);
      }
      var toRemove := Eliminate(rule, scores, current.active);
      if toRemove == [] {
        return Returned(MultipleWinners([]));
      }
      forall c | c in toRemove ensures c in current.active {
        EliminatedIffCriterion(rule, current, c);
      }
      var removed := RemoveCandidates(current, toRemove);
      ghost var before := current;
      current := removed.value;
      if |current.active| == 1 {
        return Returned(UniqueWinner(current.active[0]));
      }
      RoundShrinks(rule, before);
    }
  }

  // ----- Condorcet winners and losers under the Borda eliminations

  /** Nanson removes somebody whenever one candidate is strictly above the average. */
  lemma SomeoneBelowAverage(q: Profile, c: CandidateId)
    requires Valid(q) && c in q.active
    requires Score(q.votes, Borda, c) * |q.active| > Sum(q.active, ScoreOf(q.votes, Borda))
    ensures exists x :: x in q.active && MeetsCriterion(Nanson, q, x)
  {
    AverageByNet(q, c);
    NetsCancel(q.active, q.votes);
    var x := OneAboveOneBelow(q.active, c, RowSums(q.active, Net(q.votes)));
    AverageByNet(q, x);
    assert MeetsCriterion(Nanson, q, x);
  }

  /** With candidates left, inverse Borda and Hare always find somebody at the lowest score. */
  lemma LowestMeetsCriterion(rule: EliminationRule, q: Profile) returns (x: CandidateId)
    requires Valid(q) && q.active != [] && rule != Nanson
    ensures x in q.active && MeetsCriterion(rule, q, x)
  {
    var scores := ScoreVector(q, ScoringRule(rule));
    var k :| 0 <= k < |scores| && scores[k] == Lowest(scores);
    x := q.active[k];
    LowestIsLeast(q, ScoringRule(rule), x);
  }

  /** A candidate strictly above the average is not lowest. */
  lemma AboveAverageIsNotLowest(q: Profile, c: CandidateId)
    requires Valid(q) && c in q.active
    requires Score(q.votes, Borda, c) * |q.active| > Sum(q.active, ScoreOf(q.votes, Borda))
    ensures !MeetsCriterion(InverseBorda, q, c)
  {
    var s := Score(q.votes, Borda, c);
    if MeetsCriterion(InverseBorda, q, c) {
      var flat: CandidateId -> int := (x: CandidateId) => s;
      SumConst(q.active, flat, s);
      SumLe(q.active, flat, ScoreOf(q.votes, Borda));
    }
  }

  lemma OneAboveOneBelow(s: seq<CandidateId>, c: CandidateId, f: CandidateId -> int) returns (x: CandidateId)
    requires c in s && f(c) > 0 && Sum(s, f) == 0
    ensures x in s && f(x) < 0
  {
    if forall y :: y in s ==> f(y) >= 0 {
      PositiveSum(s, f, c);
      assert false;
    }
    x :| x in s && f(x) < 0;
  }

  /** As long as somebody is outside a dominating group, a round leaves some of the group, which goes on dominating. */
  lemma GroupSurvivesRound(rule: EliminationRule, q: Profile, d: set<CandidateId>, y: CandidateId)
    returns (c: CandidateId)
    requires rule != Hare && Valid(q) && Dominates(q, d) && y in q.active && y !in d
    ensures var gone := Members(Eliminate(rule, ScoreVector(q, Borda), q.active));
            c in d && c in q.active && c !in gone && Dominates(Removed(q, gone), d - gone)
    ensures Score(q.votes, Borda, c) * |q.active| > Sum(q.active, ScoreOf(q.votes, Borda))
  {
    c := SomeMemberAboveAverage(q, d, y);
    var gone := Members(Eliminate(rule, ScoreVector(q, Borda), q.active));
    EliminatedIffCriterion(rule, q, c);
    if rule == InverseBorda {
      AboveAverageIsNotLowest(q, c);
    }
    RemovedKeepsDominance(q, d, gone, c);
  }

  /**
   * A unique winner of Nanson or inverse Borda belongs to every group of candidates who each
   * strictly beat everyone outside the group.
   */
  lemma {:induction false} WinnerInDominatingGroup(
    rule: EliminationRule, q: Profile, d: set<CandidateId>, w: CandidateId)
    requires rule != Hare && Valid(q) && Dominates(q, d) && Run(rule, q) == Returned(UniqueWinner(w))
    ensures w in d
    decreases |q.active|
  {
    WinnerWasActive(rule, q, w);
    if y :| y in q.active && y !in d {
      var c := GroupSurvivesRound(rule, q, d, y);
      var toRemove := Eliminate(rule, ScoreVector(q, Borda), q.active);
      if toRemove != [] {
        RunAfterRemoval(rule, q);
        var next := Removed(q, Members(toRemove));
        assert c in next.active;
        if |next.active| != 1 {
          WinnerInDominatingGroup(rule, next, d - Members(toRemove), w);
        }
      }
    }
  }

  lemma CondorcetWinnerDominates(q: Profile, c: CandidateId)
    requires CondorcetWinner(q, c)
    ensures Dominates(q, {c})
  {
  }

  lemma AnotherActive(q: Profile, c: CandidateId) returns (y: CandidateId)
    requires Valid(q) && |q.active| >= 2
    ensures y in q.active && y != c
  {
    SortedNoDup(q.active);
    y := if q.active[0] == c then q.active[1] else q.active[0];
  }

  /** A round with two or more candidates removes somebody, but not the Condorcet winner. */
  lemma CondorcetWinnerSurvivesRound(rule: EliminationRule, q: Profile, c: CandidateId)
    requires rule != Hare && Valid(q) && CondorcetWinner(q, c) && |q.active| >= 2
    ensures var toRemove := Eliminate(rule, ScoreVector(q, Borda), q.active);
            toRemove != [] && c !in toRemove && CondorcetWinner(Removed(q, Members(toRemove)), c)
  {
    CondorcetWinnerDominates(q, c);
    var y := AnotherActive(q, c);
    var same := GroupSurvivesRound(rule, q, {c}, y);
    var x: CandidateId;
    if rule == Nanson {
      SomeoneBelowAverage(q, c);
      x :| x in q.active && MeetsCriterion(rule, q, x);
    } else {
      x := LowestMeetsCriterion(rule, q);
    }
    EliminatedIffCriterion(rule, q, x);
    RemovedKeepsCondorcet(q, Members(Eliminate(rule, ScoreVector(q, Borda), q.active)), c);
  }

  /** What a round that removes somebody leads to, when it does not stop before. */
  lemma RunAfterRemoval(rule: EliminationRule, q: Profile)
    requires rule != Hare && Valid(q)
    requires Eliminate(rule, ScoreVector(q, Borda), q.active) != []
    ensures var next := Removed(q, Members(Eliminate(rule, ScoreVector(q, Borda), q.active)));
            && Valid(next) && |next.active| < |q.active|
            && Run(rule, q) == if |next.active| == 1 then Returned(UniqueWinner(next.active[0])) else Run(rule, next)
  {
    var toRemove := Eliminate(rule, ScoreVector(q, Borda), q.active);
    EliminatedIffCriterion(rule, q, toRemove[0]);
    RemovedValid(q, Members(toRemove));
    WithoutShorter(q.active, Members(toRemove));
  }

  /**
   * Nanson and inverse Borda elect the Condorcet winner. The one exception is a profile with a
   * single candidate, where both return no winner at all.
   */
  lemma {:induction false} CondorcetWinnerElectedIffOpposed(rule: EliminationRule, q: Profile, c: CandidateId)
    requires rule != Hare && Valid(q) && CondorcetWinner(q, c)
    ensures Run(rule, q) == Returned(if |q.active| >= 2 then UniqueWinner(c) else MultipleWinners([]))
    decreases |q.active|
  {
    if |q.active| == 1 {
      SingleCandidateUndecided(rule, q);
    } else {
      CondorcetWinnerSurvivesRound(rule, q, c);
      RunAfterRemoval(rule, q);
      var next := Removed(q, Members(Eliminate(rule, ScoreVector(q, Borda), q.active)));
      if |next.active| != 1 {
        CondorcetWinnerElectedIffOpposed(rule, next, c);
      }
    }
  }

  lemma SingleCandidateUndecided(rule: EliminationRule, q: Profile)
    requires rule != Hare && Valid(q) && |q.active| == 1
    ensures Run(rule, q) == Returned(MultipleWinners([]))
  {
    var c := q.active[0];
    var scores := ScoreVector(q, Borda);
    assert Sum(q.active, ScoreOf(q.votes, Borda)) == Score(q.votes, Borda, c) by {
      assert q.active[1..] == [];
    }
    var toRemove := Eliminate(rule, scores, q.active);
    EliminatedIffCriterion(rule, q, c);
    if rule == Nanson {
      if toRemove != [] {
        EliminatedIffCriterion(rule, q, toRemove[0]);
      }
    } else {
      var next := Removed(q, Members(toRemove));
      assert q.active == [c];
      NoMembers(next.active);
      RemovedValid(q, Members(toRemove));
      assert ScoreVector(next, Borda) == [];
      assert PlayRound(rule, next) == Done(Returned(MultipleWinners([])));
    }
  }

  /** Any unique winner is one of the candidates the run started with. */
  lemma {:induction false} WinnerWasActive(rule: EliminationRule, q: Profile, c: CandidateId)
    requires Valid(q) && Run(rule, q) == Returned(UniqueWinner(c))
    ensures c in q.active
    decreases |q.active|
  {
    match PlayRound(rule, q)
    case Continue(next) =>
      RoundShrinks(rule, q);
      WinnerWasActive(rule, next, c);
    case Done(_) =>
      var scores := ScoreVector(q, ScoringRule(rule));
      if ShouldStop(rule, scores, |q.votes|) {
        AtScoreMembers(scores, q.active, Highest(scores), c);
      } else {
        var gone := Members(Eliminate(rule, scores, q.active));
        assert Without(q.active, gone)[0] in Without(q.active, gone);
      }
  }

  /** Nanson and inverse Borda never elect a Condorcet loser: everyone else dominates. */
  lemma CondorcetLoserNeverElected(rule: EliminationRule, q: Profile, c: CandidateId)
    requires rule != Hare && Valid(q) && |q.active| >= 2 && CondorcetLoser(q, c)
    ensures Run(rule, q) != Returned(UniqueWinner(c))
  {
    var d := Members(q.active) - {c};
    var y := AnotherActive(q, c);
    assert y in d;
    assert forall x, z :: x in d && z in q.active && z !in d ==> z == c;
    if Run(rule, q) == Returned(UniqueWinner(c)) {
      WinnerInDominatingGroup(rule, q, d, c);
    }
  }

  // ----- Hare

  /** A candidate with a majority of first places wins Hare. */
  lemma MajorityWinsHare(q: Profile, c: CandidateId)
    requires Valid(q) && Majority(q, c)
    ensures Run(Hare, q) == Returned(UniqueWinner(c))
  {
    MajorityWinsPlurality(q, c);
    var scores, k := ScoreVector(q, PLURALITY), Pos(q.active, c);
    assert scores[k] * 2 > |q.votes|;
  }

  /** Two or more candidates remain and all have equally many first places. */
  ghost predicate AllTied(q: Profile) {
    |q.active| >= 2
    && forall x, y :: x in q.active && y in q.active ==> Score(q.votes, PLURALITY, x) == Score(q.votes, PLURALITY, y)
  }

  lemma FirstPlacesTotal(q: Profile)
    requires Valid(q) && q.active != []
    ensures Sum(q.active, ScoreOf(q.votes, PLURALITY)) == |q.votes|
  {
    ApprovalTotal(q, 1);
  }

  /** With an exact tie between n candidates, n divides the number of voters. */
  lemma TieDivides(q: Profile)
    requires Valid(q) && AllTied(q)
    ensures |q.votes| % |q.active| == 0
    ensures forall c :: c in q.active ==> Score(q.votes, PLURALITY, c) * |q.active| == |q.votes|
  {
    FirstPlacesTotal(q);
    var s := Score(q.votes, PLURALITY, q.active[0]);
    assert q.active[0] in q.active;
    SumConst(q.active, ScoreOf(q.votes, PLURALITY), s);
    MultipleHasNoRemainder(s, |q.active|);
  }

  lemma MultipleHasNoRemainder(s: int, n: nat)
    requires n > 0
    ensures (s * n) % n == 0
  {
    var r := (s * n) % n;
    var d := s - (s * n) / n;
    assert s * n == n * ((s * n) / n) + r;
    assert n * d == r;
    if d >= 1 {
      MultiplyBound(1, d, n);
    } else if d <= -1 {
      MultiplyBound(d, -1, n);
    }
  }

  lemma SingleCandidateHasMajority(q: Profile)
    requires Valid(q) && |q.active| == 1
    ensures Majority(q, q.active[0])
  {
    FirstPlacesTotal(q);
    assert Sum(q.active[1..], ScoreOf(q.votes, PLURALITY)) == 0;
    assert q.active[0] in q.active;
  }

  /** A Hare round empties the field exactly when all remaining candidates are tied. */
  lemma HareRoundEmptiesIffAllTied(q: Profile)
    requires Valid(q) && q.active != []
    ensures AllTied(q) <==> PlayRound(Hare, q).Continue? && PlayRound(Hare, q).next.active == []
  {
    var scores := ScoreVector(q, PLURALITY);
    var toRemove := Eliminate(Hare, scores, q.active);
    var next := Removed(q, Members(toRemove));
    if AllTied(q) {
      TieDivides(q);
      forall k | 0 <= k < |scores| ensures scores[k] * 2 <= |q.votes| {
        assert q.active[k] in q.active;
        MultiplyBound(2, |q.active|, scores[k]) by { ScoreNonNegative(q.votes, q.active[k]); }
      }
      forall x | x in q.active ensures x in toRemove {
        EliminatedIffCriterion(Hare, q, x);
      }
      assert q.active[0] in toRemove;
      NoMembers(next.active);
    }
    if |q.active| == 1 {
      SingleCandidateHasMajority(q);
      MajorityWinsHare(q, q.active[0]);
    } else if PlayRound(Hare, q).Continue? && next.active == [] {
      forall x, y | x in q.active && y in q.active
        ensures Score(q.votes, PLURALITY, x) == Score(q.votes, PLURALITY, y)
      {
        assert x !in next.active && y !in next.active;
        EliminatedIffCriterion(Hare, q, x);
        EliminatedIffCriterion(Hare, q, y);
      }
    }
  }

  lemma ScoreNonNegative(votes: seq<Ballot>, c: CandidateId)
    ensures Score(votes, PLURALITY, c) >= 0
  {
    var zero: Ballot -> int := (b: Ballot) => 0;
    SumConst(votes, zero, 0);
    SumLe(votes, zero, Points(PLURALITY, c));
  }

  /** Some round of the Hare count meets an exact tie of everyone left. */
  ghost predicate MeetsFullTie(q: Profile)
    requires Valid(q)
    decreases |q.active|
  {
    AllTied(q)
    || (PlayRound(Hare, q).Continue? && (RoundShrinks(Hare, q); MeetsFullTie(PlayRound(Hare, q).next)))
  }

  /**
   * Hare started with candidates either names one of them or panics, and it panics exactly when
   * some round meets an exact tie of everyone left.
   */
  lemma {:induction false} HareNamesOneOrPanics(q: Profile)
    requires Valid(q) && q.active != []
    ensures Run(Hare, q) == Panicked <==> MeetsFullTie(q)
    ensures Run(Hare, q) != Panicked ==> exists c :: c in q.active && Run(Hare, q) == Returned(UniqueWinner(c))
    decreases |q.active|
  {
    HareRoundEmptiesIffAllTied(q);
    var scores := ScoreVector(q, PLURALITY);
    if k :| 0 <= k < |scores| && scores[k] * 2 > |q.votes| {
      assert q.active[k] in q.active;
      MajorityWinsHare(q, q.active[k]);
    } else {
      var toRemove := Eliminate(Hare, scores, q.active);
      assert toRemove != [] by {
        var i :| 0 <= i < |scores| && scores[i] == Lowest(scores);
        AtScoreMembers(scores, q.active, Lowest(scores), q.active[i]);
      }
      var next := Removed(q, Members(toRemove));
      if |next.active| == 1 {
        assert next.active[0] in next.active;
      } else {
        RoundShrinks(Hare, q);
        if next.active == [] {
          assert PlayRound(Hare, next) == Done(Panicked);
        } else {
          HareNamesOneOrPanics(next);
        }
      }
    }
  }

  /** Checkable beforehand: no number of candidates from 2 to n divides the number of voters. */
  ghost predicate NoEvenSplit(voters: nat, n: nat) {
    forall m :: 2 <= m <= n ==> voters % m != 0
  }

  lemma {:induction false} NoEvenSplitNoTie(q: Profile)
    requires Valid(q) && NoEvenSplit(|q.votes|, |q.active|)
    ensures !MeetsFullTie(q)
    decreases |q.active|
  {
    if AllTied(q) {
      TieDivides(q);
    }
    if PlayRound(Hare, q).Continue? {
      RoundShrinks(Hare, q);
      NoEvenSplitNoTie(PlayRound(Hare, q).next);
    }
  }

  /** When the voters cannot split evenly, Hare always names a winner. */
  lemma HareSafeWithoutEvenSplit(q: Profile)
    requires Valid(q) && q.active != [] && NoEvenSplit(|q.votes|, |q.active|)
    ensures exists c :: c in q.active && Run(Hare, q) == Returned(UniqueWinner(c))
  {
    NoEvenSplitNoTie(q);
    HareNamesOneOrPanics(q);
  }

  /** Between two candidates Hare panics exactly on a dead heat. */
  lemma HareTwoCandidates(q: Profile)
    requires Valid(q) && |q.active| == 2
    ensures Run(Hare, q) == Panicked <==> 2 * Score(q.votes, PLURALITY, q.active[0]) == |q.votes|
  {
    var a, b := q.active[0], q.active[1];
    FirstPlacesTotal(q);
    var f := ScoreOf(q.votes, PLURALITY);
    assert Sum(q.active, f) == f(a) + Sum(q.active[1..], f);
    assert Sum(q.active[1..], f) == f(b) + Sum(q.active[1..][1..], f);
    assert Score(q.votes, PLURALITY, a) + Score(q.votes, PLURALITY, b) == |q.votes|;
    HareNamesOneOrPanics(q);
    assert a in q.active && b in q.active;
    assert forall x :: x in q.active ==> x == a || x == b;
    if 2 * Score(q.votes, PLURALITY, a) == |q.votes| {
      assert AllTied(q);
    } else {
      var c := if 2 * Score(q.votes, PLURALITY, a) > |q.votes| then a else b;
      MajorityWinsHare(q, c);
    }
  }

  /** The smallest case: two voters who disagree. */
  lemma HareDeadHeatPanics(a: CandidateId, b: CandidateId)
    requires Less(a, b)
    ensures Valid(Opposed(a, b)) && Run(Hare, Opposed(a, b)) == Panicked
  {
    OpposedIsValid(a, b);
    SumOfTwo([a, b], [b, a], Points(PLURALITY, a));
    HareTwoCandidates(Opposed(a, b));
  }

  // ----- What every run comes to, by the scores alone

  /** Those who leave in a round. */
  ghost function Leaving(rule: EliminationRule, q: Profile): set<CandidateId> {
    set c | c in q.active && MeetsCriterion(rule, q, c)
  }

  /** All remaining scores are equal. */
  ghost predicate Level(rule: EliminationRule, q: Profile) {
    forall x, y :: x in q.active && y in q.active ==>
      Score(q.votes, ScoringRule(rule), x) == Score(q.votes, ScoringRule(rule), y)
  }

  /** Hare stops at once. */
  ghost predicate Decided(rule: EliminationRule, q: Profile) {
    rule == Hare && exists c :: Majority(q, c)
  }

  lemma LeavingIsEliminated(rule: EliminationRule, q: Profile)
    requires Valid(q)
    ensures var toRemove := Eliminate(rule, ScoreVector(q, ScoringRule(rule)), q.active);
            Members(toRemove) == Leaving(rule, q) && (toRemove == [] <==> Leaving(rule, q) == {})
  {
    var toRemove := Eliminate(rule, ScoreVector(q, ScoringRule(rule)), q.active);
    forall c ensures c in toRemove <==> c in Leaving(rule, q) {
      EliminatedIffCriterion(rule, q, c);
    }
    if toRemove != [] {
      assert toRemove[0] in toRemove;
    }
  }

  /** Equal scores are all the average. */
  lemma LevelIsAverage(q: Profile, c: CandidateId)
    requires Level(Nanson, q) && c in q.active
    ensures Score(q.votes, Borda, c) * |q.active| == Sum(q.active, ScoreOf(q.votes, Borda))
  {
    SumConst(q.active, ScoreOf(q.votes, Borda), Score(q.votes, Borda, c));
  }

  /** Not everybody is below the average. */
  lemma SomeoneNotBelow(q: Profile)
    requires Valid(q) && q.active != []
    ensures exists x :: x in q.active && !MeetsCriterion(Nanson, q, x)
  {
    var f := RowSums(q.active, Net(q.votes));
    NetsCancel(q.active, q.votes);
    var c := q.active[0];
    assert c in q.active;
    AverageByNet(q, c);
    if MeetsCriterion(Nanson, q, c) {
      var x := OneBelowOneAbove(q.active, c, f);
      AverageByNet(q, x);
      assert !MeetsCriterion(Nanson, q, x);
    }
  }

  lemma OneBelowOneAbove(s: seq<CandidateId>, c: CandidateId, f: CandidateId -> int) returns (x: CandidateId)
    requires c in s && f(c) < 0 && Sum(s, f) == 0
    ensures x in s && f(x) > 0
  {
    var g: CandidateId -> int := (y: CandidateId) => -f(y);
    SumScale(s, f, g, -1);
    x := OneAboveOneBelow(s, c, g);
  }

  lemma SomeoneBelow(q: Profile)
    requires Valid(q) && !Level(Nanson, q)
    ensures exists x :: x in q.active && MeetsCriterion(Nanson, q, x)
  {
    var f := RowSums(q.active, Net(q.votes));
    NetsCancel(q.active, q.votes);
    if forall x :: x in q.active ==> f(x) == 0 {
      forall x | x in q.active
        ensures Score(q.votes, Borda, x) * |q.active| == Sum(q.active, ScoreOf(q.votes, Borda))
      {
        AverageByNet(q, x);
      }
      SameMultipleSame(q);
    } else {
      var c :| c in q.active && f(c) != 0;
      var x := c;
      if f(c) > 0 {
        x := OneAboveOneBelow(q.active, c, f);
      }
      AverageByNet(q, x);
      assert MeetsCriterion(Nanson, q, x);
    }
  }

  lemma SameMultipleSame(q: Profile)
    requires forall x :: x in q.active ==>
               Score(q.votes, Borda, x) * |q.active| == Sum(q.active, ScoreOf(q.votes, Borda))
    ensures Level(Nanson, q)
  {
    forall x, y | x in q.active && y in q.active ensures Score(q.votes, Borda, x) == Score(q.votes, Borda, y) {
      EqualFactor(Score(q.votes, Borda, x), Score(q.votes, Borda, y), |q.active|);
    }
  }

  lemma EqualFactor(a: int, b: int, n: nat)
    requires n > 0 && a * n == b * n
    ensures a == b
  {
    if a < b {
      MultiplyBound(1, b - a, n);
    } else if b < a {
      MultiplyBound(1, a - b, n);
    }
  }

  /** With unequal scores somebody leaves and somebody stays. */
  lemma SomeLeaveSomeStay(rule: EliminationRule, q: Profile)
    requires Valid(q) && !Level(rule, q)
    ensures exists x :: x in q.active && MeetsCriterion(rule, q, x)
    ensures exists x :: x in q.active && !MeetsCriterion(rule, q, x)
  {
    if rule == Nanson {
      SomeoneBelow(q);
      SomeoneNotBelow(q);
    } else {
      var x := LowestMeetsCriterion(rule, q);
    }
  }

  /** Such a round leaves fewer candidates, but not none. */
  lemma LeavingShrinks(rule: EliminationRule, q: Profile)
    requires Valid(q) && !Level(rule, q)
    ensures Leaving(rule, q) != {} && Valid(Removed(q, Leaving(rule, q)))
    ensures 0 < |Removed(q, Leaving(rule, q)).active| < |q.active|
  {
    SomeLeaveSomeStay(rule, q);
    var x :| x in q.active && MeetsCriterion(rule, q, x);
    var y :| y in q.active && !MeetsCriterion(rule, q, y);
    assert x in Leaving(rule, q) && y !in Leaving(rule, q);
    RemovedValid(q, Leaving(rule, q));
    WithoutShorter(q.active, Leaving(rule, q));
    assert y in Removed(q, Leaving(rule, q)).active;
  }

  /** Round after round those who meet the criterion leave, until `c` is the last or, in Hare, has a majority. */
  ghost predicate LastLeft(rule: EliminationRule, q: Profile, c: CandidateId)
    requires Valid(q)
    decreases |q.active|
  {
    if Decided(rule, q) then Majority(q, c)
    else if Level(rule, q) then false
    else
      LeavingShrinks(rule, q);
      var next := Removed(q, Leaving(rule, q));
      if |next.active| == 1 then next.active[0] == c else LastLeft(rule, next, c)
  }

  /** Round after round they leave, until all remaining scores are equal. */
  ghost predicate EndsLevel(rule: EliminationRule, q: Profile)
    requires Valid(q)
    decreases |q.active|
  {
    if Decided(rule, q) then false
    else if Level(rule, q) then true
    else
      LeavingShrinks(rule, q);
      var next := Removed(q, Leaving(rule, q));
      |next.active| >= 2 && EndsLevel(rule, next)
  }

  function Undecided(rule: EliminationRule): Ending {
    if rule == Hare then Panicked else Returned(MultipleWinners([]))
  }

  lemma DecidedIffStop(rule: EliminationRule, q: Profile)
    requires Valid(q)
    ensures Decided(rule, q) <==> ShouldStop(rule, ScoreVector(q, ScoringRule(rule)), |q.votes|)
  {
    var scores := ScoreVector(q, ScoringRule(rule));
    if rule == Hare {
      if k :| 0 <= k < |scores| && scores[k] * 2 > |q.votes| {
        assert q.active[k] in q.active && Majority(q, q.active[k]);
      }
      if c :| Majority(q, c) {
        assert scores[Pos(q.active, c)] * 2 > |q.votes|;
      }
    }
  }

  lemma LevelRunEnds(rule: EliminationRule, q: Profile)
    requires Valid(q) && Level(rule, q) && !Decided(rule, q)
    ensures Run(rule, q) == Undecided(rule)
  {
    if rule == Hare {
      if |q.active| == 1 {
        SingleCandidateHasMajority(q);
      } else if q.active != [] {
        HareNamesOneOrPanics(q);
      }
    } else {
      BordaLevelRunEnds(rule, q);
    }
  }

  lemma BordaLevelRunEnds(rule: EliminationRule, q: Profile)
    requires Valid(q) && rule != Hare && Level(rule, q)
    ensures Run(rule, q) == Returned(MultipleWinners([]))
  {
    LeavingIsEliminated(rule, q);
    if rule == Nanson {
      forall c | c in q.active ensures c !in Leaving(rule, q) {
        LevelIsAverage(q, c);
      }
      assert Leaving(rule, q) == {};
    } else if q.active != [] {
      assert Leaving(rule, q) == Members(q.active);
      assert q.active[0] in Leaving(rule, q);
      RunAfterRemoval(rule, q);
      var next := Removed(q, Leaving(rule, q));
      NoMembers(next.active);
      EmptyFieldUndecided(rule, next);
    }
  }

  lemma EmptyFieldUndecided(rule: EliminationRule, q: Profile)
    requires Valid(q) && rule != Hare && q.active == []
    ensures Run(rule, q) == Returned(MultipleWinners([]))
  {
    assert ScoreVector(q, Borda) == [];
  }

  lemma UnequalRound(rule: EliminationRule, q: Profile)
    requires Valid(q) && !Level(rule, q) && !Decided(rule, q)
    ensures Valid(Removed(q, Leaving(rule, q)))
    ensures var next := Removed(q, Leaving(rule, q));
            Run(rule, q) == if |next.active| == 1 then Returned(UniqueWinner(next.active[0])) else Run(rule, next)
  {
    LeavingShrinks(rule, q);
    LeavingIsEliminated(rule, q);
    DecidedIffStop(rule, q);
    assert q.active != [];
  }

  /**
   * Of every run of the three rules: it names `c` exactly when `c` is the last one left or, in Hare, comes to a
   * majority, and it ends undecided exactly when some round finds all remaining scores equal.
   */
  lemma {:induction false} OutcomeIff(rule: EliminationRule, q: Profile, c: CandidateId)
    requires Valid(q)
    ensures Run(rule, q) == Returned(UniqueWinner(c)) <==> LastLeft(rule, q, c)
    ensures Run(rule, q) == Undecided(rule) <==> EndsLevel(rule, q)
    decreases |q.active|
  {
    if Decided(rule, q) {
      var w :| Majority(q, w);
      MajorityWinsHare(q, w);
      if c != w {
        FirstPlacesDisjoint(q, w, c);
      }
    } else if Level(rule, q) {
      LevelRunEnds(rule, q);
    } else {
      UnequalRound(rule, q);
      LeavingShrinks(rule, q);
      var next := Removed(q, Leaving(rule, q));
      if |next.active| != 1 {
        OutcomeIff(rule, next, c);
      }
    }
  }

  /** Three voters in a cycle. */
  function Cycle(a: CandidateId, b: CandidateId, c: CandidateId): Profile {
    Profile([[a, b, c], [b, c, a], [c, a, b]], [a, b, c])
  }

  lemma CycleIsValid(a: CandidateId, b: CandidateId, c: CandidateId)
    requires Less(a, b) && Less(b, c)
    ensures a != b && b != c && a != c && Valid(Cycle(a, b, c))
  {
    LessIrreflexive(a);
    LessIrreflexive(b);
    LessTransitive(a, b, c);
    forall v | v in Cycle(a, b, c).votes ensures Ranks(v, [a, b, c]) {
      assert v == [a, b, c] || v == [b, c, a] || v == [c, a, b];
    }
  }

  lemma CycleScore(a: CandidateId, b: CandidateId, c: CandidateId, x: CandidateId)
    requires a != b && b != c && a != c && x in [a, b, c]
    ensures Score(Cycle(a, b, c).votes, Borda, x) == 3
  {
    SumOfThree([a, b, c], [b, c, a], [c, a, b], Points(Borda, x));
  }

  /** The smallest case without a winner: everybody has three points. */
  lemma CycleUndecided(rule: EliminationRule, a: CandidateId, b: CandidateId, c: CandidateId)
    requires rule != Hare && Less(a, b) && Less(b, c)
    ensures Valid(Cycle(a, b, c)) && Run(rule, Cycle(a, b, c)) == Returned(MultipleWinners([]))
  {
    var q := Cycle(a, b, c);
    CycleIsValid(a, b, c);
    forall x | x in q.active ensures Score(q.votes, Borda, x) == 3 {
      CycleScore(a, b, c, x);
    }
    BordaLevelRunEnds(rule, q);
  }

  lemma SumOfThree(x: Ballot, y: Ballot, z: Ballot, f: Ballot -> int)
    ensures Sum([x, y, z], f) == f(x) + f(y) + f(z)
  {
    SumOfTwo(y, z, f);
    assert [x, y, z][1..] == [y, z];
  }

  /** There is no third outcome. */
  lemma {:induction false} WinnerOrLevel(rule: EliminationRule, q: Profile)
    requires Valid(q)
    ensures EndsLevel(rule, q) || exists c :: c in q.active && LastLeft(rule, q, c)
    decreases |q.active|
  {
    if !Decided(rule, q) && !Level(rule, q) {
      LeavingShrinks(rule, q);
      var next := Removed(q, Leaving(rule, q));
      if |next.active| == 1 {
        assert next.active[0] in next.active && LastLeft(rule, q, next.active[0]);
      } else {
        WinnerOrLevel(rule, next);
        if !EndsLevel(rule, next) {
          var c :| c in next.active && LastLeft(rule, next, c);
          assert c in q.active && LastLeft(rule, q, c);
        }
      }
    } else if Decided(rule, q) {
      var w :| Majority(q, w);
      assert LastLeft(rule, q, w);
    }
  }

  // ----- Every even split can be hit

  /** A ballot with candidate number j first. */
  function FirstChoice(active: seq<CandidateId>, j: nat): Ballot
    requires j < |active|
  {
    [active[j]] + Without(active, {active[j]})
  }

  /** One voter for each of the first m candidates. */
  function Block(active: seq<CandidateId>, m: nat): (r: seq<Ballot>)
    requires m <= |active|
    ensures |r| == m && forall j :: 0 <= j < m ==> r[j] == FirstChoice(active, j)
  {
    seq(m, j requires 0 <= j < m => FirstChoice(active, j))
  }

  /** The voters split evenly between the first m candidates. */
  function EvenSplit(active: seq<CandidateId>, m: nat, q: nat): Profile
    requires m <= |active|
  {
    Profile(Repeat(Block(active, m), q), active)
  }

  lemma FirstChoiceRanks(active: seq<CandidateId>, j: nat)
    requires NoDup(active) && j < |active|
    ensures Ranks(FirstChoice(active, j), active)
  {
    WithoutNoDup(active, {active[j]});
    assert active[j] in active;
  }

  lemma EvenSplitIsValid(active: seq<CandidateId>, m: nat, q: nat)
    requires StrictlySorted(active) && 0 < m <= |active| && q > 0
    ensures Valid(EvenSplit(active, m, q)) && |EvenSplit(active, m, q).votes| == q * m
  {
    SortedNoDup(active);
    var f: Ballot -> int := (b: Ballot) => 0;
    SumRepeat(Block(active, m), q, f);
    MultiplyBound(1, q, m);
    forall b | b in EvenSplit(active, m, q).votes ensures Ranks(b, active) {
      var j :| 0 <= j < m && Block(active, m)[j] == b;
      FirstChoiceRanks(active, j);
    }
  }

  lemma FirstPlaceIsHead(b: Ballot, x: CandidateId)
    requires b != []
    ensures Points(PLURALITY, x)(b) == if b[0] == x then 1 else 0
  {
  }

  lemma FirstChoicePoint(active: seq<CandidateId>, i: nat, j: nat)
    requires NoDup(active) && i < |active| && j < |active|
    ensures Points(PLURALITY, active[j])(FirstChoice(active, i)) == if i == j then 1 else 0
  {
  }

  lemma BlockFirstPlaces(active: seq<CandidateId>, m: nat, j: nat)
    requires NoDup(active) && m <= |active| && j < |active|
    ensures Sum(Block(active, m), Points(PLURALITY, active[j])) == if j < m then 1 else 0
  {
    var block, f := Block(active, m), Points(PLURALITY, active[j]);
    forall i | 0 <= i < m ensures f(block[i]) == if i == j then 1 else 0 {
      FirstChoicePoint(active, i, j);
    }
    if j < m {
      SumOneHit(block, j, f);
    } else {
      SumConst(block, f, 0);
    }
  }

  lemma EvenSplitScores(active: seq<CandidateId>, m: nat, q: nat, j: nat)
    requires NoDup(active) && m <= |active| && j < |active|
    ensures Score(EvenSplit(active, m, q).votes, PLURALITY, active[j]) == if j < m then q else 0
  {
    BlockFirstPlaces(active, m, j);
    SumRepeat(Block(active, m), q, Points(PLURALITY, active[j]));
  }

  /** Removing candidates nobody has in first place changes no first place. */
  lemma RemovedKeepsFirstPlacesExactly(p: Profile, gone: set<CandidateId>, x: CandidateId)
    requires forall b :: b in p.votes ==> b != [] && b[0] !in gone
    ensures Score(Removed(p, gone).votes, PLURALITY, x) == Score(p.votes, PLURALITY, x)
  {
    var f := Points(PLURALITY, x);
    forall b | b in p.votes ensures f(Without(b, gone)) == f(b) {
      FirstPlaceIsHead(b, x);
      FirstPlaceIsHead(Without(b, gone), x);
    }
    SumOverRemoved(p.votes, gone, f, f);
  }

  /** The candidates of an even split: the leaders share all first places, the others have none. */
  lemma EvenSplitLosers(active: seq<CandidateId>, m: nat, q: nat)
    requires StrictlySorted(active) && 2 <= m < |active| && q > 0
    ensures var p := EvenSplit(active, m, q);
            && Valid(p) && !ShouldStop(Hare, ScoreVector(p, PLURALITY), |p.votes|)
            && forall j :: 0 <= j < |active| ==>
                 (active[j] in Eliminate(Hare, ScoreVector(p, PLURALITY), active) <==> j >= m)
  {
    var p := EvenSplit(active, m, q);
    EvenSplitIsValid(active, m, q);
    SortedNoDup(active);
    MultiplyBound(2, m, q);
    forall j: nat | j < |active| ensures ScoreVector(p, PLURALITY)[j] == if j < m then q else 0 {
      EvenSplitScores(active, m, q, j);
    }
    forall j: nat | j < |active| ensures active[j] in Eliminate(Hare, ScoreVector(p, PLURALITY), active) <==> j >= m {
      EliminatedIffCriterion(Hare, p, active[j]);
      assert active[j] in active && active[m] in active;
      if j >= m {
        forall x | x in active ensures Score(p.votes, PLURALITY, active[j]) <= Score(p.votes, PLURALITY, x) {
          EvenSplitScores(active, m, q, Pos(active, x));
        }
      }
    }
  }

  lemma EvenSplitPanics(active: seq<CandidateId>, m: nat, q: nat)
    requires StrictlySorted(active) && 2 <= m <= |active| && q > 0
    ensures Valid(EvenSplit(active, m, q)) && Run(Hare, EvenSplit(active, m, q)) == Panicked
  {
    var p := EvenSplit(active, m, q);
    EvenSplitIsValid(active, m, q);
    SortedNoDup(active);
    if m == |active| {
      forall x | x in active ensures Score(p.votes, PLURALITY, x) == q {
        EvenSplitScores(active, m, q, Pos(active, x));
      }
      assert AllTied(p);
    } else {
      EvenSplitNextTied(active, m, q);
    }
    HareNamesOneOrPanics(p);
  }

  lemma SplitHeadsStay(active: seq<CandidateId>, m: nat, q: nat, gone: set<CandidateId>)
    requires m <= |active| && forall j :: 0 <= j < m ==> active[j] !in gone
    ensures forall b :: b in EvenSplit(active, m, q).votes ==> b != [] && b[0] !in gone
  {
  }

  /** Once the others are gone, the leaders are all tied. */
  lemma LeadersTied(active: seq<CandidateId>, m: nat, q: nat, gone: set<CandidateId>)
    requires NoDup(active) && 2 <= m <= |active|
    requires forall j :: 0 <= j < |active| ==> (active[j] in gone <==> j >= m)
    ensures AllTied(Removed(EvenSplit(active, m, q), gone))
  {
    var p := EvenSplit(active, m, q);
    var next := Removed(p, gone);
    assert active[0] in next.active && active[1] in next.active;
    TwoMembers(next.active, active[0], active[1]);
    SplitHeadsStay(active, m, q, gone);
    forall x | x in next.active ensures Score(next.votes, PLURALITY, x) == q {
      EvenSplitScores(active, m, q, Pos(active, x));
      RemovedKeepsFirstPlacesExactly(p, gone, x);
    }
  }

  /** After a round only the leaders are left, all tied. */
  lemma EvenSplitNextTied(active: seq<CandidateId>, m: nat, q: nat)
    requires StrictlySorted(active) && 2 <= m < |active| && q > 0
    ensures Valid(EvenSplit(active, m, q)) && MeetsFullTie(EvenSplit(active, m, q))
  {
    var p := EvenSplit(active, m, q);
    SortedNoDup(active);
    EvenSplitLosers(active, m, q);
    var toRemove := Eliminate(Hare, ScoreVector(p, PLURALITY), active);
    LeadersTied(active, m, q, Members(toRemove));
    assert active[m] in toRemove;
    assert PlayRound(Hare, p) == Continue(Removed(p, Members(toRemove)));
    RoundShrinks(Hare, p);
  }

  lemma TwoMembers(s: seq<CandidateId>, a: CandidateId, b: CandidateId)
    requires a in s && b in s && a != b
    ensures |s| >= 2
  {
  }

  function SomeCandidates(n: nat): (r: seq<CandidateId>)
    ensures |r| == n && StrictlySorted(r)
  {
    seq(n, i requires 0 <= i < n => CandidateId(i, ""))
  }

  ghost predicate PanicPossible(voters: nat, n: nat) {
    exists p :: Valid(p) && |p.votes| == voters && |p.active| == n && Run(Hare, p) == Panicked
  }

  /** Hare can panic on an election of a given size exactly when some number from 2 to n divides the voters. */
  lemma HarePanicPossibleIff(voters: nat, n: nat)
    requires voters >= 1 && n >= 1
    ensures PanicPossible(voters, n) <==> !NoEvenSplit(voters, n)
  {
    if m: nat :| 2 <= m <= n && voters % m == 0 {
      var q := voters / m;
      assert voters == m * q + voters % m == q * m;
      var active := SomeCandidates(n);
      EvenSplitIsValid(active, m, q);
      EvenSplitPanics(active, m, q);
      assert |EvenSplit(active, m, q).votes| == voters && |EvenSplit(active, m, q).active| == n;
    }
    if NoEvenSplit(voters, n) {
      forall p | Valid(p) && |p.votes| == voters && |p.active| == n ensures Run(Hare, p) != Panicked {
        HareSafeWithoutEvenSplit(p);
      }
    }
  }

  // ----- Hare and Condorcet losers

  /** All others, at least two, are tied strictly below `c`. */
  ghost predicate AloneAhead(q: Profile, c: CandidateId) {
    && |q.active| >= 3 && c in q.active
    && (forall x :: x in q.active && x != c ==> Score(q.votes, PLURALITY, x) < Score(q.votes, PLURALITY, c))
    && forall x, y :: x in q.active && y in q.active && x != c && y != c ==>
         Score(q.votes, PLURALITY, x) == Score(q.votes, PLURALITY, y)
  }

  /** Some round of the Hare count finds `c` alone ahead of a tie. */
  ghost predicate EndsAlone(q: Profile, c: CandidateId)
    requires Valid(q)
    decreases |q.active|
  {
    AloneAhead(q, c)
    || (PlayRound(Hare, q).Continue? && (RoundShrinks(Hare, q); EndsAlone(PlayRound(Hare, q).next, c)))
  }

  lemma {:induction false} EndsAloneActive(q: Profile, c: CandidateId)
    requires Valid(q) && EndsAlone(q, c)
    ensures c in q.active && |q.active| >= 3
    decreases |q.active|
  {
    if !AloneAhead(q, c) {
      RoundShrinks(Hare, q);
      EndsAloneActive(PlayRound(Hare, q).next, c);
    }
  }

  lemma LoserHasNoMajority(q: Profile, c: CandidateId)
    requires Valid(q) && CondorcetLoser(q, c) && |q.active| >= 2
    ensures !Majority(q, c)
  {
    if Majority(q, c) {
      MajorityIsCondorcet(q, c);
      var y := AnotherActive(q, c);
    }
  }

  /** A round ends with `c` as the only one left exactly when `c` is alone ahead. */
  lemma LeftAloneIff(q: Profile, c: CandidateId)
    requires Valid(q) && CondorcetLoser(q, c) && |q.active| >= 2
    ensures Without(q.active, Members(Eliminate(Hare, ScoreVector(q, PLURALITY), q.active))) == [c]
       <==> AloneAhead(q, c)
  {
    var toRemove := Eliminate(Hare, ScoreVector(q, PLURALITY), q.active);
    var left := Without(q.active, Members(toRemove));
    forall x | x in q.active
      ensures x in toRemove <==>
                forall y :: y in q.active ==> Score(q.votes, PLURALITY, x) <= Score(q.votes, PLURALITY, y)
    {
      EliminatedIffCriterion(Hare, q, x);
    }
    if left == [c] {
      forall x | x in q.active && x != c ensures x in toRemove {
        assert x !in left;
      }
      assert c in left;
      if |q.active| == 2 {
        TwoLeft(q, c);
      }
    }
    if AloneAhead(q, c) {
      var y := AnotherActive(q, c);
      assert c !in toRemove;
      assert forall x :: x in left <==> x == c;
      SortedNoDup(q.active);
      WithoutNoDup(q.active, Members(toRemove));
      OnlyMember(left, c);
    }
  }

  lemma OnlyMember(s: seq<CandidateId>, c: CandidateId)
    requires NoDup(s) && forall x :: x in s <==> x == c
    ensures s == [c]
  {
    SameElementsSameMultiset(s, [c]);
    assert |multiset(s)| == |s| && |multiset([c])| == 1;
    assert s[0] in s;
  }

  /** Between two candidates, being ahead is a majority, which a loser cannot have. */
  lemma TwoLeft(q: Profile, c: CandidateId)
    requires Valid(q) && CondorcetLoser(q, c) && |q.active| == 2
    ensures exists y :: y in q.active && y != c && Score(q.votes, PLURALITY, c) <= Score(q.votes, PLURALITY, y)
  {
    var y := AnotherActive(q, c);
    FirstPlacesTotal(q);
    SortedNoDup(q.active);
    SumOfTwo(q.active[0], q.active[1], ScoreOf(q.votes, PLURALITY));
    assert q.active == [q.active[0], q.active[1]];
    LoserHasNoMajority(q, c);
  }

  /** Hare elects a Condorcet loser exactly when some round finds it alone ahead of a tie of all others. */
  lemma {:induction false} HareElectsLoserIff(q: Profile, c: CandidateId)
    requires Valid(q) && CondorcetLoser(q, c) && |q.active| >= 2
    ensures Run(Hare, q) == Returned(UniqueWinner(c)) <==> EndsAlone(q, c)
    decreases |q.active|
  {
    LoserHasNoMajority(q, c);
    LeftAloneIff(q, c);
    var scores := ScoreVector(q, PLURALITY);
    if k :| 0 <= k < |scores| && scores[k] * 2 > |q.votes| {
      assert q.active[k] in q.active;
      MajorityWinsHare(q, q.active[k]);
      LeaderIsNotBehind(q, q.active[k], c);
    } else {
      HareAfterRemoval(q);
      var toRemove := Eliminate(Hare, scores, q.active);
      var next := Removed(q, Members(toRemove));
      if |next.active| == 1 {
        assert next.active == [next.active[0]];
      } else if |next.active| >= 2 && c in next.active {
        RemovedKeepsCondorcet(q, Members(toRemove), c);
        HareElectsLoserIff(next, c);
      } else {
        LaterWinnersOnly(next, c);
      }
    }
  }

  /** A Hare round without a majority removes somebody and names the last one left, or goes on. */
  lemma HareAfterRemoval(q: Profile)
    requires Valid(q) && q.active != [] && !ShouldStop(Hare, ScoreVector(q, PLURALITY), |q.votes|)
    ensures var next := Removed(q, Members(Eliminate(Hare, ScoreVector(q, PLURALITY), q.active)));
            && Valid(next) && |next.active| < |q.active|
            && PlayRound(Hare, q)
                 == (if |next.active| == 1 then Done(Returned(UniqueWinner(next.active[0]))) else Continue(next))
            && Run(Hare, q) == (if |next.active| == 1 then Returned(UniqueWinner(next.active[0])) else Run(Hare, next))
  {
    var x := LowestMeetsCriterion(Hare, q);
    EliminatedIffCriterion(Hare, q, x);
    var toRemove := Eliminate(Hare, ScoreVector(q, PLURALITY), q.active);
    RemovedValid(q, Members(toRemove));
    WithoutShorter(q.active, Members(toRemove));
  }

  lemma LaterWinnersOnly(next: Profile, c: CandidateId)
    requires Valid(next) && c !in next.active
    ensures Run(Hare, next) != Returned(UniqueWinner(c)) && !EndsAlone(next, c)
  {
    if Run(Hare, next) == Returned(UniqueWinner(c)) {
      WinnerWasActive(Hare, next, c);
    }
    if EndsAlone(next, c) {
      EndsAloneActive(next, c);
    }
  }

  /** Nobody is strictly ahead of a majority. */
  lemma LeaderIsNotBehind(q: Profile, w: CandidateId, c: CandidateId)
    requires Valid(q) && Majority(q, w) && c in q.active && c != w
    ensures Score(q.votes, PLURALITY, c) < Score(q.votes, PLURALITY, w)
  {
    FirstPlacesDisjoint(q, w, c);
  }

  /** With three candidates this can be read off the first count. */
  lemma HareElectsLoserOfThreeIff(q: Profile, c: CandidateId)
    requires Valid(q) && CondorcetLoser(q, c) && |q.active| == 3
    ensures Run(Hare, q) == Returned(UniqueWinner(c)) <==> AloneAhead(q, c)
  {
    HareElectsLoserIff(q, c);
    if EndsAlone(q, c) && !AloneAhead(q, c) {
      RoundShrinks(Hare, q);
      EndsAloneActive(PlayRound(Hare, q).next, c);
    }
  }

  /** Four voters abc, three bca, three cba. */
  function Spoiled(a: CandidateId, b: CandidateId, c: CandidateId): Profile {
    Profile(Repeat([[a, b, c]], 4) + Repeat([[b, c, a]], 3) + Repeat([[c, b, a]], 3), [a, b, c])
  }

  lemma SpoiledSum(a: CandidateId, b: CandidateId, c: CandidateId, f: Ballot -> int)
    ensures Sum(Spoiled(a, b, c).votes, f) == 4 * f([a, b, c]) + 3 * f([b, c, a]) + 3 * f([c, b, a])
    ensures |Spoiled(a, b, c).votes| == 10
  {
    var x, y, z := Repeat([[a, b, c]], 4), Repeat([[b, c, a]], 3), Repeat([[c, b, a]], 3);
    SumRepeat([[a, b, c]], 4, f);
    SumRepeat([[b, c, a]], 3, f);
    SumRepeat([[c, b, a]], 3, f);
    SumAppend(x + y, z, f);
    SumAppend(x, y, f);
    SumOfOne([a, b, c], f);
    SumOfOne([b, c, a], f);
    SumOfOne([c, b, a], f);
  }

  lemma SumOfOne(x: Ballot, f: Ballot -> int)
    ensures Sum([x], f) == f(x)
  {
  }

  lemma SpoiledIsValid(a: CandidateId, b: CandidateId, c: CandidateId)
    requires Less(a, b) && Less(b, c)
    ensures a != b && b != c && a != c && Valid(Spoiled(a, b, c))
  {
    LessIrreflexive(a);
    LessIrreflexive(b);
    LessTransitive(a, b, c);
    var p := Spoiled(a, b, c);
    var zero: Ballot -> int := (v: Ballot) => 0;
    SpoiledSum(a, b, c, zero);
    forall v | v in p.votes ensures Ranks(v, p.active) {
      assert v == [a, b, c] || v == [b, c, a] || v == [c, b, a];
    }
  }

  lemma SpoiledLoser(a: CandidateId, b: CandidateId, c: CandidateId)
    requires a != b && b != c && a != c
    ensures CondorcetLoser(Spoiled(a, b, c), a)
  {
    SpoiledSum(a, b, c, Prefers(a, b));
    SpoiledSum(a, b, c, Prefers(b, a));
    SpoiledSum(a, b, c, Prefers(a, c));
    SpoiledSum(a, b, c, Prefers(c, a));
  }

  lemma SpoiledAhead(a: CandidateId, b: CandidateId, c: CandidateId)
    requires a != b && b != c && a != c
    ensures AloneAhead(Spoiled(a, b, c), a)
  {
    SpoiledSum(a, b, c, Points(PLURALITY, a));
    SpoiledSum(a, b, c, Points(PLURALITY, b));
    SpoiledSum(a, b, c, Points(PLURALITY, c));
  }

  /** Hare elects the Condorcet loser: both rivals are tied for last and leave together. */
  lemma HareElectsCondorcetLoser(a: CandidateId, b: CandidateId, c: CandidateId)
    requires Less(a, b) && Less(b, c)
    ensures Valid(Spoiled(a, b, c)) && CondorcetLoser(Spoiled(a, b, c), a)
    ensures Run(Hare, Spoiled(a, b, c)) == Returned(UniqueWinner(a))
  {
    SpoiledIsValid(a, b, c);
    SpoiledLoser(a, b, c);
    SpoiledAhead(a, b, c);
    HareElectsLoserOfThreeIff(Spoiled(a, b, c), a);
  }
}
