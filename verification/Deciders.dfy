/** Winner selection: decider/maxscore.rs, decider/minscore.rs and decider/threshold.rs. */
module Deciders {
  import opened Wrappers
  import opened Sums
  import opened Orders
  import opened CandidateIds
  import opened Reductions

  /** The candidates whose score is exactly `v`, in candidate order. */
  function AtScore<T(==)>(scores: seq<T>, cands: seq<CandidateId>, v: T): seq<CandidateId>
    requires |scores| == |cands|
  {
    if scores == [] then []
    else
      var n := |scores| - 1;
      AtScore(scores[..n], cands[..n], v) + if scores[n] == v then [cands[n]] else []
  }

  lemma {:induction false} AtScoreMembers<T>(scores: seq<T>, cands: seq<CandidateId>, v: T, c: CandidateId)
    requires |scores| == |cands|
    ensures c in AtScore(scores, cands, v) <==> exists i :: 0 <= i < |scores| && scores[i] == v && cands[i] == c
  {
    if scores != [] {
      var n := |scores| - 1;
      AtScoreMembers(scores[..n], cands[..n], v, c);
    }
  }

  lemma {:induction false} AtScoreNone<T>(scores: seq<T>, cands: seq<CandidateId>, v: T)
    requires |scores| == |cands|
    requires forall i :: 0 <= i < |scores| ==> scores[i] != v
    ensures AtScore(scores, cands, v) == []
  {
    if scores != [] {
      var n := |scores| - 1;
      AtScoreNone(scores[..n], cands[..n], v);
    }
  }

  lemma {:induction false} AtScoreSingle<T>(scores: seq<T>, cands: seq<CandidateId>, k: nat)
    requires |scores| == |cands| && k < |scores|
    requires forall i :: 0 <= i < |scores| && i != k ==> scores[i] != scores[k]
    ensures AtScore(scores, cands, scores[k]) == [cands[k]]
  {
    var n := |scores| - 1;
    if k == n {
      AtScoreNone(scores[..n], cands[..n], scores[k]);
    } else {
      AtScoreSingle(scores[..n], cands[..n], k);
    }
  }

  ghost function PlacesOf<T>(scores: seq<T>, v: T): set<nat> {
    set k: nat | k < |scores| && scores[k] == v
  }

  /** They stand in candidate order, each as often as it is listed. */
  lemma {:induction false} AtScoreInOrder<T>(scores: seq<T>, cands: seq<CandidateId>, v: T) returns (at: seq<nat>)
    requires |scores| == |cands|
    ensures ListsInOrder(at, PlacesOf(scores, v)) && |at| == |AtScore(scores, cands, v)|
    ensures forall j :: 0 <= j < |at| ==> at[j] < |cands| && AtScore(scores, cands, v)[j] == cands[at[j]]
  {
    at := [];
    if scores != [] {
      var n := |scores| - 1;
      at := AtScoreInOrder(scores[..n], cands[..n], v);
      var before := PlacesOf(scores[..n], v);
      assert PlacesOf(scores, v) == before + if scores[n] == v then {n} else {};
      if scores[n] == v {
        OneMoreListed(at, before, n);
        at := at + [n];
      }
    }
  }

  function Highest(s: seq<int>): (m: int)
    requires s != []
    ensures m in s && forall x :: x in s ==> x <= m
  {
    var n := |s| - 1;
    if n == 0 then s[0]
    else
      var m := Highest(s[..n]);
      assert s == s[..n] + [s[n]];
      if m < s[n] then s[n] else m
  }

  function Lowest(s: seq<int>): (m: int)
    requires s != []
    ensures m in s && forall x :: x in s ==> m <= x
  {
    var n := |s| - 1;
    if n == 0 then s[0]
    else
      var m := Lowest(s[..n]);
      assert s == s[..n] + [s[n]];
      if m > s[n] then s[n] else m
  }

  function MaxWinners(scores: seq<int>, cands: seq<CandidateId>): seq<CandidateId>
    requires |scores| == |cands|
  {
    if scores == [] then [] else AtScore(scores, cands, Highest(scores))
  }

  function MinWinners(scores: seq<int>, cands: seq<CandidateId>): seq<CandidateId>
    requires |scores| == |cands|
  {
    if scores == [] then [] else AtScore(scores, cands, Lowest(scores))
  }

  lemma MaxWinnersStep(scores: seq<int>, cands: seq<CandidateId>, k: nat)
    requires |scores| == |cands| && k < |scores|
    ensures Highest(scores[..k + 1])
         == if k == 0 || Highest(scores[..k]) < scores[k] then scores[k] else Highest(scores[..k])
    ensures MaxWinners(scores[..k + 1], cands[..k + 1])
         == if k == 0 || Highest(scores[..k]) < scores[k] then [cands[k]]
            else MaxWinners(scores[..k], cands[..k]) + if scores[k] == Highest(scores[..k]) then [cands[k]] else []
  {
    assert scores[..k + 1][..k] == scores[..k] && cands[..k + 1][..k] == cands[..k];
    if k == 0 || Highest(scores[..k]) < scores[k] {
      forall i | 0 <= i < k ensures scores[..k][i] != scores[k] {
        assert scores[..k][i] in scores[..k];
      }
      AtScoreNone(scores[..k], cands[..k], scores[k]);
    }
  }

  lemma MinWinnersStep(scores: seq<int>, cands: seq<CandidateId>, k: nat)
    requires |scores| == |cands| && k < |scores|
    ensures Lowest(scores[..k + 1])
         == if k == 0 || Lowest(scores[..k]) > scores[k] then scores[k] else Lowest(scores[..k])
    ensures MinWinners(scores[..k + 1], cands[..k + 1])
         == if k == 0 || Lowest(scores[..k]) > scores[k] then [cands[k]]
            else MinWinners(scores[..k], cands[..k]) + if scores[k] == Lowest(scores[..k]) then [cands[k]] else []
  {
    assert scores[..k + 1][..k] == scores[..k] && cands[..k + 1][..k] == cands[..k];
    if k == 0 || Lowest(scores[..k]) > scores[k] {
      forall i | 0 <= i < k ensures scores[..k][i] != scores[k] {
        assert scores[..k][i] in scores[..k];
      }
      AtScoreNone(scores[..k], cands[..k], scores[k]);
    }
  }

  /** `MaxScoreDecider::decide`. */
  method DecideMax(scores: seq<int>, cands: seq<CandidateId>) returns (winners: seq<CandidateId>)
    requires |scores| == |cands|
    ensures winners == MaxWinners(scores, cands)
  {
    var curMax: Option<int> := None;
    winners := [];
    for k := 0 to |scores|
      invariant curMax.None? <==> k == 0
      invariant winners == MaxWinners(scores[..k], cands[..k])
      invariant k > 0 ==> curMax.value == Highest(scores[..k])
    {
      MaxWinnersStep(scores, cands, k);
      var score, cand := scores[k], cands[k];
      if curMax.None? {
        curMax, winners := Some(score), [cand];
      } else if curMax.value < score {
        curMax, winners := Some(score), [cand];
      } else if Some(score) == curMax {
        winners := winners + [cand];
      }
    }
    assert scores[..|scores|] == scores && cands[..|cands|] == cands;
  }

  /** `MinScoreDecider::decide`. */
  method DecideMin(scores: seq<int>, cands: seq<CandidateId>) returns (winners: seq<CandidateId>)
    requires |scores| == |cands|
    ensures winners == MinWinners(scores, cands)
  {
    var curMin: Option<int> := None;
    winners := [];
    for k := 0 to |scores|
      invariant curMin.None? <==> k == 0
      invariant winners == MinWinners(scores[..k], cands[..k])
      invariant k > 0 ==> curMin.value == Lowest(scores[..k])
    {
      MinWinnersStep(scores, cands, k);
      var score, cand := scores[k], cands[k];
      if curMin.None? {
        curMin, winners := Some(score), [cand];
      } else if curMin.value > score {
        curMin, winners := Some(score), [cand];
      } else if Some(score) == curMin {
        winners := winners + [cand];
      }
    }
    assert scores[..|scores|] == scores && cands[..|cands|] == cands;
  }

  /** The places nobody outscores. */
  ghost function TopPlaces(scores: seq<int>): set<nat> {
    set k: nat | k < |scores| && forall i :: 0 <= i < |scores| ==> scores[i] <= scores[k]
  }

  lemma HighestIsTop(scores: seq<int>)
    requires scores != []
    ensures TopPlaces(scores) == PlacesOf(scores, Highest(scores))
  {
    var top := Highest(scores);
    var i :| 0 <= i < |scores| && scores[i] == top;
    forall j | 0 <= j < |scores| ensures scores[j] <= top {
      assert scores[j] in scores;
    }
    forall k: nat ensures k in TopPlaces(scores) <==> k in PlacesOf(scores, top) {
      if k < |scores| {
        assert k in TopPlaces(scores) ==> scores[i] <= scores[k];
      }
    }
  }

  /** The winners are exactly the candidates nobody outscores, in candidate order. */
  lemma MaxWinnersInOrder(scores: seq<int>, cands: seq<CandidateId>) returns (at: seq<nat>)
    requires |scores| == |cands|
    ensures ListsInOrder(at, TopPlaces(scores)) && |at| == |MaxWinners(scores, cands)|
    ensures forall j :: 0 <= j < |at| ==> at[j] < |cands| && MaxWinners(scores, cands)[j] == cands[at[j]]
  {
    at := [];
    if scores != [] {
      var top := Highest(scores);
      at := AtScoreInOrder(scores, cands, top);
      HighestIsTop(scores);
    }
  }

  /** A candidate with a strictly highest score is the only winner. */
  lemma StrictMaxWins(scores: seq<int>, cands: seq<CandidateId>, k: nat)
    requires |scores| == |cands| && k < |scores|
    requires forall i :: 0 <= i < |scores| && i != k ==> scores[i] < scores[k]
    ensures MaxWinners(scores, cands) == [cands[k]]
  {
    assert Highest(scores) == scores[k] by {
      var i :| 0 <= i < |scores| && scores[i] == Highest(scores);
      assert scores[k] in scores;
    }
    AtScoreSingle(scores, cands, k);
  }

  lemma {:induction false} AtScoreNegated(a: seq<int>, b: seq<int>, cands: seq<CandidateId>, v: int)
    requires |a| == |b| == |cands|
    requires forall i :: 0 <= i < |a| ==> b[i] == -a[i]
    ensures AtScore(a, cands, v) == AtScore(b, cands, -v)
  {
    if a != [] {
      var n := |a| - 1;
      AtScoreNegated(a[..n], b[..n], cands[..n], v);
    }
  }

  /** Maximising scores and minimising their negatives elect the same list, in the same order. */
  lemma MaxIsMinOfNegated(a: seq<int>, b: seq<int>, cands: seq<CandidateId>)
    requires |a| == |b| == |cands|
    requires forall i :: 0 <= i < |a| ==> b[i] == -a[i]
    ensures MaxWinners(a, cands) == MinWinners(b, cands)
  {
    if a != [] {
      assert Lowest(b) == -Highest(a) by {
        var i :| 0 <= i < |a| && a[i] == Highest(a);
        var j :| 0 <= j < |b| && b[j] == Lowest(b);
        assert b[i] in b && a[j] in a;
      }
      AtScoreNegated(a, b, cands, Highest(a));
    }
  }

  // ----- Threshold decider

  /** The lexicographically greatest row. */
  function LexHighest(m: Matrix): (best: seq<int>)
    requires m != []
    ensures best in m && forall r :: r in m ==> !LexLess(best, r)
  {
    var n := |m| - 1;
    if n == 0 then LexIrreflexive(m[0]); m[0]
    else
      var best := LexHighest(m[..n]);
      assert m == m[..n] + [m[n]];
      LexIrreflexive(m[n]);
      if LexLess(best, m[n]) then
        assert forall r :: r in m[..n] ==> !LexLess(m[n], r) by {
          forall r | r in m[..n] ensures !LexLess(m[n], r) {
            if LexLess(m[n], r) { LexTransitive(best, m[n], r); }
          }
        }
        m[n]
      else best
  }

  function LexWinners(m: Matrix, cands: seq<CandidateId>): seq<CandidateId>
    requires |m| == |cands|
  {
    if m == [] then [] else AtScore(m, cands, LexHighest(m))
  }

  lemma LexWinnersStep(m: Matrix, cands: seq<CandidateId>, k: nat)
    requires |m| == |cands| && k < |m|
    ensures LexHighest(m[..k + 1]) == if k == 0 || LexLess(LexHighest(m[..k]), m[k]) then m[k] else LexHighest(m[..k])
    ensures LexWinners(m[..k + 1], cands[..k + 1])
         == if k == 0 || LexLess(LexHighest(m[..k]), m[k]) then [cands[k]]
            else LexWinners(m[..k], cands[..k]) + if m[k] == LexHighest(m[..k]) then [cands[k]] else []
    ensures k > 0 && m[k] == LexHighest(m[..k]) ==> !LexLess(LexHighest(m[..k]), m[k])
  {
    assert m[..k + 1][..k] == m[..k] && cands[..k + 1][..k] == cands[..k];
    LexIrreflexive(m[k]);
    if k == 0 || LexLess(LexHighest(m[..k]), m[k]) {
      forall i | 0 <= i < k ensures m[..k][i] != m[k] {
        assert m[..k][i] in m[..k];
      }
      AtScoreNone(m[..k], cands[..k], m[k]);
    }
  }

  /** The greatest of the first `k` rows, and the candidates who have it. */
  ghost predicate BestSoFar(
    best: Option<seq<int>>, winners: seq<CandidateId>, m: Matrix, cands: seq<CandidateId>, k: nat)
    requires k <= |m| == |cands|
  {
    && best == (if k == 0 then None else Some(LexHighest(m[..k])))
    && winners == LexWinners(m[..k], cands[..k])
  }

  lemma BestSoFarNext(best: Option<seq<int>>, winners: seq<CandidateId>, m: Matrix, cands: seq<CandidateId>, k: nat)
    requires k < |m| == |cands| && BestSoFar(best, winners, m, cands, k)
    ensures if best.None? || LexLess(best.value, m[k])
            then BestSoFar(Some(m[k]), [cands[k]], m, cands, k + 1) && (best.None? ==> winners == [])
            else BestSoFar(best, winners + if m[k] == best.value then [cands[k]] else [], m, cands, k + 1)
  {
    LexWinnersStep(m, cands, k);
  }

  /** `ThresholdDecider::decide`: exactly the candidates with a lexicographically greatest row. */
  method DecideThreshold(m: Matrix, cands: seq<CandidateId>) returns (winners: seq<CandidateId>)
    requires |m| == |cands|
    ensures winners == LexWinners(m, cands)
  {
    var best: Option<seq<int>> := None;
    winners := [];
    for k := 0 to |m|
      invariant BestSoFar(best, winners, m, cands, k)
    {
      BestSoFarNext(best, winners, m, cands, k);
      match best {
        case None =>
          best, winners := Some(m[k]), winners + [cands[k]];
        case Some(bestVec) =>
          if LexLess(bestVec, m[k]) {
            best, winners := Some(m[k]), [];
            winners := winners + [cands[k]];
          } else if m[k] == bestVec {
            winners := winners + [cands[k]];
          }
      }
    }
    assert m[..|m|] == m && cands[..|cands|] == cands;
  }
}

/** Simpson and Minmax scores, majorities, and how the rules agree with one another. */
module RuleAgreement {
  import opened Wrappers
  import opened Sums
  import opened Orders
  import opened CandidateIds
  import opened Profiles
  import opened Reductions
  import opened Matrices
  import opened Scorers
  import opened ScoreAlgebra
  import opened Deciders

  /** Cells that fit the machine type; a Rust vector never holds more than `isize::MAX` voters. */
  ghost predicate FitsMachine(m: Matrix) {
    Shape(m, |m|, |m|) && forall i, j :: 0 <= i < |m| && 0 <= j < |m| ==> 0 <= m[i][j] < TWO_63
  }

  lemma PairwiseFitsMachine(p: Profile)
    requires Valid(p) && |p.votes| < TWO_63
    ensures FitsMachine(Pairwise(p))
  {
    PairwiseUpholdsInvariants(p);
  }

  /** `PairwiseMatrix::margin`. */
  function Margin(m: Matrix, i: nat, j: nat): (d: int)
    requires FitsMachine(m) && i < |m| && j < |m|
    ensures d == m[i][j] - m[j][i]
  {
    SafeSub(m[i][j], m[j][i], true).value
  }

  /** The margins of candidate i over each other candidate. */
  function Wins(m: Matrix, i: nat): (r: seq<int>)
    requires FitsMachine(m) && i < |m|
    ensures |r| == |m| - 1
    ensures forall k :: 0 <= k < |r| ==> r[k] == Margin(m, i, Skip(i, k))
  {
    seq(|m| - 1, k requires 0 <= k < |m| - 1 => Margin(m, i, Skip(i, k)))
  }

  /** The margins of each other candidate over candidate i. */
  function Losses(m: Matrix, i: nat): (r: seq<int>)
    requires FitsMachine(m) && i < |m|
    ensures |r| == |m| - 1
    ensures forall k :: 0 <= k < |r| ==> r[k] == Margin(m, Skip(i, k), i)
  {
    seq(|m| - 1, k requires 0 <= k < |m| - 1 => Margin(m, Skip(i, k), i))
  }

  /** The k-th element of `(0..n).filter(|j| j != i)`. */
  function Skip(i: nat, k: nat): nat { if k < i then k else k + 1 }

  /** The smallest margin of candidate i; `None` is the failing unwrap. */
  function Simpson(m: Matrix, i: nat): (r: Option<int>)
    requires FitsMachine(m) && i < |m|
    ensures r.Some? <==> |m| >= 2
    ensures r.Some? ==> forall j :: 0 <= j < |m| && j != i ==> r.value <= m[i][j] - m[j][i]
    ensures r.Some? ==> exists j :: 0 <= j < |m| && j != i && r.value == m[i][j] - m[j][i]
  {
    var margins := Wins(m, i);
    if margins == [] then None
    else
      var low := Lowest(margins);
      assert forall j :: 0 <= j < |m| && j != i ==> low <= m[i][j] - m[j][i] by {
        forall j | 0 <= j < |m| && j != i ensures low <= m[i][j] - m[j][i] {
          var k := if j < i then j else j - 1;
          assert margins[k] in margins && Skip(i, k) == j;
        }
      }
      assert exists j :: 0 <= j < |m| && j != i && low == m[i][j] - m[j][i] by {
        var k :| 0 <= k < |margins| && margins[k] == low;
        var j := Skip(i, k);
        assert 0 <= j < |m| && j != i && low == m[i][j] - m[j][i];
      }
      Some(low)
  }

  /** The largest margin against candidate i; `None` is the failing unwrap. */
  function Minmax(m: Matrix, i: nat): (r: Option<int>)
    requires FitsMachine(m) && i < |m|
    ensures r.Some? <==> |m| >= 2
  {
    var margins := Losses(m, i);
    if margins == [] then None else Some(Highest(margins))
  }

  /** Both scorers unwrap successfully exactly when there is an opponent, and differ only in sign. */
  lemma SimpsonIsMinusMinmax(m: Matrix, i: nat)
    requires FitsMachine(m) && i < |m|
    ensures Simpson(m, i).Some? <==> Minmax(m, i).Some?
    ensures Simpson(m, i).Some? ==> Simpson(m, i).value == -Minmax(m, i).value
  {
    var a, b := Wins(m, i), Losses(m, i);
    assert forall k :: 0 <= k < |a| ==> a[k] == -b[k];
    if |m| >= 2 {
      var x :| 0 <= x < |a| && a[x] == Lowest(a);
      var y :| 0 <= y < |b| && b[y] == Highest(b);
      assert a[y] in a && b[x] in b;
    }
  }

  function SimpsonVector(m: Matrix): (s: seq<int>)
    requires FitsMachine(m) && |m| >= 2
    ensures |s| == |m| && forall i :: 0 <= i < |m| ==> s[i] == Simpson(m, i).value
  {
    seq(|m|, i requires 0 <= i < |m| => Simpson(m, i).value)
  }

  function MinmaxVector(m: Matrix): (s: seq<int>)
    requires FitsMachine(m) && |m| >= 2
    ensures |s| == |m| && forall i :: 0 <= i < |m| ==> s[i] == Minmax(m, i).value
  {
    seq(|m|, i requires 0 <= i < |m| => Minmax(m, i).value)
  }

  /** Simpson with the max decider and Minmax with the min decider elect the same list. */
  lemma SimpsonAgreesWithMinmax(m: Matrix, cands: seq<CandidateId>)
    requires FitsMachine(m) && |m| == |cands| >= 2
    ensures MaxWinners(SimpsonVector(m), cands) == MinWinners(MinmaxVector(m), cands)
  {
    forall i: nat | i < |m| ensures MinmaxVector(m)[i] == -SimpsonVector(m)[i] {
      SimpsonIsMinusMinmax(m, i);
    }
    MaxIsMinOfNegated(SimpsonVector(m), MinmaxVector(m), cands);
  }

  ghost predicate RowBeatsAll(m: Matrix, i: nat)
    requires Shape(m, |m|, |m|) && i < |m|
  {
    forall j :: 0 <= j < |m| && j != i ==> m[i][j] > m[j][i]
  }

  lemma RowBeatsAllIffCondorcet(p: Profile, i: nat)
    requires Valid(p) && i < |p.active|
    ensures RowBeatsAll(Pairwise(p), i) <==> CondorcetWinner(p, p.active[i])
  {
    var m, c := Pairwise(p), p.active[i];
    SortedNoDup(p.active);
    if RowBeatsAll(m, i) {
      forall y | y in p.active && y != c ensures Support(p.votes, c, y) > Support(p.votes, y, c) {
        assert m[i][Pos(p.active, y)] > m[Pos(p.active, y)][i];
      }
    }
    if CondorcetWinner(p, c) {
      forall j | 0 <= j < |m| && j != i ensures m[i][j] > m[j][i] {
        assert p.active[j] in p.active && p.active[j] != c;
      }
    }
  }

  /** A Simpson score is positive exactly for the Condorcet winner. */
  lemma SimpsonPositiveIffCondorcet(p: Profile, i: nat)
    requires Valid(p) && |p.active| >= 2 && i < |p.active|
    requires FitsMachine(Pairwise(p))
    ensures Simpson(Pairwise(p), i).value > 0 <==> CondorcetWinner(p, p.active[i])
  {
    RowBeatsAllIffCondorcet(p, i);
    assert Simpson(Pairwise(p), i).value > 0 <==> RowBeatsAll(Pairwise(p), i);
  }

  lemma SimpsonNegativeBelowCondorcet(p: Profile, i: nat, c: CandidateId)
    requires Valid(p) && |p.active| >= 2 && i < |p.active|
    requires FitsMachine(Pairwise(p))
    requires CondorcetWinner(p, c) && p.active[i] != c
    ensures Simpson(Pairwise(p), i).value < 0
  {
  }

  /** A Condorcet winner is the only Simpson winner and the only Minmax winner. */
  lemma CondorcetWinsSimpsonAndMinmax(p: Profile, c: CandidateId)
    requires Valid(p) && |p.votes| < TWO_63 && |p.active| >= 2 && CondorcetWinner(p, c)
    ensures FitsMachine(Pairwise(p))
    ensures MaxWinners(SimpsonVector(Pairwise(p)), p.active) == [c]
    ensures MinWinners(MinmaxVector(Pairwise(p)), p.active) == [c]
  {
    PairwiseFitsMachine(p);
    SortedNoDup(p.active);
    var k, s := Pos(p.active, c), SimpsonVector(Pairwise(p));
    SimpsonPositiveIffCondorcet(p, k);
    forall i: nat | i < |p.active| && i != k ensures s[i] < s[k] {
      SimpsonNegativeBelowCondorcet(p, i, c);
    }
    StrictMaxWins(s, p.active, k);
    SimpsonAgreesWithMinmax(Pairwise(p), p.active);
  }

  // ----- Majorities of first places

  ghost predicate Majority(p: Profile, c: CandidateId) {
    c in p.active && 2 * Score(p.votes, PLURALITY, c) > |p.votes|
  }

  /** First places are head-to-head wins over everyone. */
  lemma PluralityBelowSupport(p: Profile, c: CandidateId, y: CandidateId)
    requires Valid(p) && c in p.active && y != c
    ensures Score(p.votes, PLURALITY, c) <= Support(p.votes, c, y)
  {
    forall b | b in p.votes ensures Points(PLURALITY, c)(b) <= Prefers(c, y)(b) {
      assert Ranks(b, p.active) && c in b;
    }
    SumLe(p.votes, Points(PLURALITY, c), Prefers(c, y));
  }

  lemma MajorityIsCondorcet(p: Profile, c: CandidateId)
    requires Valid(p) && Majority(p, c)
    ensures CondorcetWinner(p, c)
  {
    forall y | y in p.active && y != c ensures Support(p.votes, c, y) > Support(p.votes, y, c) {
      PluralityBelowSupport(p, c, y);
      SupportSplits(p, c, y);
    }
  }

  lemma MajorityWinsPlurality(p: Profile, c: CandidateId)
    requires Valid(p) && Majority(p, c)
    ensures MaxWinners(ScoreVector(p, PLURALITY), p.active) == [c]
  {
    SortedNoDup(p.active);
    var k, s := Pos(p.active, c), ScoreVector(p, PLURALITY);
    forall i | 0 <= i < |s| && i != k ensures s[i] < s[k] {
      var y := p.active[i];
      assert y in p.active;
      FirstPlacesDisjoint(p, c, y);
    }
    StrictMaxWins(s, p.active, k);
  }

  lemma FirstPlacesDisjoint(p: Profile, c: CandidateId, y: CandidateId)
    requires Valid(p) && c in p.active && c != y
    ensures Score(p.votes, PLURALITY, c) + Score(p.votes, PLURALITY, y) <= |p.votes|
  {
    var both: Ballot -> int := (b: Ballot) => Points(PLURALITY, c)(b) + Points(PLURALITY, y)(b);
    var one: Ballot -> int := (b: Ballot) => 1;
    SumAdd(p.votes, Points(PLURALITY, c), Points(PLURALITY, y), both);
    forall b | b in p.votes ensures both(b) <= one(b) {
      assert Ranks(b, p.active) && c in b;
    }
    SumLe(p.votes, both, one);
    SumConst(p.votes, one, 1);
  }

  /** First place is kept when others leave. */
  lemma {:induction false} RemovedKeepsFirstPlaces(votes: seq<Ballot>, gone: set<CandidateId>, c: CandidateId)
    requires c !in gone
    ensures Score(WithoutAll(votes, gone), PLURALITY, c) >= Score(votes, PLURALITY, c)
  {
    if votes != [] {
      RemovedKeepsFirstPlaces(votes[1..], gone, c);
      assert WithoutAll(votes, gone)[1..] == WithoutAll(votes[1..], gone);
      var b := votes[0];
      if Pos(b, c) == 0 && b != [] {
        assert Without(b, gone)[0] == c;
      }
    }
  }

  /** A strict majority survives the removal of any other candidates. */
  lemma MajoritySurvivesRemoval(p: Profile, gone: set<CandidateId>, c: CandidateId)
    requires Majority(p, c) && c !in gone
    ensures Majority(Removed(p, gone), c)
  {
    RemovedKeepsFirstPlaces(p.votes, gone, c);
  }

  /** A majority candidate is the unique winner of Plurality, Condorcet, Simpson and Minmax. */
  lemma MajorityWinsEverywhere(p: Profile, c: CandidateId, rows: BoolMatrix)
    requires Valid(p) && |p.votes| < TWO_63 && |p.active| >= 2 && Majority(p, c)
    requires IsCondorcetMatrix(p, rows)
    ensures FitsMachine(Pairwise(p))
    ensures MaxWinners(ScoreVector(p, PLURALITY), p.active) == [c]
    ensures Decide(rows, p.active) == [c]
    ensures MaxWinners(SimpsonVector(Pairwise(p)), p.active) == [c]
    ensures MinWinners(MinmaxVector(Pairwise(p)), p.active) == [c]
  {
    MajorityIsCondorcet(p, c);
    MajorityWinsPlurality(p, c);
    CondorcetWinsSimpsonAndMinmax(p, c);
    DeciderFindsCondorcetWinner(p, rows, c);
  }

  // ----- Threshold winners

  /** Place k is the first that the voters give `x` and `y` unequally often, and they give it to `x` more often. */
  ghost predicate AheadAt(p: Profile, x: CandidateId, y: CandidateId, k: nat) {
    && k < |p.active| - 1
    && (forall j :: 0 <= j < k ==> Score(p.votes, Place(j), x) == Score(p.votes, Place(j), y))
    && Score(p.votes, Place(k), x) > Score(p.votes, Place(k), y)
  }

  lemma RowsCompare(p: Profile, a: nat, b: nat)
    requires a < |p.active| && b < |p.active|
    ensures LexLess(PlaceTable(p)[a], PlaceTable(p)[b]) <==> exists k: nat :: AheadAt(p, p.active[b], p.active[a], k)
  {
    var s, t := PlaceTable(p)[a], PlaceTable(p)[b];
    LexLessIff(s, t);
    forall k: nat ensures SmallerAt(s, t, k) <==> AheadAt(p, p.active[b], p.active[a], k) {
      if AheadAt(p, p.active[b], p.active[a], k) {
        assert s[..k] == t[..k];
      }
      if SmallerAt(s, t, k) {
        assert forall j :: 0 <= j < k ==> s[..k][j] == s[j] && t[..k][j] == t[j];
      }
    }
  }

  /** The threshold rule elects exactly the candidates nobody is ahead of at the first place that tells them apart. */
  lemma ThresholdWinnerIff(p: Profile, c: CandidateId)
    requires Valid(p) && c in p.active
    ensures c in LexWinners(PlaceTable(p), p.active)
       <==> forall x, k: nat :: x in p.active ==> !AheadAt(p, x, c, k)
  {
    var m := PlaceTable(p);
    var best, i := LexHighest(m), Pos(p.active, c);
    SortedNoDup(p.active);
    AtScoreMembers(m, p.active, best, c);
    var h :| 0 <= h < |m| && m[h] == best;
    if m[i] == best {
      forall x, k: nat | x in p.active ensures !AheadAt(p, x, c, k) {
        RowsCompare(p, i, Pos(p.active, x));
        assert m[Pos(p.active, x)] in m;
      }
    } else {
      assert m[i] in m;
      LexTotal(m[i], best);
      RowsCompare(p, i, h);
      assert p.active[h] in p.active;
    }
  }

  /** Every loser is behind every winner at the first place that tells them apart; two winners are never told apart. */
  lemma ThresholdWinnersAhead(p: Profile, w: CandidateId, y: CandidateId)
    requires Valid(p) && y in p.active && w in LexWinners(PlaceTable(p), p.active)
    ensures if y in LexWinners(PlaceTable(p), p.active)
            then forall j :: 0 <= j < |p.active| - 1 ==> Score(p.votes, Place(j), y) == Score(p.votes, Place(j), w)
            else exists k: nat :: AheadAt(p, w, y, k)
  {
    var m := PlaceTable(p);
    var best, i := LexHighest(m), Pos(p.active, y);
    SortedNoDup(p.active);
    AtScoreMembers(m, p.active, best, y);
    AtScoreMembers(m, p.active, best, w);
    var h: nat :| h < |m| && m[h] == best && p.active[h] == w;
    if m[i] == best {
      assert forall j :: 0 <= j < |p.active| - 1 ==> m[i][j] == m[h][j];
    } else {
      assert m[i] in m;
      LexTotal(m[i], best);
      RowsCompare(p, i, h);
    }
  }

  // ----- Threshold and plurality

  /** A lexicographically greatest row has a greatest first entry. */
  lemma HighestRowLeads(m: Matrix, i: nat, k: nat)
    requires i < |m| && k < |m| && m[i] == LexHighest(m) && m[i] != [] && m[k] != []
    ensures m[k][0] <= m[i][0]
  {
    assert m[k] in m;
  }

  lemma FirstColumn(p: Profile, k: nat)
    requires |p.active| >= 2 && k < |p.active|
    ensures PlaceTable(p)[k] != [] && PlaceTable(p)[k][0] == ScoreVector(p, PLURALITY)[k]
  {
    PluralityIsFirstColumn(p.votes, p.active[k]);
  }

  lemma HighestAt(s: seq<int>, i: nat)
    requires i < |s| && forall k :: 0 <= k < |s| ==> s[k] <= s[i]
    ensures Highest(s) == s[i]
  {
    assert s[i] in s;
  }

  /** Every threshold winner also wins plurality. */
  lemma ThresholdWinnersWinPlurality(p: Profile, c: CandidateId)
    requires Valid(p) && |p.active| >= 2
    requires c in LexWinners(PlaceTable(p), p.active)
    ensures c in MaxWinners(ScoreVector(p, PLURALITY), p.active)
  {
    var m, s := PlaceTable(p), ScoreVector(p, PLURALITY);
    AtScoreMembers(m, p.active, LexHighest(m), c);
    var i: nat :| i < |m| && m[i] == LexHighest(m) && p.active[i] == c;
    forall k: nat | k < |s| ensures s[k] <= s[i] {
      FirstColumn(p, k);
      FirstColumn(p, i);
      HighestRowLeads(m, i, k);
    }
    HighestAt(s, i);
    AtScoreMembers(s, p.active, Highest(s), c);
  }
}
