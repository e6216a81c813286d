/**
 * Positional scorers of voting-core: scorer/borda.rs, plurality.rs, approval.rs,
 * anti_plurality.rs and threshold.rs.
 */
module Scorers {
  import opened Wrappers
  import opened Sums
  import opened CandidateIds
  import opened Profiles
  import opened Reductions

  /** The scorers that look only at where a ballot places a candidate. */
  datatype Rule =
    | Borda
    | Approval(q: nat)
    | AntiPlurality
    | Place(j: nat)

  const PLURALITY := Approval(1)

  /** The points a ballot gives to `x`. */
  function Points(rule: Rule, x: CandidateId): Ballot -> int {
    (b: Ballot) =>
      match rule
      case Borda => |b| - 1 - Pos(b, x)
      case Approval(q) => if Pos(b, x) < q then 1 else 0
      case AntiPlurality => if Pos(b, x) == |b| - 1 then 1 else 0
      case Place(j) => if Pos(b, x) == j then 1 else 0
  }

  /** The score of `x`: its points summed over all voters. */
  function Score(votes: seq<Ballot>, rule: Rule, x: CandidateId): int {
    Sum(votes, Points(rule, x))
  }

  function ScoreVector(p: Profile, rule: Rule): (s: seq<int>)
    ensures |s| == |p.active|
    ensures forall k :: 0 <= k < |s| ==> s[k] == Score(p.votes, rule, p.active[k])
  {
    seq(|p.active|, k requires 0 <= k < |p.active| => Score(p.votes, rule, p.active[k]))
  }

  function VoterVector(b: Ballot, active: seq<CandidateId>, rule: Rule): (s: seq<int>)
    ensures |s| == |active|
    ensures forall k :: 0 <= k < |s| ==> s[k] == Points(rule, active[k])(b)
  {
    seq(|active|, k requires 0 <= k < |active| => Points(rule, active[k])(b))
  }

  // ----- The per-voter loops

  /** The index of a ballot entry, which always exists on a valid profile. */
  method IndexOfEntry(b: Ballot, active: seq<CandidateId>, j: nat) returns (at: nat)
    requires StrictlySorted(active) && Ranks(b, active) && j < |b|
    ensures at < |active| && active[at] == b[j]
    ensures forall k :: 0 <= k < |active| ==> (Pos(b, active[k]) == j <==> k == at)
  {
    var found := IndexOf(active, b[j]);
    assert b[j] in b;
    at := found.value;
    PosAt(b, j);
    SortedNoDup(active);
    forall k | 0 <= k < |active| ensures Pos(b, active[k]) == j <==> k == at {
      assert active[k] in active;
    }
  }

  method BordaBallot(b: Ballot, active: seq<CandidateId>) returns (s: seq<int>)
    requires StrictlySorted(active) && Ranks(b, active)
    ensures s == VoterVector(b, active, Borda)
  {
    RanksSameLength(b, active);
    var n := |active|;
    var tmp := new int[n](_ => 0);
    for j := 0 to n
      invariant forall k :: 0 <= k < n ==> tmp[k] == if Pos(b, active[k]) < j then n - 1 - Pos(b, active[k]) else 0
    {
      var at := IndexOfEntry(b, active, j);
      tmp[at] := n - j - 1;
    }
    assert forall k :: 0 <= k < n ==> active[k] in active;
    s := tmp[..];
  }

  method ApprovalBallot(b: Ballot, active: seq<CandidateId>, q: nat) returns (s: seq<int>)
    requires StrictlySorted(active) && Ranks(b, active) && q <= |active|
    ensures s == VoterVector(b, active, Approval(q))
  {
    RanksSameLength(b, active);
    var tmp := new int[|active|](_ => 0);
    for x := 0 to q
      invariant forall k :: 0 <= k < |active| ==> tmp[k] == if Pos(b, active[k]) < x then 1 else 0
    {
      var at := IndexOfEntry(b, active, x);
      tmp[at] := 1;
    }
    s := tmp[..];
  }

  method PluralityBallot(b: Ballot, active: seq<CandidateId>) returns (s: seq<int>)
    requires StrictlySorted(active) && Ranks(b, active) && active != []
    ensures s == VoterVector(b, active, PLURALITY)
  {
    RanksSameLength(b, active);
    var tmp := new int[|active|](_ => 0);
    var at := IndexOfEntry(b, active, 0);
    tmp[at] := 1;
    s := tmp[..];
  }

  method AntiPluralityBallot(b: Ballot, active: seq<CandidateId>) returns (s: seq<int>)
    requires StrictlySorted(active) && Ranks(b, active) && active != []
    ensures s == VoterVector(b, active, AntiPlurality)
  {
    RanksSameLength(b, active);
    var tmp := new int[|active|](_ => 0);
    var at := IndexOfEntry(b, active, |b| - 1);
    tmp[at] := 1;
    s := tmp[..];
  }

  /** Row k counts the places of candidate k; the last place has no column. */
  function VoterPlaces(b: Ballot, active: seq<CandidateId>): (m: Matrix)
    requires active != []
    ensures Shape(m, |active|, |active| - 1)
    ensures forall k, j :: 0 <= k < |active| && 0 <= j < |active| - 1 ==> m[k][j] == Points(Place(j), active[k])(b)
  {
    seq(|active|, k requires 0 <= k < |active| =>
      seq(|active| - 1, j requires 0 <= j < |active| - 1 => Points(Place(j), active[k])(b)))
  }

  method ThresholdBallot(b: Ballot, active: seq<CandidateId>) returns (tmp: Matrix)
    requires StrictlySorted(active) && Ranks(b, active) && active != []
    ensures tmp == VoterPlaces(b, active)
  {
    RanksSameLength(b, active);
    var n := |active|;
    tmp := ZeroMatrix(n, n - 1);
    for j := 0 to n - 1
      invariant Shape(tmp, n, n - 1)
      invariant forall k, i :: 0 <= k < n && 0 <= i < n - 1 ==>
        tmp[k][i] == if i < j && Pos(b, active[k]) == i then 1 else 0
    {
      var at := IndexOfEntry(b, active, j);
      tmp := tmp[at := tmp[at][j := tmp[at][j] + 1]];
    }
    assert forall k :: 0 <= k < n ==> tmp[k] == VoterPlaces(b, active)[k];
  }

  // ----- Map and reduce

  function VoterVectors(p: Profile, rule: Rule): (vs: seq<seq<int>>)
    ensures |vs| == |p.votes|
    ensures forall v :: 0 <= v < |vs| ==> vs[v] == VoterVector(p.votes[v], p.active, rule)
  {
    seq(|p.votes|, v requires 0 <= v < |p.votes| => VoterVector(p.votes[v], p.active, rule))
  }

  lemma {:induction false} AtOfVoters(votes: seq<Ballot>, active: seq<CandidateId>, rule: Rule, k: nat)
    requires k < |active|
    ensures Sum(VoterVectors(Profile(votes, active), rule), At(k)) == Score(votes, rule, active[k])
  {
    if votes != [] {
      AtOfVoters(votes[1..], active, rule, k);
      assert VoterVectors(Profile(votes, active), rule)[1..] == VoterVectors(Profile(votes[1..], active), rule);
    }
  }

  /** However the voters are grouped, the reduced vector holds each candidate's score. */
  lemma ReducedIsScoreVector(p: Profile, rule: Rule, plan: Plan)
    requires Covers(plan, |p.votes|)
    ensures ReduceVectors(plan, VoterVectors(p, rule), |p.active|) == ScoreVector(p, rule)
  {
    AnyPlanSameVector(plan, VoterVectors(p, rule), |p.active|);
    forall k: nat | k < |p.active|
      ensures ReduceVectors(plan, VoterVectors(p, rule), |p.active|)[k] == ScoreVector(p, rule)[k]
    {
      AtOfVoters(p.votes, p.active, rule, k);
    }
  }

  /**
   * `compute_score` of the Borda, approval and anti-plurality scorers; plurality has its own
   * closure. `None` is the approval scorer's "not enough candidates" error.
   */
  method ComputeScore(p: Profile, rule: Rule, plan: Plan) returns (r: Option<seq<int>>)
    requires Valid(p) && Covers(plan, |p.votes|)
    requires rule.Borda? || rule.Approval? || (rule.AntiPlurality? && p.active != [])
    ensures r == if rule.Approval? && |p.active| < rule.q then None else Some(ScoreVector(p, rule))
  {
    if rule.Approval? && |p.active| < rule.q {
      return None;
    }
    var leaves: seq<seq<int>> := [];
    for v := 0 to |p.votes|
      invariant |leaves| == v
      invariant forall u :: 0 <= u < v ==> leaves[u] == VoterVector(p.votes[u], p.active, rule)
    {
      var b := p.votes[v];
      assert b in p.votes;
      var tmp: seq<int>;
      match rule {
        case Borda => tmp := BordaBallot(b, p.active);
        case Approval(q) => tmp := ApprovalBallot(b, p.active, q);
        case AntiPlurality => tmp := AntiPluralityBallot(b, p.active);
      }
      leaves := leaves + [tmp];
    }
    assert leaves == VoterVectors(p, rule);
    ReducedIsScoreVector(p, rule, plan);
    return Some(ReduceVectors(plan, leaves, |p.active|));
  }

  /** `PluralityScorer::compute_score`; the first entry must exist. */
  method PluralityScore(p: Profile, plan: Plan) returns (s: seq<int>)
    requires Valid(p) && Covers(plan, |p.votes|) && p.active != []
    ensures s == ScoreVector(p, PLURALITY)
  {
    var leaves: seq<seq<int>> := [];
    for v := 0 to |p.votes|
      invariant |leaves| == v
      invariant forall u :: 0 <= u < v ==> leaves[u] == VoterVector(p.votes[u], p.active, PLURALITY)
    {
      assert p.votes[v] in p.votes;
      var tmp := PluralityBallot(p.votes[v], p.active);
      leaves := leaves + [tmp];
    }
    assert leaves == VoterVectors(p, PLURALITY);
    ReducedIsScoreVector(p, PLURALITY, plan);
    return ReduceVectors(plan, leaves, |p.active|);
  }

  /** The threshold score: how often each candidate takes each place but the last. */
  function PlaceTable(p: Profile): (m: Matrix)
    requires p.active != []
    ensures Shape(m, |p.active|, |p.active| - 1)
    ensures forall k, j :: 0 <= k < |p.active| && 0 <= j < |p.active| - 1 ==>
              m[k][j] == Score(p.votes, Place(j), p.active[k])
  {
    seq(|p.active|, k requires 0 <= k < |p.active| =>
      seq(|p.active| - 1, j requires 0 <= j < |p.active| - 1 => Score(p.votes, Place(j), p.active[k])))
  }

  function VotersPlaces(p: Profile): (ms: seq<Matrix>)
    requires p.active != []
    ensures |ms| == |p.votes|
    ensures forall v :: 0 <= v < |ms| ==> ms[v] == VoterPlaces(p.votes[v], p.active)
  {
    seq(|p.votes|, v requires 0 <= v < |p.votes| => VoterPlaces(p.votes[v], p.active))
  }

  lemma {:induction false} CellOfPlaces(votes: seq<Ballot>, active: seq<CandidateId>, k: nat, j: nat)
    requires k < |active| && j < |active| - 1
    ensures Sum(VotersPlaces(Profile(votes, active)), Cell(k, j)) == Score(votes, Place(j), active[k])
  {
    if votes != [] {
      CellOfPlaces(votes[1..], active, k, j);
      assert VotersPlaces(Profile(votes, active))[1..] == VotersPlaces(Profile(votes[1..], active));
    }
  }

  /** `ThresholdScorer::compute_score`. */
  method ThresholdScore(p: Profile, plan: Plan) returns (m: Matrix)
    requires Valid(p) && Covers(plan, |p.votes|) && p.active != []
    ensures m == PlaceTable(p)
  {
    var n := |p.active|;
    var leaves: seq<Matrix> := [];
    for v := 0 to |p.votes|
      invariant |leaves| == v
      invariant forall u :: 0 <= u < v ==> leaves[u] == VoterPlaces(p.votes[u], p.active)
    {
      assert p.votes[v] in p.votes;
      var tmp := ThresholdBallot(p.votes[v], p.active);
      leaves := leaves + [tmp];
    }
    assert leaves == VotersPlaces(p);
    AnyPlanSameMatrix(plan, leaves, n, n - 1);
    m := ReduceMatrices(plan, leaves, n, n - 1);
    forall k: nat | k < n ensures m[k] == PlaceTable(p)[k] {
      forall j: nat | j < n - 1 ensures m[k][j] == PlaceTable(p)[k][j] {
        CellOfPlaces(p.votes, p.active, k, j);
      }
    }
  }
}

/** The algebra that ties the scorers to one another and to head-to-head counts. */
module ScoreAlgebra {
  import opened Sums
  import opened CandidateIds
  import opened Profiles
  import opened Reductions
  import opened Scorers

  // ----- One place-count table

  function PlaceScores(votes: seq<Ballot>, x: CandidateId): nat -> int {
    (j: nat) => Score(votes, Place(j), x)
  }

  function WeightedPlaceScores(votes: seq<Ballot>, x: CandidateId, n: nat): nat -> int {
    (j: nat) => (n - 1 - j) * Score(votes, Place(j), x)
  }

  /** The approval score for the first q+1 places. */
  function ApprovalScores(votes: seq<Ballot>, x: CandidateId): nat -> int {
    (q: nat) => Score(votes, Approval(q + 1), x)
  }

  lemma RangeSum(m: nat, f: nat -> int)
    ensures Sum(Range(m + 1), f) == Sum(Range(m), f) + f(m)
  {
    assert Range(m + 1) == Range(m) + [m];
    SumAppend(Range(m), [m], f);
  }

  /** Approval-q is the sum of the first q place columns; plurality is the first column. */
  lemma {:induction false} ApprovalIsPlaceColumns(votes: seq<Ballot>, x: CandidateId, q: nat)
    ensures Score(votes, Approval(q), x) == Sum(Range(q), PlaceScores(votes, x))
  {
    if q == 0 {
      SumConst(votes, Points(Approval(0), x), 0);
    } else {
      ApprovalIsPlaceColumns(votes, x, q - 1);
      RangeSum(q - 1, PlaceScores(votes, x));
      SumAdd(votes, Points(Approval(q - 1), x), Points(Place(q - 1), x), Points(Approval(q), x));
    }
  }

  lemma PluralityIsFirstColumn(votes: seq<Ballot>, x: CandidateId)
    ensures Score(votes, PLURALITY, x) == Score(votes, Place(0), x)
  {
    SumEq(votes, Points(PLURALITY, x), Points(Place(0), x));
  }

  lemma PosInRange(p: Profile, b: Ballot, x: CandidateId)
    requires Valid(p) && b in p.votes && x in p.active
    ensures Pos(b, x) < |b| == |p.active|
  {
    RanksSameLength(b, p.active);
  }

  /** The anti-plurality scorer counts last places: voters minus the whole table row. */
  lemma AntiPluralityIsComplement(p: Profile, x: CandidateId)
    requires Valid(p) && x in p.active
    ensures Score(p.votes, AntiPlurality, x)
         == |p.votes| - Sum(Range(|p.active| - 1), PlaceScores(p.votes, x))
  {
    var n := |p.active|;
    var one: Ballot -> int := (b: Ballot) => 1;
    forall b | b in p.votes
      ensures one(b) == Points(AntiPlurality, x)(b) + Points(Approval(n - 1), x)(b)
    {
      PosInRange(p, b, x);
    }
    SumAdd(p.votes, Points(AntiPlurality, x), Points(Approval(n - 1), x), one);
    SumConst(p.votes, one, 1);
    ApprovalIsPlaceColumns(p.votes, x, n - 1);
  }

  function CappedPoints(x: CandidateId, m: nat): Ballot -> int {
    (b: Ballot) => if Pos(b, x) < m then m - Pos(b, x) else 0
  }

  lemma {:induction false} ApprovalsAddUp(votes: seq<Ballot>, x: CandidateId, m: nat)
    ensures Sum(Range(m), ApprovalScores(votes, x)) == Sum(votes, CappedPoints(x, m))
  {
    if m == 0 {
      SumConst(votes, CappedPoints(x, 0), 0);
    } else {
      ApprovalsAddUp(votes, x, m - 1);
      RangeSum(m - 1, ApprovalScores(votes, x));
      SumAdd(votes, CappedPoints(x, m - 1), Points(Approval(m), x), CappedPoints(x, m));
    }
  }

  /** Borda is approval-1 plus approval-2 ... plus approval-(n-1). */
  lemma BordaIsSumOfApprovals(p: Profile, x: CandidateId)
    requires Valid(p) && x in p.active
    ensures Score(p.votes, Borda, x) == Sum(Range(|p.active| - 1), ApprovalScores(p.votes, x))
  {
    forall b | b in p.votes ensures Points(Borda, x)(b) == CappedPoints(x, |p.active| - 1)(b) {
      PosInRange(p, b, x);
    }
    SumEq(p.votes, Points(Borda, x), CappedPoints(x, |p.active| - 1));
    ApprovalsAddUp(p.votes, x, |p.active| - 1);
  }

  function TruncatedPoints(x: CandidateId, n: nat, m: nat): Ballot -> int {
    (b: Ballot) => if Pos(b, x) < m then n - 1 - Pos(b, x) else 0
  }

  function WeightedPlace(x: CandidateId, w: int, j: nat): Ballot -> int {
    (b: Ballot) => w * Points(Place(j), x)(b)
  }

  lemma {:induction false} WeightedPlacesAddUp(votes: seq<Ballot>, x: CandidateId, n: nat, m: nat)
    ensures Sum(Range(m), WeightedPlaceScores(votes, x, n)) == Sum(votes, TruncatedPoints(x, n, m))
  {
    if m == 0 {
      SumConst(votes, TruncatedPoints(x, n, 0), 0);
    } else {
      var j, w := m - 1, n - m;
      WeightedPlacesAddUp(votes, x, n, j);
      RangeSum(j, WeightedPlaceScores(votes, x, n));
      SumScale(votes, Points(Place(j), x), WeightedPlace(x, w, j), w);
      SumAdd(votes, TruncatedPoints(x, n, j), WeightedPlace(x, w, j), TruncatedPoints(x, n, m));
    }
  }

  /** Borda is the place row weighted n-1, n-2, ..., 1. */
  lemma BordaIsWeightedPlaces(p: Profile, x: CandidateId)
    requires Valid(p) && x in p.active
    ensures Score(p.votes, Borda, x)
         == Sum(Range(|p.active| - 1), WeightedPlaceScores(p.votes, x, |p.active|))
  {
    var n := |p.active|;
    forall b | b in p.votes ensures Points(Borda, x)(b) == TruncatedPoints(x, n, n - 1)(b) {
      PosInRange(p, b, x);
    }
    SumEq(p.votes, Points(Borda, x), TruncatedPoints(x, n, n - 1));
    WeightedPlacesAddUp(p.votes, x, n, n - 1);
  }

  // ----- Totals over the candidates

  function ScoreOf(votes: seq<Ballot>, rule: Rule): CandidateId -> int {
    (x: CandidateId) => Score(votes, rule, x)
  }

  function PointsFor(rule: Rule): (CandidateId, Ballot) -> int {
    (x: CandidateId, b: Ballot) => Points(rule, x)(b)
  }

  function PointsOn(rule: Rule, b: Ballot): CandidateId -> int {
    (x: CandidateId) => Points(rule, x)(b)
  }

  /** If every ballot hands out `k` points in all, the candidates share `k` points per voter. */
  lemma TotalFromBallots(p: Profile, rule: Rule, k: int)
    requires Valid(p)
    requires forall b :: b in p.votes ==> Sum(b, PointsOn(rule, b)) == k
    ensures Sum(p.active, ScoreOf(p.votes, rule)) == k * |p.votes|
  {
    var f := PointsFor(rule);
    forall x | x in p.active ensures ScoreOf(p.votes, rule)(x) == RowSums(p.votes, f)(x) {
      SumEq(p.votes, Points(rule, x), Row(f, x));
    }
    SumEq(p.active, ScoreOf(p.votes, rule), RowSums(p.votes, f));
    SumSwap(p.active, p.votes, f);
    forall b | b in p.votes ensures ColSums(p.active, f)(b) == k {
      RanksSameLength(b, p.active);
      SumPermuted(p.active, b, Col(f, b));
      SumEq(b, Col(f, b), PointsOn(rule, b));
    }
    SumConst(p.votes, ColSums(p.active, f), k);
  }

  lemma ApprovalAt(b: Ballot, q: nat, i: nat)
    requires NoDup(b) && i < |b|
    ensures PointsOn(Approval(q), b)(b[i]) == if i < q then 1 else 0
  {
    var y := b[i];
    PosAt(b, i);
    assert PointsOn(Approval(q), b)(y) == Points(Approval(q), y)(b);
  }

  /** A function that is `u` on the first `k` entries and `v` on the rest. */
  lemma StepSum(b: Ballot, k: nat, f: CandidateId -> int, u: int, v: int)
    requires k <= |b|
    requires forall i :: 0 <= i < |b| ==> f(b[i]) == if i < k then u else v
    ensures Sum(b, f) == u * k + v * (|b| - k)
  {
    assert b == b[..k] + b[k..];
    SumAppend(b[..k], b[k..], f);
    SumConst(b[..k], f, u);
    SumConst(b[k..], f, v);
  }

  lemma ApprovalOnBallot(b: Ballot, q: nat)
    requires NoDup(b) && q <= |b|
    ensures Sum(b, PointsOn(Approval(q), b)) == q
  {
    forall i | 0 <= i < |b| ensures PointsOn(Approval(q), b)(b[i]) == if i < q then 1 else 0 {
      ApprovalAt(b, q, i);
    }
    StepSum(b, q, PointsOn(Approval(q), b), 1, 0);
  }

  /** Each voter approves exactly q candidates, so the approval scores total q per voter. */
  lemma ApprovalTotal(p: Profile, q: nat)
    requires Valid(p) && q <= |p.active|
    ensures Sum(p.active, ScoreOf(p.votes, Approval(q))) == q * |p.votes|
  {
    forall b | b in p.votes ensures Sum(b, PointsOn(Approval(q), b)) == q {
      RanksSameLength(b, p.active);
      ApprovalOnBallot(b, q);
    }
    TotalFromBallots(p, Approval(q), q);
  }

  lemma AntiPluralityTotal(p: Profile)
    requires Valid(p) && p.active != []
    ensures Sum(p.active, ScoreOf(p.votes, AntiPlurality)) == |p.votes|
  {
    forall b | b in p.votes ensures Sum(b, PointsOn(AntiPlurality, b)) == 1 {
      RanksSameLength(b, p.active);
      var n := |b|;
      ApprovalOnBallot(b, n - 1);
      var one: CandidateId -> int := (x: CandidateId) => 1;
      forall x | x in b ensures one(x) == PointsOn(AntiPlurality, b)(x) + PointsOn(Approval(n - 1), b)(x) {
        assert Pos(b, x) < n;
        assert Points(AntiPlurality, x)(b) + Points(Approval(n - 1), x)(b) == 1;
      }
      SumAdd(b, PointsOn(AntiPlurality, b), PointsOn(Approval(n - 1), b), one);
      SumConst(b, one, 1);
    }
    TotalFromBallots(p, AntiPlurality, 1);
  }

  // ----- Borda and head-to-head counts

  function RankedAfter(x: CandidateId, b: Ballot): CandidateId -> int {
    (y: CandidateId) => Prefers(x, y)(b)
  }

  lemma RankedAfterAt(b: Ballot, x: CandidateId, i: nat)
    requires NoDup(b) && i < |b|
    ensures RankedAfter(x, b)(b[i]) == if Pos(b, x) < i then 1 else 0
  {
    var y := b[i];
    PosAt(b, i);
    assert RankedAfter(x, b)(y) == Prefers(x, y)(b);
  }

  /** On one ballot, Borda points count the candidates ranked below. */
  lemma BordaPointsCountRankedAfter(b: Ballot, x: CandidateId)
    requires NoDup(b) && x in b
    ensures Points(Borda, x)(b) == Sum(b, RankedAfter(x, b))
  {
    var k := Pos(b, x) + 1;
    forall i | 0 <= i < |b| ensures RankedAfter(x, b)(b[i]) == if i < k then 0 else 1 {
      RankedAfterAt(b, x, i);
    }
    StepSum(b, k, RankedAfter(x, b), 0, 1);
  }

  /** How many voters rank x before each other candidate: one row of the pairwise matrix. */
  function SupportOver(votes: seq<Ballot>, x: CandidateId): CandidateId -> int {
    (y: CandidateId) => Support(votes, x, y)
  }

  function PrefersOn(x: CandidateId): (CandidateId, Ballot) -> int {
    (y: CandidateId, b: Ballot) => Prefers(x, y)(b)
  }

  /** The Borda score is the row sum of the pairwise matrix. */
  lemma BordaIsPairwiseRowSum(p: Profile, x: CandidateId)
    requires Valid(p) && x in p.active
    ensures Score(p.votes, Borda, x) == Sum(p.active, SupportOver(p.votes, x))
  {
    var f := PrefersOn(x);
    forall y | y in p.active ensures SupportOver(p.votes, x)(y) == RowSums(p.votes, f)(y) {
      SumEq(p.votes, Prefers(x, y), Row(f, y));
    }
    SumEq(p.active, SupportOver(p.votes, x), RowSums(p.votes, f));
    SumSwap(p.active, p.votes, f);
    forall b | b in p.votes ensures ColSums(p.active, f)(b) == Points(Borda, x)(b) {
      RanksSameLength(b, p.active);
      SumPermuted(p.active, b, Col(f, b));
      SumEq(b, Col(f, b), RankedAfter(x, b));
      BordaPointsCountRankedAfter(b, x);
    }
    SumEq(p.votes, ColSums(p.active, f), Points(Borda, x));
  }

  /** A sum whose terms are `k` except for a zero at `x`. */
  lemma SumAllButOne(s: seq<CandidateId>, x: CandidateId, f: CandidateId -> int, k: int)
    requires NoDup(s) && x in s && f(x) == 0
    requires forall y :: y in s && y != x ==> f(y) >= k
    ensures Sum(s, f) >= k * (|s| - 1)
    ensures (forall y :: y in s && y != x ==> f(y) == k) ==> Sum(s, f) == k * (|s| - 1)
  {
    var i := Pos(s, x);
    var rest := s[..i] + s[i + 1..];
    SumPullOut(s, i, f);
    var g: CandidateId -> int := (y: CandidateId) => k;
    SumConst(rest, g, k);
    forall y | y in rest ensures y in s && y != x {
    }
    SumLe(rest, g, f);
    if forall y :: y in s && y != x ==> f(y) == k {
      SumEq(rest, f, g);
    }
  }

  function Supports(votes: seq<Ballot>): (CandidateId, CandidateId) -> int {
    (x: CandidateId, y: CandidateId) => Support(votes, x, y)
  }

  function Contests(votes: seq<Ballot>, x: CandidateId): CandidateId -> int {
    (y: CandidateId) => Support(votes, x, y) + Support(votes, y, x)
  }

  function AllContests(p: Profile): CandidateId -> int {
    (x: CandidateId) => Sum(p.active, Contests(p.votes, x))
  }

  /** All Borda scores together: V * n * (n-1) / 2. */
  lemma BordaTotal(p: Profile)
    requires Valid(p)
    ensures 2 * Sum(p.active, ScoreOf(p.votes, Borda)) == |p.votes| * (|p.active| - 1) * |p.active|
  {
    var n, f := |p.active|, Supports(p.votes);
    SortedNoDup(p.active);
    forall x | x in p.active
      ensures ScoreOf(p.votes, Borda)(x) == RowSums(p.active, f)(x)
      ensures AllContests(p)(x) == RowSums(p.active, f)(x) + ColSums(p.active, f)(x)
      ensures AllContests(p)(x) == |p.votes| * (n - 1)
    {
      BordaIsPairwiseRowSum(p, x);
      SumEq(p.active, SupportOver(p.votes, x), Row(f, x));
      SumAdd(p.active, Row(f, x), Col(f, x), Contests(p.votes, x));
      SupportSelf(p.votes, x);
      forall y | y in p.active && y != x ensures Contests(p.votes, x)(y) == |p.votes| {
        SupportSplits(p, x, y);
      }
      SumAllButOne(p.active, x, Contests(p.votes, x), |p.votes|);
    }
    SumEq(p.active, ScoreOf(p.votes, Borda), RowSums(p.active, f));
    SumAdd(p.active, RowSums(p.active, f), ColSums(p.active, f), AllContests(p));
    SumSwap(p.active, p.active, f);
    SumConst(p.active, AllContests(p), |p.votes| * (n - 1));
  }

  // ----- Net margins

  /** By how many voters `x` beats `y`. */
  function Net(votes: seq<Ballot>): (CandidateId, CandidateId) -> int {
    (x: CandidateId, y: CandidateId) => Support(votes, x, y) - Support(votes, y, x)
  }

  /** By how many voters `x` beats everyone, all contests together. */
  function NetMargin(p: Profile, x: CandidateId): int {
    Sum(p.active, Row(Net(p.votes), x))
  }

  function TwiceSupport(votes: seq<Ballot>, x: CandidateId): CandidateId -> int {
    (y: CandidateId) => 2 * Support(votes, x, y)
  }

  /** A Borda score is the mean score shifted by half the net margin. */
  lemma BordaIsMeanPlusNet(p: Profile, x: CandidateId)
    requires Valid(p) && x in p.active
    ensures 2 * Score(p.votes, Borda, x) == |p.votes| * (|p.active| - 1) + NetMargin(p, x)
  {
    SortedNoDup(p.active);
    BordaIsPairwiseRowSum(p, x);
    SumScale(p.active, SupportOver(p.votes, x), TwiceSupport(p.votes, x), 2);
    SupportSelf(p.votes, x);
    forall y | y in p.active && y != x ensures Contests(p.votes, x)(y) == |p.votes| {
      SupportSplits(p, x, y);
    }
    SumAllButOne(p.active, x, Contests(p.votes, x), |p.votes|);
    SumAdd(p.active, Contests(p.votes, x), Row(Net(p.votes), x), TwiceSupport(p.votes, x));
  }

  /** Above the Borda average means a positive net margin, below it a negative one. */
  lemma AverageByNet(p: Profile, x: CandidateId)
    requires Valid(p) && x in p.active
    ensures Score(p.votes, Borda, x) * |p.active| > Sum(p.active, ScoreOf(p.votes, Borda)) <==> NetMargin(p, x) > 0
    ensures Score(p.votes, Borda, x) * |p.active| < Sum(p.active, ScoreOf(p.votes, Borda)) <==> NetMargin(p, x) < 0
  {
    BordaIsMeanPlusNet(p, x);
    BordaTotal(p);
    MeanShift(Score(p.votes, Borda, x), |p.votes| * (|p.active| - 1), NetMargin(p, x), |p.active|,
              Sum(p.active, ScoreOf(p.votes, Borda)));
  }

  lemma MeanShift(s: int, mean: int, net: int, n: nat, total: int)
    requires n > 0 && 2 * s == mean + net && 2 * total == mean * n
    ensures s * n > total <==> net > 0
    ensures s * n < total <==> net < 0
  {
    assert 2 * (s * n) == mean * n + net * n;
    if net > 0 {
      MultiplyBound(1, net, n);
    } else if net < 0 {
      MultiplyBound(net, -1, n);
    }
  }

  lemma MultiplyBound(a: int, b: int, n: nat)
    requires a <= b
    ensures a * n <= b * n
  {
  }

  /** Against one or more opponents a Condorcet winner is strictly above the Borda average. */
  lemma CondorcetAboveBordaAverage(p: Profile, c: CandidateId)
    requires Valid(p) && |p.active| >= 2 && CondorcetWinner(p, c)
    ensures Score(p.votes, Borda, c) * |p.active| > Sum(p.active, ScoreOf(p.votes, Borda))
  {
    SortedNoDup(p.active);
    SumAllButOne(p.active, c, Row(Net(p.votes), c), 1);
    AverageByNet(p, c);
  }

  function LostTo(votes: seq<Ballot>, x: CandidateId): CandidateId -> int {
    (y: CandidateId) => Support(votes, y, x) - Support(votes, x, y)
  }

  /** A Condorcet loser is strictly below it. */
  lemma CondorcetLoserBelowBordaAverage(p: Profile, c: CandidateId)
    requires Valid(p) && |p.active| >= 2 && CondorcetLoser(p, c)
    ensures Score(p.votes, Borda, c) * |p.active| < Sum(p.active, ScoreOf(p.votes, Borda))
  {
    SortedNoDup(p.active);
    SumAllButOne(p.active, c, LostTo(p.votes, c), 1);
    SumScale(p.active, Row(Net(p.votes), c), LostTo(p.votes, c), -1);
    AverageByNet(p, c);
  }

  /** All net margins together cancel. */
  lemma NetsCancel(a: seq<CandidateId>, votes: seq<Ballot>)
    ensures Sum(a, RowSums(a, Net(votes))) == 0
  {
    var f := Net(votes);
    forall x | x in a ensures ColSums(a, f)(x) == -1 * RowSums(a, f)(x) {
      SumScale(a, Row(f, x), Col(f, x), -1);
    }
    SumScale(a, RowSums(a, f), ColSums(a, f), -1);
    SumSwap(a, a, f);
  }

  // ----- Dominating groups

  /** `d` is a group of candidates each of whom strictly beats everyone outside it. */
  ghost predicate Dominates(p: Profile, d: set<CandidateId>) {
    && d != {} && (forall x :: x in d ==> x in p.active)
    && forall x, y :: x in d && y in p.active && y !in d ==> Net(p.votes)(x, y) > 0
  }

  /** The contests of the members of `d` only. */
  function NetOf(votes: seq<Ballot>, d: set<CandidateId>): (CandidateId, CandidateId) -> int {
    (x: CandidateId, y: CandidateId) => if x in d then Net(votes)(x, y) else 0
  }

  /** Both sides of a contest: those inside `d` cancel, those across its border remain. */
  function Across(votes: seq<Ballot>, d: set<CandidateId>): (CandidateId, CandidateId) -> int {
    (x: CandidateId, y: CandidateId) => NetOf(votes, d)(x, y) + NetOf(votes, d)(y, x)
  }

  lemma NonNegativeSum(s: seq<CandidateId>, f: CandidateId -> int)
    requires forall x :: x in s ==> f(x) >= 0
    ensures Sum(s, f) >= 0
  {
    var zero: CandidateId -> int := (x: CandidateId) => 0;
    SumConst(s, zero, 0);
    SumLe(s, zero, f);
  }

  lemma PositiveSum(s: seq<CandidateId>, f: CandidateId -> int, c: CandidateId)
    requires c in s && f(c) > 0
    requires forall x :: x in s ==> f(x) >= 0
    ensures Sum(s, f) > 0
  {
    var k := Pos(s, c);
    SumPullOut(s, k, f);
    NonNegativeSum(s[..k] + s[k + 1..], f);
  }

  /** Every contest counted from both sides is counted twice. */
  lemma AcrossIsTwice(a: seq<CandidateId>, votes: seq<Ballot>, d: set<CandidateId>)
    ensures Sum(a, RowSums(a, Across(votes, d))) == 2 * Sum(a, RowSums(a, NetOf(votes, d)))
  {
    var f, k := NetOf(votes, d), Across(votes, d);
    forall x | x in a ensures RowSums(a, k)(x) == RowSums(a, f)(x) + ColSums(a, f)(x) {
      SumAdd(a, Row(f, x), Col(f, x), Row(k, x));
    }
    SumAdd(a, RowSums(a, f), ColSums(a, f), RowSums(a, k));
    SumSwap(a, a, f);
  }

  lemma AcrossSign(p: Profile, d: set<CandidateId>, x: CandidateId, y: CandidateId)
    requires Dominates(p, d) && x in p.active && y in p.active
    ensures Row(Across(p.votes, d), x)(y) >= 0
    ensures x in d && y !in d ==> Row(Across(p.votes, d), x)(y) > 0
  {
    var net := Net(p.votes);
    assert NetOf(p.votes, d)(x, y) == if x in d then net(x, y) else 0;
    assert NetOf(p.votes, d)(y, x) == if y in d then net(y, x) else 0;
    assert Row(Across(p.votes, d), x)(y) == NetOf(p.votes, d)(x, y) + NetOf(p.votes, d)(y, x);
  }

  lemma AcrossIsPositive(p: Profile, d: set<CandidateId>, y: CandidateId)
    requires Valid(p) && Dominates(p, d) && y in p.active && y !in d
    ensures Sum(p.active, RowSums(p.active, Across(p.votes, d))) > 0
  {
    var k := Across(p.votes, d);
    forall x, z | x in p.active && z in p.active ensures Row(k, x)(z) >= 0 {
      AcrossSign(p, d, x, z);
    }
    forall x | x in p.active ensures RowSums(p.active, k)(x) >= 0 {
      NonNegativeSum(p.active, Row(k, x));
    }
    var x :| x in d;
    AcrossSign(p, d, x, y);
    PositiveSum(p.active, Row(k, x), y);
    PositiveSum(p.active, RowSums(p.active, k), x);
  }

  /** Unless everyone is in it, some member of a dominating group is strictly above the Borda average. */
  lemma SomeMemberAboveAverage(p: Profile, d: set<CandidateId>, y: CandidateId) returns (c: CandidateId)
    requires Valid(p) && Dominates(p, d) && y in p.active && y !in d
    ensures c in d && c in p.active
    ensures Score(p.votes, Borda, c) * |p.active| > Sum(p.active, ScoreOf(p.votes, Borda))
  {
    var a, f := p.active, NetOf(p.votes, d);
    AcrossIsTwice(a, p.votes, d);
    AcrossIsPositive(p, d, y);
    if forall x :: x in a ==> RowSums(a, f)(x) <= 0 {
      var zero: CandidateId -> int := (x: CandidateId) => 0;
      SumConst(a, zero, 0);
      SumLe(a, RowSums(a, f), zero);
      assert false;
    }
    c :| c in a && RowSums(a, f)(c) > 0;
    if c !in d {
      SumConst(a, Row(f, c), 0);
      assert false;
    }
    SumEq(a, Row(f, c), Row(Net(p.votes), c));
    AverageByNet(p, c);
  }

  /** The group keeps dominating when others leave, and while some member stays. */
  lemma RemovedKeepsDominance(p: Profile, d: set<CandidateId>, gone: set<CandidateId>, c: CandidateId)
    requires Dominates(p, d) && c in d && c !in gone
    ensures Dominates(Removed(p, gone), d - gone)
  {
    forall x, y | x in d - gone && y in Removed(p, gone).active && y !in d - gone
      ensures Net(Removed(p, gone).votes)(x, y) > 0
    {
      RemovedKeepsSupport(p, gone, x, y);
      RemovedKeepsSupport(p, gone, y, x);
      assert Net(p.votes)(x, y) > 0;
    }
    assert c in d - gone;
  }
}
