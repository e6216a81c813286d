/**
 * Parallel map/reduce over the voters. Rayon may split the voters into any tree of
 * neighbouring groups and may start any group from the identity.
 */
module Reductions {
  import opened Sums

  /** One way of combining the per-voter results: leaves are voter numbers. */
  datatype Plan = Identity | Voter(i: nat) | Join(left: Plan, right: Plan)

  function Fringe(plan: Plan): seq<nat> {
    match plan
    case Identity => []
    case Voter(i) => [i]
    case Join(l, r) => Fringe(l) + Fringe(r)
  }

  function Range(n: nat): (r: seq<nat>)
    ensures |r| == n && forall i :: 0 <= i < n ==> r[i] == i
  {
    seq(n, i requires 0 <= i < n => i)
  }

  /** `plan` visits each of `n` voters once, in order. */
  ghost predicate Covers(plan: Plan, n: nat) {
    Fringe(plan) == Range(n)
  }

  predicate Within(at: seq<nat>, n: nat) {
    forall k :: 0 <= k < |at| ==> at[k] < n
  }

  lemma WithinParts(a: seq<nat>, b: seq<nat>, n: nat)
    requires Within(a + b, n)
    ensures Within(a, n) && Within(b, n)
  {
    assert forall k :: 0 <= k < |a| ==> (a + b)[k] == a[k];
    assert forall k :: 0 <= k < |b| ==> (a + b)[|a| + k] == b[k];
  }

  function Pick<T>(s: seq<T>, at: seq<nat>): (r: seq<T>)
    requires Within(at, |s|)
    ensures |r| == |at| && forall k :: 0 <= k < |at| ==> r[k] == s[at[k]]
  {
    seq(|at|, k requires 0 <= k < |at| => s[at[k]])
  }

  lemma PickAppend<T>(s: seq<T>, a: seq<nat>, b: seq<nat>)
    requires Within(a, |s|) && Within(b, |s|)
    ensures Pick(s, a + b) == Pick(s, a) + Pick(s, b)
  {
  }

  lemma PickRange<T>(s: seq<T>)
    ensures Pick(s, Range(|s|)) == s
  {
  }

  // ----- Score vectors

  function Min(a: int, b: int): int { if a < b then a else b }

  /** `a.iter().zip(b.iter()).map(|(x, y)| x + y)`: stops at the shorter operand. */
  function ZipSum(a: seq<int>, b: seq<int>): (r: seq<int>)
    ensures |r| == Min(|a|, |b|)
    ensures forall k :: 0 <= k < |r| ==> r[k] == a[k] + b[k]
  {
    seq(Min(|a|, |b|), k requires 0 <= k < Min(|a|, |b|) => a[k] + b[k])
  }

  function Zeros(n: nat): (r: seq<int>)
    ensures |r| == n && forall k :: 0 <= k < n ==> r[k] == 0
  {
    seq(n, k => 0)
  }

  function At(k: nat): seq<int> -> int {
    (v: seq<int>) => if k < |v| then v[k] else 0
  }

  function ReduceVectors(plan: Plan, leaves: seq<seq<int>>, n: nat): seq<int>
    requires Within(Fringe(plan), |leaves|)
  {
    match plan
    case Identity => Zeros(n)
    case Voter(i) => assert Fringe(plan)[0] == i; leaves[i]
    case Join(l, r) =>
      WithinParts(Fringe(l), Fringe(r), |leaves|);
      ZipSum(ReduceVectors(l, leaves, n), ReduceVectors(r, leaves, n))
  }

  /** Zipping loses nothing, and every component is a plain sum over the leaves of the plan. */
  lemma {:induction false} ReduceVectorsIsSum(plan: Plan, leaves: seq<seq<int>>, n: nat)
    requires Within(Fringe(plan), |leaves|)
    requires forall v :: v in leaves ==> |v| == n
    ensures var r := ReduceVectors(plan, leaves, n);
            |r| == n && forall k :: 0 <= k < n ==> r[k] == Sum(Pick(leaves, Fringe(plan)), At(k))
  {
    var s := ReduceVectors(plan, leaves, n);
    match plan
    case Identity =>
    case Voter(i) =>
      assert Fringe(plan)[0] == i;
      assert Pick(leaves, Fringe(plan)) == [leaves[i]];
    case Join(l, r) =>
      WithinParts(Fringe(l), Fringe(r), |leaves|);
      PickAppend(leaves, Fringe(l), Fringe(r));
      ReduceVectorsIsSum(l, leaves, n);
      ReduceVectorsIsSum(r, leaves, n);
      forall k | 0 <= k < n ensures s[k] == Sum(Pick(leaves, Fringe(plan)), At(k)) {
        SumAppend(Pick(leaves, Fringe(l)), Pick(leaves, Fringe(r)), At(k));
      }
  }

  /** Every plan over the same voters gives the same vector: the sum over all of them. */
  lemma AnyPlanSameVector(plan: Plan, leaves: seq<seq<int>>, n: nat)
    requires Covers(plan, |leaves|)
    requires forall v :: v in leaves ==> |v| == n
    ensures var r := ReduceVectors(plan, leaves, n);
            |r| == n && forall k :: 0 <= k < n ==> r[k] == Sum(leaves, At(k))
  {
    PickRange(leaves);
    ReduceVectorsIsSum(plan, leaves, n);
  }

  // ----- Matrices

  type Matrix = seq<seq<int>>

  ghost predicate Shape(m: Matrix, rows: nat, cols: nat) {
    |m| == rows && forall i :: 0 <= i < rows ==> |m[i]| == cols
  }

  function ZeroMatrix(rows: nat, cols: nat): (m: Matrix)
    ensures Shape(m, rows, cols)
    ensures forall i, j :: 0 <= i < rows && 0 <= j < cols ==> m[i][j] == 0
  {
    seq(rows, i => Zeros(cols))
  }

  /** Row by row, cell by cell. */
  function AddMatrix(a: Matrix, b: Matrix): (m: Matrix)
    ensures |m| == Min(|a|, |b|)
    ensures forall i :: 0 <= i < |m| ==> m[i] == ZipSum(a[i], b[i])
  {
    seq(Min(|a|, |b|), i requires 0 <= i < Min(|a|, |b|) => ZipSum(a[i], b[i]))
  }

  function Cell(i: nat, j: nat): Matrix -> int {
    (m: Matrix) => if i < |m| && j < |m[i]| then m[i][j] else 0
  }

  function ReduceMatrices(plan: Plan, leaves: seq<Matrix>, rows: nat, cols: nat): Matrix
    requires Within(Fringe(plan), |leaves|)
  {
    match plan
    case Identity => ZeroMatrix(rows, cols)
    case Voter(i) => assert Fringe(plan)[0] == i; leaves[i]
    case Join(l, r) =>
      WithinParts(Fringe(l), Fringe(r), |leaves|);
      AddMatrix(ReduceMatrices(l, leaves, rows, cols), ReduceMatrices(r, leaves, rows, cols))
  }

  lemma {:induction false} ReduceMatricesIsSum(plan: Plan, leaves: seq<Matrix>, rows: nat, cols: nat)
    requires Within(Fringe(plan), |leaves|)
    requires forall m :: m in leaves ==> Shape(m, rows, cols)
    ensures var m := ReduceMatrices(plan, leaves, rows, cols);
            Shape(m, rows, cols)
            && forall i, j :: 0 <= i < rows && 0 <= j < cols ==> m[i][j] == Sum(Pick(leaves, Fringe(plan)), Cell(i, j))
  {
    var m := ReduceMatrices(plan, leaves, rows, cols);
    match plan
    case Identity =>
    case Voter(v) =>
      assert Fringe(plan)[0] == v;
      assert Pick(leaves, Fringe(plan)) == [leaves[v]];
    case Join(l, r) =>
      WithinParts(Fringe(l), Fringe(r), |leaves|);
      PickAppend(leaves, Fringe(l), Fringe(r));
      ReduceMatricesIsSum(l, leaves, rows, cols);
      ReduceMatricesIsSum(r, leaves, rows, cols);
      forall i, j | 0 <= i < rows && 0 <= j < cols
        ensures m[i][j] == Sum(Pick(leaves, Fringe(plan)), Cell(i, j))
      {
        SumAppend(Pick(leaves, Fringe(l)), Pick(leaves, Fringe(r)), Cell(i, j));
      }
  }

  /** Every plan over the same voters gives the same matrix: the sum over all of them. */
  lemma AnyPlanSameMatrix(plan: Plan, leaves: seq<Matrix>, rows: nat, cols: nat)
    requires Covers(plan, |leaves|)
    requires forall m :: m in leaves ==> Shape(m, rows, cols)
    ensures var m := ReduceMatrices(plan, leaves, rows, cols);
            Shape(m, rows, cols)
            && forall i, j :: 0 <= i < rows && 0 <= j < cols ==> m[i][j] == Sum(leaves, Cell(i, j))
  {
    PickRange(leaves);
    ReduceMatricesIsSum(plan, leaves, rows, cols);
  }
}
