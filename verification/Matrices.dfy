/**
 * Pairwise and Condorcet matrices: matrix/pairwise.rs, matrix/condorcet.rs,
 * scorer/condorcet.rs and decider/condorcet.rs of voting-core.
 */
module Matrices {
  import opened Wrappers
  import opened Sums
  import opened CandidateIds
  import opened Profiles
  import opened Reductions

  // ----- Validated construction

  datatype PairwiseMatrixError =
    | EmptyMatrix
    | NonMatrix
    | NonSquareMatrix
    | NonZeroDiagonal
    | NonAntiSymmetric

  ghost predicate Rectangular(m: Matrix) {
    m != [] && Shape(m, |m|, |m[0]|)
  }

  ghost predicate ZeroDiagonal(m: Matrix)
    requires Shape(m, |m|, |m|)
  {
    forall i :: 0 <= i < |m| ==> m[i][i] == 0
  }

  /** Opposite cells add up to the number of voters. */
  ghost predicate Complementary(m: Matrix, nVoters: int)
    requires Shape(m, |m|, |m|)
  {
    forall i, j :: 0 <= i < j < |m| ==> m[i][j] + m[j][i] == nVoters
  }

  /** `PairwiseMatrix::try_new`: each error is reported exactly when all earlier checks pass. */
  method TryNew(matrix: seq<seq<nat>>, nVoters: nat) returns (r: Result<Matrix, PairwiseMatrixError>)
    ensures r == Failure(EmptyMatrix) <==> matrix == []
    ensures matrix != [] ==> (r == Failure(NonMatrix) <==> !Rectangular(matrix))
    ensures matrix != [] && Rectangular(matrix) ==>
              && (r == Failure(NonSquareMatrix) <==> |matrix| != |matrix[0]|)
              && (|matrix| == |matrix[0]| ==>
                    && (r == Failure(NonZeroDiagonal) <==> !ZeroDiagonal(matrix))
                    && (ZeroDiagonal(matrix) ==>
                          r == if Complementary(matrix, nVoters) then Success(matrix) else Failure(NonAntiSymmetric)))
  {
    if matrix == [] {
      return Failure(EmptyMatrix);
    }
    var row0Len := |matrix[0]|;
    if exists k :: 1 <= k < |matrix| && |matrix[k]| != row0Len {
      return Failure(NonMatrix);
    }
    var rows := |matrix|;
    if rows != row0Len {
      return Failure(NonSquareMatrix);
    }
    if exists k :: 0 <= k < rows && matrix[k][k] != 0 {
      return Failure(NonZeroDiagonal);
    }
    for i := 0 to rows
      invariant forall x, y :: 0 <= x < i && x < y < rows ==> matrix[x][y] + matrix[y][x] == nVoters
    {
      for j := i + 1 to rows
        invariant forall y :: i < y < j ==> matrix[i][y] + matrix[y][i] == nVoters
      {
        if matrix[i][j] + matrix[j][i] != nVoters {
          return Failure(NonAntiSymmetric);
        }
      }
    }
    return Success(matrix);
  }

  // ----- Machine subtraction

  const TWO_63 := 0x8000_0000_0000_0000
  const TWO_64 := 0x1_0000_0000_0000_0000

  /** `usize::cast_signed` on a 64-bit machine. */
  function CastSigned(x: int): int
    requires 0 <= x < TWO_64
  {
    if x < TWO_63 then x else x - TWO_64
  }

  /** `safe_sub_usize_to_isize`; negating the smallest `isize` panics when overflow checks are on, and else wraps. */
  function SafeSub(a: int, b: int, overflowChecks: bool): Option<int>
    requires 0 <= a < TWO_64 && 0 <= b < TWO_64
  {
    if a >= b then Some(CastSigned(a - b))
    else
      var d := CastSigned(b - a);
      if d != -TWO_63 then Some(-d) else if overflowChecks then None else Some(d)
  }

  /**
   * Exact precisely when the difference fits an `isize`, except that at the smallest one a build
   * with overflow checks panics, and it panics nowhere else.
   */
  lemma SafeSubExact(a: int, b: int, overflowChecks: bool)
    requires 0 <= a < TWO_64 && 0 <= b < TWO_64
    ensures SafeSub(a, b, overflowChecks).None? <==> overflowChecks && b - a == TWO_63
    ensures SafeSub(a, b, overflowChecks).Some? ==>
              (SafeSub(a, b, overflowChecks).value == a - b <==> -TWO_63 <= a - b < TWO_63)
  {
  }

  // ----- Building the matrix from a profile

  /** Candidate number k sits at place k of the active list, as `try_from` leaves it. */
  ghost predicate Numbered(active: seq<CandidateId>) {
    forall i :: 0 <= i < |active| ==> active[i].id == i
  }

  ghost predicate IncreasingIds(active: seq<CandidateId>) {
    forall i, j :: 0 <= i < j < |active| ==> active[i].id < active[j].id
  }

  /** Every cell the construction writes exists: it addresses cells by raw candidate id. */
  ghost predicate WritesInBounds(p: Profile) {
    forall b: Ballot, i, j :: b in p.votes && 0 <= i < j < |b| ==> b[i].id < |p.active| && b[j].id < |p.active|
  }

  lemma {:induction false} IdsAtLeastPlaces(active: seq<CandidateId>, i: nat)
    requires IncreasingIds(active) && i < |active|
    ensures i <= active[i].id
  {
    if i > 0 {
      IdsAtLeastPlaces(active, i - 1);
    }
  }

  lemma {:induction false} IdsAtMostPlaces(active: seq<CandidateId>, i: nat, top: nat)
    requires IncreasingIds(active) && i < |active| && active[|active| - 1].id <= top
    ensures active[i].id <= top - (|active| - 1 - i)
    decreases |active| - i
  {
    if i < |active| - 1 {
      IdsAtMostPlaces(active, i + 1, top);
    }
  }

  lemma WritesMeanIdsFit(p: Profile, c: CandidateId)
    requires Valid(p) && |p.active| >= 2 && WritesInBounds(p) && c in p.active
    ensures c.id < |p.active|
  {
    var b: Ballot := p.votes[0];
    assert b in p.votes;
    RanksSameLength(b, p.active);
    var k := Pos(b, c);
    assert c in b && b[k] == c;
    var first, other := b[0], b[if k == 0 then 1 else k];
    assert first.id < |p.active| && other.id < |p.active|;
  }

  lemma SmallIdsAreNumbered(active: seq<CandidateId>)
    requires IncreasingIds(active) && forall c :: c in active ==> c.id < |active|
    ensures Numbered(active)
  {
    var n := |active|;
    forall i: nat | i < n ensures active[i].id == i {
      assert active[n - 1] in active;
      IdsAtLeastPlaces(active, i);
      IdsAtMostPlaces(active, i, n - 1);
    }
  }

  /**
   * The pairwise matrix can be built without an index failure exactly when there are fewer than
   * two candidates or all ids are below their number; for different ids, when the candidates are
   * numbered 0, 1, ..., n-1. After a removal this fails unless only the last ones went.
   */
  lemma PairwiseIndexSafe(p: Profile)
    requires Valid(p)
    ensures WritesInBounds(p) <==> |p.active| < 2 || forall c :: c in p.active ==> c.id < |p.active|
    ensures IncreasingIds(p.active) ==> (WritesInBounds(p) <==> |p.active| < 2 || Numbered(p.active))
  {
    forall v: Ballot | v in p.votes ensures Ranks(v, p.active) && |v| == |p.active| {
      RanksSameLength(v, p.active);
    }
    if |p.active| >= 2 {
      if WritesInBounds(p) {
        forall c | c in p.active ensures c.id < |p.active| {
          WritesMeanIdsFit(p, c);
        }
      }
      if forall c :: c in p.active ==> c.id < |p.active| {
        forall v: Ballot, i | v in p.votes && 0 <= i < |v| ensures v[i].id < |p.active| {
          assert v[i] in v;
        }
        if IncreasingIds(p.active) {
          SmallIdsAreNumbered(p.active);
        }
      }
      if Numbered(p.active) {
        forall c | c in p.active ensures c.id < |p.active| {
          NumberedAt(p.active, c);
        }
      }
    }
  }

  ghost predicate HasId(r: seq<CandidateId>, m: nat) {
    exists l :: 0 <= l < |r| && r[l].id == m
  }

  lemma {:induction false} NumberedPrefix(r: seq<CandidateId>, i: nat)
    requires IncreasingIds(r) && i < |r|
    requires forall k, m: nat :: 0 <= k < |r| && m < r[k].id ==> HasId(r, m)
    ensures r[i].id == i
  {
    IdsAtLeastPlaces(r, i);
    if r[i].id > i {
      assert HasId(r, i);
      var l: nat :| l < |r| && r[l].id == i;
      if l < i {
        NumberedPrefix(r, l);
      }
    }
  }

  /** With a candidate, every higher-numbered one goes too. */
  ghost predicate TakesHighest(active: seq<CandidateId>, gone: set<CandidateId>) {
    forall x, y :: x in active && y in active && x in gone && x.id < y.id ==> y in gone
  }

  lemma NumberedAt(active: seq<CandidateId>, c: CandidateId)
    requires Numbered(active) && c in active
    ensures c.id < |active| && active[c.id] == c
  {
  }

  lemma NumberedAfterOnlyIfHighest(active: seq<CandidateId>, gone: set<CandidateId>)
    requires Numbered(active) && Numbered(Without(active, gone))
    ensures TakesHighest(active, gone)
  {
    var r := Without(active, gone);
    forall x, y | x in active && y in active && x in gone && x.id < y.id ensures y in gone {
      if y !in gone {
        NumberedAt(r, y);
        var z := r[x.id];
        assert z in r && z.id == x.id;
        NumberedAt(active, x);
        NumberedAt(active, z);
      }
    }
  }

  lemma NumberedAfterIfHighest(active: seq<CandidateId>, gone: set<CandidateId>)
    requires StrictlySorted(active) && Numbered(active) && TakesHighest(active, gone)
    ensures Numbered(Without(active, gone))
  {
    var r := Without(active, gone);
    WithoutSorted(active, gone);
    forall c | c in r ensures c.id < |active| && active[c.id] == c {
      NumberedAt(active, c);
    }
    IncreasingFromNumbered(active, r);
    forall k, m: nat | 0 <= k < |r| && m < r[k].id ensures HasId(r, m) {
      assert r[k] in r;
      var c := active[m];
      assert c in active && c in r;
      assert r[Pos(r, c)].id == m;
    }
    forall i: nat | i < |r| ensures r[i].id == i {
      NumberedPrefix(r, i);
    }
  }

  /** A removal leaves the numbering intact exactly when it takes the highest-numbered candidates. */
  lemma RemovalKeepsNumbersIff(p: Profile, gone: set<CandidateId>)
    requires Valid(p) && Numbered(p.active)
    ensures Numbered(Removed(p, gone).active) <==> TakesHighest(p.active, gone)
  {
    if Numbered(Removed(p, gone).active) {
      NumberedAfterOnlyIfHighest(p.active, gone);
    }
    if TakesHighest(p.active, gone) {
      NumberedAfterIfHighest(p.active, gone);
    }
  }

  lemma IncreasingFromNumbered(active: seq<CandidateId>, r: seq<CandidateId>)
    requires StrictlySorted(r)
    requires forall c :: c in r ==> c.id < |active| && active[c.id] == c
    ensures IncreasingIds(r)
  {
    forall i, j | 0 <= i < j < |r| ensures r[i].id < r[j].id {
      assert r[i] in r && r[j] in r && Less(r[i], r[j]);
      LessIrreflexive(r[i]);
    }
  }

  /** One voter's 0/1 matrix. */
  function VoterMatrix(b: Ballot, active: seq<CandidateId>): (m: Matrix)
    ensures Shape(m, |active|, |active|)
    ensures forall x, y :: 0 <= x < |active| && 0 <= y < |active| ==> m[x][y] == Prefers(active[x], active[y])(b)
  {
    seq(|active|, x requires 0 <= x < |active| =>
      seq(|active|, y requires 0 <= y < |active| => Prefers(active[x], active[y])(b)))
  }

  /**
   * The closure mapped over the voters: writes a 1 at (i-th id, j-th id) for i before j.
   * `place` is where each id stands on the ballot.
   */
  method MarkPairs(ids: seq<nat>, ghost place: seq<nat>) returns (matrix: Matrix)
    requires |place| == |ids|
    requires forall k :: 0 <= k < |ids| ==> ids[k] < |ids| && place[ids[k]] == k
    requires forall x :: 0 <= x < |ids| ==> place[x] < |ids| && ids[place[x]] == x
    ensures Shape(matrix, |ids|, |ids|)
    ensures forall x, y :: 0 <= x < |ids| && 0 <= y < |ids| ==> matrix[x][y] == if place[x] < place[y] then 1 else 0
  {
    var n := |ids|;
    matrix := ZeroMatrix(n, n);
    for i := 0 to n
      invariant Shape(matrix, n, n)
      invariant forall x, y :: 0 <= x < n && 0 <= y < n ==>
        matrix[x][y] == if place[x] < i && place[x] < place[y] then 1 else 0
    {
      ghost var before := matrix;
      for j := i + 1 to n
        invariant Shape(matrix, n, n)
        invariant forall u :: 0 <= u < n && u != ids[i] ==> matrix[u] == before[u]
        invariant forall y :: 0 <= y < n ==> matrix[ids[i]][y] == if i < place[y] < j then 1 else 0
      {
        matrix := matrix[ids[i] := matrix[ids[i]][ids[j] := 1]];
      }
    }
  }

  method BallotMatrix(b: Ballot, active: seq<CandidateId>) returns (matrix: Matrix)
    requires StrictlySorted(active) && Ranks(b, active) && Numbered(active)
    ensures matrix == VoterMatrix(b, active)
  {
    ghost var place := Places(b, active);
    matrix := MarkPairs(seq(|b|, k requires 0 <= k < |b| => b[k].id), place);
    assert forall x :: 0 <= x < |active| ==> matrix[x] == VoterMatrix(b, active)[x];
  }

  /** Where each numbered candidate stands on the ballot; candidate b[k] stands at k. */
  ghost function Places(b: Ballot, active: seq<CandidateId>): (place: seq<nat>)
    requires StrictlySorted(active) && Ranks(b, active) && Numbered(active)
    ensures |place| == |active| == |b|
    ensures forall x :: 0 <= x < |active| ==> place[x] == Pos(b, active[x])
    ensures forall x :: 0 <= x < |active| ==> place[x] < |b| && b[place[x]].id == x
    ensures forall k :: 0 <= k < |b| ==> b[k].id < |active| && place[b[k].id] == k
  {
    RanksSameLength(b, active);
    var place := seq(|active|, x requires 0 <= x < |active| => Pos(b, active[x]));
    assert forall x :: 0 <= x < |active| ==> active[x] in active;
    assert forall k :: 0 <= k < |b| ==> b[k].id < |active| && place[b[k].id] == k by {
      forall k | 0 <= k < |b| ensures b[k].id < |active| && place[b[k].id] == k {
        PosAt(b, k);
        assert b[k] in b;
        assert active[Pos(active, b[k])] == b[k];
      }
    }
    place
  }

  /** `sum_matrix`: adds the second matrix into the first, cell by cell. */
  method SumMatrix(a: Matrix, b: Matrix, ghost n: nat) returns (r: Matrix)
    requires n > 0 && Shape(a, n, n) && Shape(b, n, n)
    ensures r == AddMatrix(a, b)
  {
    r := a;
    for i := 0 to |a|
      invariant |r| == n
      invariant forall x :: 0 <= x < i ==> r[x] == ZipSum(a[x], b[x])
      invariant forall x :: i <= x < n ==> r[x] == a[x]
    {
      for j := 0 to |b[0]|
        invariant |r| == n && |r[i]| == n
        invariant forall x :: 0 <= x < i ==> r[x] == ZipSum(a[x], b[x])
        invariant forall x :: i < x < n ==> r[x] == a[x]
        invariant forall y :: 0 <= y < n ==> r[i][y] == if y < j then a[i][y] + b[i][y] else a[i][y]
      {
        r := r[i := r[i][j := r[i][j] + b[i][j]]];
      }
      assert r[i] == ZipSum(a[i], b[i]);
    }
  }

  function VoterMatrices(p: Profile): (ms: seq<Matrix>)
    ensures |ms| == |p.votes|
    ensures forall v :: 0 <= v < |ms| ==> ms[v] == VoterMatrix(p.votes[v], p.active)
  {
    seq(|p.votes|, v requires 0 <= v < |p.votes| => VoterMatrix(p.votes[v], p.active))
  }

  /** Row x, column y: how many voters rank candidate x before candidate y. */
  function Pairwise(p: Profile): (m: Matrix)
    ensures Shape(m, |p.active|, |p.active|)
    ensures forall x, y :: 0 <= x < |p.active| && 0 <= y < |p.active| ==>
              m[x][y] == Support(p.votes, p.active[x], p.active[y])
  {
    seq(|p.active|, x requires 0 <= x < |p.active| =>
      seq(|p.active|, y requires 0 <= y < |p.active| => Support(p.votes, p.active[x], p.active[y])))
  }

  lemma {:induction false} CellOfVoters(votes: seq<Ballot>, active: seq<CandidateId>, x: nat, y: nat)
    requires x < |active| && y < |active|
    ensures Sum(VoterMatrices(Profile(votes, active)), Cell(x, y)) == Support(votes, active[x], active[y])
  {
    if votes != [] {
      CellOfVoters(votes[1..], active, x, y);
      assert VoterMatrices(Profile(votes, active))[1..] == VoterMatrices(Profile(votes[1..], active));
    }
  }

  /** Summing the voters' matrices in any parallel order counts head-to-head preferences. */
  lemma ReducedIsPairwise(p: Profile, plan: Plan)
    requires Covers(plan, |p.votes|)
    ensures ReduceMatrices(plan, VoterMatrices(p), |p.active|, |p.active|) == Pairwise(p)
  {
    var n := |p.active|;
    AnyPlanSameMatrix(plan, VoterMatrices(p), n, n);
    var m := ReduceMatrices(plan, VoterMatrices(p), n, n);
    forall x: nat | x < n ensures m[x] == Pairwise(p)[x] {
      forall y: nat | y < n ensures m[x][y] == Pairwise(p)[x][y] {
        CellOfVoters(p.votes, p.active, x, y);
      }
    }
  }

  /** `From<&Profile<RankingBallot>> for PairwiseMatrix`, for any way rayon groups the voters. */
  method PairwiseFrom(p: Profile, plan: Plan) returns (m: Matrix)
    requires Valid(p) && Numbered(p.active) && p.active != []
    requires Covers(plan, |p.votes|)
    ensures m == Pairwise(p)
  {
    m := ReduceVoters(p, plan);
    ReducedIsPairwise(p, plan);
  }

  method ReduceVoters(p: Profile, plan: Plan) returns (m: Matrix)
    requires Valid(p) && Numbered(p.active) && p.active != []
    requires Within(Fringe(plan), |p.votes|)
    ensures m == ReduceMatrices(plan, VoterMatrices(p), |p.active|, |p.active|)
    decreases plan
  {
    match plan
    case Identity =>
      m := ZeroMatrix(|p.active|, |p.active|);
    case Voter(i) =>
      assert Fringe(plan)[0] == i;
      assert p.votes[i] in p.votes;
      m := BallotMatrix(p.votes[i], p.active);
    case Join(l, r) =>
      WithinParts(Fringe(l), Fringe(r), |p.votes|);
      var a := ReduceVoters(p, l);
      var b := ReduceVoters(p, r);
      ReduceMatricesIsSum(l, VoterMatrices(p), |p.active|, |p.active|);
      ReduceMatricesIsSum(r, VoterMatrices(p), |p.active|, |p.active|);
      m := SumMatrix(a, b, |p.active|);
  }

  /** The unchecked construction upholds everything the checked one verifies. */
  lemma PairwiseUpholdsInvariants(p: Profile)
    requires Valid(p)
    ensures ZeroDiagonal(Pairwise(p)) && Complementary(Pairwise(p), |p.votes|)
    ensures forall x, y :: 0 <= x < |p.active| && 0 <= y < |p.active| ==> 0 <= Pairwise(p)[x][y] <= |p.votes|
  {
    var m := Pairwise(p);
    SortedNoDup(p.active);
    forall x, y | 0 <= x < |p.active| && 0 <= y < |p.active|
      ensures 0 <= m[x][y] <= |p.votes|
      ensures if x == y then m[x][y] == 0 else m[x][y] + m[y][x] == |p.votes|
    {
      if x == y {
        SupportSelf(p.votes, p.active[x]);
      } else {
        SupportSplits(p, p.active[x], p.active[y]);
        SupportSplits(p, p.active[y], p.active[x]);
      }
    }
  }

  // ----- Head-to-head results

  predicate Beats(m: Matrix, i: nat, j: nat)
    requires i < |m| && j < |m| && j < |m[i]| && i < |m[j]|
  {
    m[i][j] > m[j][i]
  }

  type BoolMatrix = seq<seq<bool>>

  /** `From<PairwiseMatrix> for CondorcetMatrix`. */
  method CondorcetFrom(m: Matrix) returns (result: BoolMatrix)
    requires Shape(m, |m|, |m|)
    ensures |result| == |m| && forall i :: 0 <= i < |m| ==> |result[i]| == |m|
    ensures forall i, j :: 0 <= i < |m| && 0 <= j < |m| ==> result[i][j] == Beats(m, i, j)
  {
    var n := |m|;
    result := seq(n, i => seq(n, j => false));
    for i := 0 to n
      invariant |result| == n && forall x :: 0 <= x < n ==> |result[x]| == n
      invariant forall x, y :: 0 <= x < n && 0 <= y < n ==>
        result[x][y] == ((x < i || y < i) && Beats(m, x, y))
    {
      for j := i + 1 to n
        invariant |result| == n && forall x :: 0 <= x < n ==> |result[x]| == n
        invariant forall x, y :: 0 <= x < n && 0 <= y < n ==>
          result[x][y] == ((x < i || y < i || (x == i && y < j) || (y == i && x < j)) && Beats(m, x, y))
      {
        if Beats(m, i, j) {
          result := result[i := result[i][j := true]];
        } else if Beats(m, j, i) {
          result := result[j := result[j][i := true]];
        }
      }
    }
  }

  function One(): bool -> int { (b: bool) => if b then 1 else 0 }

  /** `CondorcetDecider::decide`: the first row that beats everyone else, if any. */
  function Decide(rows: BoolMatrix, cands: seq<CandidateId>): seq<CandidateId> {
    if rows == [] || cands == [] then []
    else if Sum(rows[0], One()) + 1 == |rows[0]| then [cands[0]]
    else Decide(rows[1..], cands[1..])
  }

  lemma {:induction false} AllTrueIffFullSum(row: seq<bool>)
    ensures Sum(row, One()) <= |row|
    ensures Sum(row, One()) == |row| <==> forall j :: 0 <= j < |row| ==> row[j]
  {
    if row != [] {
      AllTrueIffFullSum(row[1..]);
      assert forall j :: 1 <= j < |row| ==> row[j] == row[1..][j - 1];
    }
  }

  lemma OneShortIffAllOthers(row: seq<bool>, i: nat)
    requires i < |row| && !row[i]
    ensures Sum(row, One()) + 1 == |row| <==> forall j :: 0 <= j < |row| && j != i ==> row[j]
  {
    var rest := row[..i] + row[i + 1..];
    SumPullOut(row, i, One());
    AllTrueIffFullSum(rest);
    assert forall j :: i < j < |row| ==> row[j] == rest[j - 1];
    assert forall j :: 0 <= j < i ==> row[j] == rest[j];
  }

  lemma {:induction false} DecideFindsFirst(rows: BoolMatrix, cands: seq<CandidateId>)
    requires |rows| == |cands|
    ensures Decide(rows, cands) == [] <==> forall i :: 0 <= i < |rows| ==> Sum(rows[i], One()) + 1 != |rows[i]|
    ensures Decide(rows, cands) != [] ==>
              exists i :: 0 <= i < |rows| && Sum(rows[i], One()) + 1 == |rows[i]| && Decide(rows, cands) == [cands[i]]
  {
    if rows != [] && Sum(rows[0], One()) + 1 != |rows[0]| {
      DecideFindsFirst(rows[1..], cands[1..]);
      assert forall i :: 1 <= i < |rows| ==> rows[i] == rows[1..][i - 1];
      if Decide(rows[1..], cands[1..]) != [] {
        var i :| 0 <= i < |rows[1..]| && Sum(rows[1..][i], One()) + 1 == |rows[1..][i]|
                 && Decide(rows[1..], cands[1..]) == [cands[1..][i]];
        assert rows[i + 1] == rows[1..][i];
      }
    }
  }

  lemma CondorcetWinnerUnique(p: Profile, c: CandidateId, d: CandidateId)
    requires CondorcetWinner(p, c) && CondorcetWinner(p, d)
    ensures c == d
  {
  }

  /** The Condorcet matrix of a profile, as a value. */
  ghost predicate IsCondorcetMatrix(p: Profile, rows: BoolMatrix) {
    && |rows| == |p.active|
    && (forall i :: 0 <= i < |rows| ==> |rows[i]| == |p.active|)
    && forall i, j :: 0 <= i < |rows| && 0 <= j < |rows| ==> rows[i][j] == Beats(Pairwise(p), i, j)
  }

  function Bit(b: bool): int { if b then 1 else 0 }

  /**
   * What the matrix comment promises (opposite cells sum to one) holds exactly off ties; what
   * always holds is that opposite cells are never both set.
   */
  lemma CondorcetCellsSumToOneIffNotTied(p: Profile, rows: BoolMatrix, i: nat, j: nat)
    requires Valid(p) && IsCondorcetMatrix(p, rows) && i < |rows| && j < |rows| && i != j
    ensures !(rows[i][j] && rows[j][i])
    ensures Bit(rows[i][j]) + Bit(rows[j][i]) == 1 <==> 2 * Support(p.votes, p.active[i], p.active[j]) != |p.votes|
  {
    SortedNoDup(p.active);
    SupportSplits(p, p.active[i], p.active[j]);
  }

  /** Two voters who disagree: a valid profile whose Condorcet matrix is all zero. */
  lemma TiedProfileBreaksTheComment(a: CandidateId, b: CandidateId, rows: BoolMatrix)
    requires Less(a, b) && IsCondorcetMatrix(Opposed(a, b), rows)
    ensures Valid(Opposed(a, b))
    ensures Bit(rows[0][1]) + Bit(rows[1][0]) == 0
  {
    OpposedIsValid(a, b);
    SumOfTwo([a, b], [b, a], Prefers(a, b));
    CondorcetCellsSumToOneIffNotTied(Opposed(a, b), rows, 0, 1);
  }

  lemma RowWinsIffCondorcet(p: Profile, rows: BoolMatrix, i: nat)
    requires Valid(p) && IsCondorcetMatrix(p, rows) && i < |p.active|
    ensures Sum(rows[i], One()) + 1 == |rows[i]| <==> CondorcetWinner(p, p.active[i])
  {
    SortedNoDup(p.active);
    OneShortIffAllOthers(rows[i], i);
    if forall j :: 0 <= j < |rows[i]| && j != i ==> rows[i][j] {
      forall y | y in p.active && y != p.active[i]
        ensures Support(p.votes, p.active[i], y) > Support(p.votes, y, p.active[i])
      {
        var j := Pos(p.active, y);
        assert rows[i][j];
      }
    }
    if CondorcetWinner(p, p.active[i]) {
      forall j | 0 <= j < |rows[i]| && j != i ensures rows[i][j] {
        assert p.active[j] in p.active && p.active[j] != p.active[i];
      }
    }
  }

  /** The decider names `c` exactly when `c` is the Condorcet winner, and nobody exactly when there is none. */
  lemma DeciderFindsCondorcetWinner(p: Profile, rows: BoolMatrix, c: CandidateId)
    requires Valid(p) && IsCondorcetMatrix(p, rows)
    ensures Decide(rows, p.active) == [c] <==> CondorcetWinner(p, c)
    ensures Decide(rows, p.active) == [] <==> !exists d :: CondorcetWinner(p, d)
  {
    DecideFindsFirst(rows, p.active);
    forall i: nat | i < |p.active|
      ensures Sum(rows[i], One()) + 1 == |rows[i]| <==> CondorcetWinner(p, p.active[i])
    {
      RowWinsIffCondorcet(p, rows, i);
    }
    if d :| CondorcetWinner(p, d) {
      var k := Pos(p.active, d);
      assert p.active[k] == d && Sum(rows[k], One()) + 1 == |rows[k]|;
    }
  }

  /** `CondorcetScorer` and `CondorcetDecider` run one after the other. */
  method CondorcetRule(p: Profile, plan: Plan) returns (winners: seq<CandidateId>)
    requires Valid(p) && Numbered(p.active) && p.active != []
    requires Covers(plan, |p.votes|)
    ensures forall c :: winners == [c] <==> CondorcetWinner(p, c)
    ensures winners == [] <==> !exists d :: CondorcetWinner(p, d)
  {
    var m := PairwiseFrom(p, plan);
    var rows := CondorcetFrom(m);
    winners := Decide(rows, p.active);
    forall c ensures winners == [c] <==> CondorcetWinner(p, c) {
      DeciderFindsCondorcetWinner(p, rows, c);
    }
    DeciderFindsCondorcetWinner(p, rows, p.active[0]);
  }
}
