/**
 * Validated voting profiles: models/profile.rs and models/ranking.rs of voting-core.
 */
module Profiles {
  import opened Wrappers
  import opened Sums
  import opened CandidateIds

  type Ballot = seq<CandidateId>

  /** Ballots, most preferred candidate first, and the candidates still taking part. */
  datatype Profile = Profile(votes: seq<Ballot>, active: seq<CandidateId>)

  datatype BallotData = Simple(votes: Ballot) | Scoring(scores: seq<(CandidateId, nat)>)

  datatype ProfileError =
    | NoVoters
    | NoCandidates
    | DifferentVoteLengths
    | DoubleVote(id: nat)
    | CandidateLengthMismatch(voted: nat, named: nat)

  /** `b` ranks exactly the candidates of `active`, each once. */
  ghost predicate Ranks(b: Ballot, active: seq<CandidateId>) {
    NoDup(b) && forall x :: x in b <==> x in active
  }

  /** The invariant the scorers rely on. */
  ghost predicate Valid(p: Profile) {
    p.votes != [] && StrictlySorted(p.active) && forall b :: b in p.votes ==> Ranks(b, p.active)
  }

  /** Two voters who disagree about two candidates. */
  function Opposed(a: CandidateId, b: CandidateId): Profile {
    Profile([[a, b], [b, a]], [a, b])
  }

  lemma OpposedIsValid(a: CandidateId, b: CandidateId)
    requires Less(a, b)
    ensures a != b && Valid(Opposed(a, b))
  {
    LessIrreflexive(a);
    var p := Opposed(a, b);
    forall v | v in p.votes ensures Ranks(v, p.active) {
      assert v == [a, b] || v == [b, a];
    }
  }

  lemma RanksSameLength(b: Ballot, active: seq<CandidateId>)
    requires StrictlySorted(active) && Ranks(b, active)
    ensures |b| == |active| && multiset(b) == multiset(active) && NoDup(active)
  {
    SortedNoDup(active);
    SameElementsSameMultiset(b, active);
    assert |b| == |multiset(b)| && |active| == |multiset(active)|;
  }

  // ----- Looking a candidate up

  /** `Profile::index_of`: a binary search of the sorted active list. */
  method IndexOf(active: seq<CandidateId>, c: CandidateId) returns (r: Option<nat>)
    requires StrictlySorted(active)
    ensures r == if c in active then Some(Pos(active, c)) else None
  {
    SortedNoDup(active);
    var lo, hi := 0, |active|;
    while lo < hi
      invariant 0 <= lo <= hi <= |active|
      invariant forall k :: 0 <= k < |active| && active[k] == c ==> lo <= k < hi
    {
      var mid := (lo + hi) / 2;
      if active[mid] == c {
        PosAt(active, mid);
        return Some(mid);
      } else if Less(active[mid], c) {
        LessAsymmetric(active[mid], c);
        lo := mid + 1;
      } else {
        LessTotal(active[mid], c);
        LessAsymmetric(c, active[mid]);
        hi := mid;
      }
    }
    return None;
  }

  // ----- Building a profile

  function SimpleBallots(ballots: seq<BallotData>): (r: seq<Ballot>)
    ensures forall b :: b in ballots && b.Simple? ==> b.votes in r
    ensures forall v :: v in r ==> Simple(v) in ballots
  {
    if ballots == [] then []
    else
      var last := ballots[|ballots| - 1];
      SimpleBallots(ballots[..|ballots| - 1]) + if last.Simple? then [last.votes] else []
  }

  /** Which of the ballots are simple ones. */
  ghost function SimpleAt(ballots: seq<BallotData>): set<nat> {
    set k: nat | k < |ballots| && ballots[k].Simple?
  }

  /** Every simple ballot is a voter, in order; the others are passed over. */
  lemma {:induction false} SimpleInOrder(ballots: seq<BallotData>) returns (at: seq<nat>)
    ensures ListsInOrder(at, SimpleAt(ballots)) && |at| == |SimpleBallots(ballots)|
    ensures forall j :: 0 <= j < |at| ==>
              at[j] < |ballots| && ballots[at[j]].Simple? && SimpleBallots(ballots)[j] == ballots[at[j]].votes
  {
    at := [];
    if ballots != [] {
      var n := |ballots| - 1;
      at := SimpleInOrder(ballots[..n]);
      SimpleAtNext(ballots, at);
      at := at + if ballots[n].Simple? then [n] else [];
    }
  }

  lemma SimpleAtNext(ballots: seq<BallotData>, at: seq<nat>)
    requires ballots != [] && ListsInOrder(at, SimpleAt(ballots[..|ballots| - 1]))
    ensures var n := |ballots| - 1;
            ListsInOrder(at + if ballots[n].Simple? then [n] else [], SimpleAt(ballots))
  {
    var n := |ballots| - 1;
    var before := SimpleAt(ballots[..n]);
    assert SimpleAt(ballots) == before + if ballots[n].Simple? then {n} else {};
    if ballots[n].Simple? {
      OneMoreListed(at, before, n);
    } else {
      assert at + [] == at;
    }
  }

  /** If all are simple, ballot k is voter k. */
  lemma AllSimple(ballots: seq<BallotData>)
    requires forall k :: 0 <= k < |ballots| ==> ballots[k].Simple?
    ensures |SimpleBallots(ballots)| == |ballots|
    ensures forall k :: 0 <= k < |ballots| ==> SimpleBallots(ballots)[k] == ballots[k].votes
  {
    var at := SimpleInOrder(ballots);
    AllListed(at, SimpleAt(ballots), |ballots|);
  }

  /** The first `k` names, numbered from zero. */
  function NamedIds(names: seq<string>, k: nat): (r: seq<CandidateId>)
    requires k <= |names|
    ensures |r| == k && forall i :: 0 <= i < k ==> r[i] == CandidateId(i, names[i])
  {
    seq(k, i requires 0 <= i < k => CandidateId(i, names[i]))
  }

  ghost predicate SameLengths(vs: seq<Ballot>) {
    forall v :: v in vs ==> |v| == |vs[0]|
  }

  /** Position `i` of `v` is the first to repeat an earlier candidate. */
  ghost predicate RepeatsAt(v: Ballot, i: nat) {
    i < |v| && NoDup(v[..i]) && v[i] in v[..i]
  }

  /** `id` is the candidate reported for the first ballot that votes twice for someone. */
  ghost predicate FirstDouble(vs: seq<Ballot>, id: nat) {
    exists k: nat, i: nat :: k < |vs| && RepeatsAt(vs[k], i) && vs[k][i].id == id
                && forall m :: 0 <= m < k ==> NoDup(vs[m])
  }

  /** The check of every ballot against a set of the candidates seen so far. */
  method FindDouble(value: seq<Ballot>) returns (r: Option<nat>)
    ensures r.None? <==> forall v :: v in value ==> NoDup(v)
    ensures r.Some? ==> FirstDouble(value, r.value)
  {
    for k := 0 to |value|
      invariant forall m :: 0 <= m < k ==> NoDup(value[m])
    {
      var vote := value[k];
      var seen: set<CandidateId> := {};
      for i := 0 to |vote|
        invariant NoDup(vote[..i])
        invariant forall c :: c in seen <==> c in vote[..i]
      {
        if vote[i] in seen {
          assert RepeatsAt(vote, i);
          assert vote[i] in vote[..i] && vote in value;
          return Some(vote[i].id);
        }
        seen := seen + {vote[i]};
        assert vote[..i + 1] == vote[..i] + [vote[i]];
      }
      assert vote[..|vote|] == vote;
    }
    return None;
  }

  /** What validation promises: which error is reported when, and the profile built otherwise. */
  ghost predicate TryFromPost(ballots: seq<BallotData>, names: seq<string>, r: Result<Profile, ProfileError>) {
    var vs := SimpleBallots(ballots);
    && (r == Failure(NoVoters) <==> ballots == [])
    && (r == Failure(NoCandidates) <==> ballots != [] && (vs == [] || [] in vs))
    && (vs != [] && [] !in vs ==>
          && (r == Failure(DifferentVoteLengths) <==> !SameLengths(vs))
          && (SameLengths(vs) ==>
                && (r == Failure(CandidateLengthMismatch(|vs[0]|, |names|)) <==> |vs[0]| > |names|)
                && (|vs[0]| <= |names| ==>
                      if forall v :: v in vs ==> NoDup(v)
                      then r == Success(Profile(vs, NamedIds(names, |vs[0]|)))
                      else r.Failure? && r.error.DoubleVote? && FirstDouble(vs, r.error.id))))
  }

  /** `TryFrom<(Vec<BallotData>, Vec<String>)>`. */
  method TryFrom(ballots: seq<BallotData>, names: seq<string>) returns (r: Result<Profile, ProfileError>)
    ensures TryFromPost(ballots, names, r)
  {
    if ballots == [] {
      return Failure(NoVoters);
    }
    var value: seq<Ballot> := [];
    for n := 0 to |ballots|
      invariant value == SimpleBallots(ballots[..n]) && [] !in value
    {
      assert ballots[..n + 1][..n] == ballots[..n];
      if ballots[n].Simple? {
        if ballots[n].votes == [] {
          assert ballots[n] in ballots;
          return Failure(NoCandidates);
        }
        value := value + [ballots[n].votes];
      }
    }
    assert ballots[..|ballots|] == ballots;
    if value == [] {
      return Failure(NoCandidates);
    }
    if exists row :: 1 <= row < |value| && |value[row]| != |value[0]| {
      return Failure(DifferentVoteLengths);
    }
    assert SameLengths(value) by {
      forall v | v in value ensures |v| == |value[0]| {
        var row :| 0 <= row < |value| && value[row] == v;
      }
    }
    if |value[0]| > |names| {
      return Failure(CandidateLengthMismatch(|value[0]|, |names|));
    }
    var double := FindDouble(value);
    if double.Some? {
      return Failure(DoubleVote(double.value));
    }
    return Success(Profile(value, NamedIds(names, |value[0]|)));
  }

  // ----- Removing candidates

  function WithoutAll(votes: seq<Ballot>, gone: set<CandidateId>): (r: seq<Ballot>)
    ensures |r| == |votes| && forall i :: 0 <= i < |r| ==> r[i] == Without(votes[i], gone)
  {
    seq(|votes|, i requires 0 <= i < |votes| => Without(votes[i], gone))
  }

  /** The profile in which the candidates of `gone` never took part. */
  function Removed(p: Profile, gone: set<CandidateId>): Profile {
    Profile(WithoutAll(p.votes, gone), Without(p.active, gone))
  }

  lemma RemovedKeepsRanking(b: Ballot, active: seq<CandidateId>, gone: set<CandidateId>)
    requires Ranks(b, active)
    ensures Ranks(Without(b, gone), Without(active, gone))
  {
  }

  lemma {:induction false} WithoutSorted(s: seq<CandidateId>, gone: set<CandidateId>)
    requires StrictlySorted(s)
    ensures StrictlySorted(Without(s, gone))
  {
    if s != [] {
      WithoutSorted(s[1..], gone);
      var r := Without(s[1..], gone);
      forall k | 0 <= k < |r| ensures Less(s[0], r[k]) {
        assert r[k] in r;
      }
    }
  }

  /** Every removal keeps the profile invariant. */
  lemma RemovedValid(p: Profile, gone: set<CandidateId>)
    requires Valid(p)
    ensures Valid(Removed(p, gone))
  {
    WithoutSorted(p.active, gone);
    var q := Removed(p, gone);
    forall b | b in q.votes ensures Ranks(b, q.active) {
      var i :| 0 <= i < |q.votes| && q.votes[i] == b;
      assert p.votes[i] in p.votes;
      RemovedKeepsRanking(p.votes[i], p.active, gone);
    }
  }

  /** Removing one group and then another is removing both at once. */
  lemma RemovedCompose(p: Profile, a: set<CandidateId>, b: set<CandidateId>)
    ensures Removed(Removed(p, a), b) == Removed(p, a + b)
  {
    WithoutCompose(p.active, a, b);
    var twice, once := Removed(Removed(p, a), b).votes, Removed(p, a + b).votes;
    forall i | 0 <= i < |p.votes| ensures twice[i] == once[i] {
      WithoutCompose(p.votes[i], a, b);
    }
    assert twice == once;
  }

  function Members(cs: seq<CandidateId>): (r: set<CandidateId>)
    ensures forall c :: c in r <==> c in cs
  {
    set c | c in cs
  }

  /**
   * `Profile<RankingBallot>::remove_candidates`. The new active list is rebuilt by sorting the
   * first shortened ballot; it comes out as the old list without the removed candidates.
   */
  method RemoveCandidates(p: Profile, candidates: seq<CandidateId>) returns (r: Result<Profile, CandidateId>)
    requires Valid(p)
    ensures (forall c :: c in candidates ==> c in p.active) ==> r == Success(Removed(p, Members(candidates)))
    ensures !(forall c :: c in candidates ==> c in p.active) ==>
              && r.Failure? && r.error in candidates && r.error !in p.active
              && forall c :: c in candidates[..Pos(candidates, r.error)] ==> c in p.active
  {
    for k := 0 to |candidates|
      invariant forall m :: 0 <= m < k ==> candidates[m] in p.active
    {
      var found := IndexOf(p.active, candidates[k]);
      if found.None? {
        assert Pos(candidates, candidates[k]) == k by {
          var j := Pos(candidates, candidates[k]);
          assert j <= k && candidates[j] == candidates[k];
        }
        return Failure(candidates[k]);
      }
    }
    var toRemove := Members(candidates);
    var newVotes: seq<Ballot> := [];
    for v := 0 to |p.votes|
      invariant |newVotes| == v
      invariant forall i :: 0 <= i < v ==> newVotes[i] == Without(p.votes[i], toRemove)
    {
      var voterRanking := p.votes[v];
      var newRanking: Ballot := [];
      for i := 0 to |voterRanking|
        invariant newRanking == Without(voterRanking[..i], toRemove)
      {
        assert voterRanking[..i + 1] == voterRanking[..i] + [voterRanking[i]];
        WithoutAppend(voterRanking[..i], [voterRanking[i]], toRemove);
        if voterRanking[i] in toRemove {
          continue;
        }
        newRanking := newRanking + [voterRanking[i]];
      }
      assert voterRanking[..|voterRanking|] == voterRanking;
      newVotes := newVotes + [newRanking];
    }
    var firstBallot := Sorted(newVotes[0]);
    RebuiltActive(p, toRemove, firstBallot);
    assert newVotes == WithoutAll(p.votes, toRemove);
    return Success(Profile(newVotes, firstBallot));
  }

  lemma RebuiltActive(p: Profile, gone: set<CandidateId>, rebuilt: seq<CandidateId>)
    requires Valid(p) && rebuilt == Sorted(Without(p.votes[0], gone))
    ensures rebuilt == Without(p.active, gone)
  {
    assert p.votes[0] in p.votes;
    WithoutNoDup(p.votes[0], gone);
    SortedIsSorted(Without(p.votes[0], gone));
    WithoutSorted(p.active, gone);
    SortedUnique(rebuilt, Without(p.active, gone));
  }

  // ----- Head-to-head counts

  /** 1 on a ballot that ranks `x` before `y`, 0 otherwise. */
  function Prefers(x: CandidateId, y: CandidateId): Ballot -> int {
    (b: Ballot) => if Pos(b, x) < Pos(b, y) then 1 else 0
  }

  /** The number of voters who rank `x` before `y`. */
  function Support(votes: seq<Ballot>, x: CandidateId, y: CandidateId): int {
    Sum(votes, Prefers(x, y))
  }

  lemma {:induction false} SumOverRemoved(
    votes: seq<Ballot>, gone: set<CandidateId>, f: Ballot -> int, g: Ballot -> int)
    requires forall b :: b in votes ==> f(Without(b, gone)) == g(b)
    ensures Sum(WithoutAll(votes, gone), f) == Sum(votes, g)
  {
    if votes != [] {
      SumOverRemoved(votes[1..], gone, f, g);
      assert WithoutAll(votes, gone)[1..] == WithoutAll(votes[1..], gone);
    }
  }

  /** Removing other candidates changes no voter's preference and no head-to-head count. */
  lemma RemovedKeepsSupport(p: Profile, gone: set<CandidateId>, x: CandidateId, y: CandidateId)
    requires x !in gone && y !in gone
    ensures Support(Removed(p, gone).votes, x, y) == Support(p.votes, x, y)
  {
    forall b | b in p.votes ensures Prefers(x, y)(Without(b, gone)) == Prefers(x, y)(b) {
      WithoutKeepsOrder(b, gone, x, y);
    }
    SumOverRemoved(p.votes, gone, Prefers(x, y), Prefers(x, y));
  }

  /** Every voter is on exactly one side of every head-to-head contest. */
  lemma SupportSplits(p: Profile, x: CandidateId, y: CandidateId)
    requires Valid(p) && x in p.active && y in p.active && x != y
    ensures Support(p.votes, x, y) + Support(p.votes, y, x) == |p.votes|
    ensures Support(p.votes, x, y) >= 0
  {
    var one: Ballot -> int := (b: Ballot) => 1;
    SumAdd(p.votes, Prefers(x, y), Prefers(y, x), one);
    SumConst(p.votes, one, 1);
    var zero: Ballot -> int := (b: Ballot) => 0;
    SumConst(p.votes, zero, 0);
    SumLe(p.votes, zero, Prefers(x, y));
  }

  lemma SupportSelf(votes: seq<Ballot>, x: CandidateId)
    ensures Support(votes, x, x) == 0
  {
    SumConst(votes, Prefers(x, x), 0);
  }

  /** `c` strictly beats every other candidate head to head. */
  ghost predicate CondorcetWinner(p: Profile, c: CandidateId) {
    c in p.active && forall y :: y in p.active && y != c ==> Support(p.votes, c, y) > Support(p.votes, y, c)
  }

  /** `c` strictly loses to every other candidate head to head. */
  ghost predicate CondorcetLoser(p: Profile, c: CandidateId) {
    c in p.active && forall y :: y in p.active && y != c ==> Support(p.votes, c, y) < Support(p.votes, y, c)
  }

  /** A Condorcet winner (or loser) stays one of what remains when others are removed. */
  lemma RemovedKeepsCondorcet(p: Profile, gone: set<CandidateId>, c: CandidateId)
    requires c !in gone
    ensures CondorcetWinner(p, c) ==> CondorcetWinner(Removed(p, gone), c)
    ensures CondorcetLoser(p, c) ==> CondorcetLoser(Removed(p, gone), c)
  {
    forall y | y in Removed(p, gone).active
      ensures Support(Removed(p, gone).votes, c, y) == Support(p.votes, c, y)
      ensures Support(Removed(p, gone).votes, y, c) == Support(p.votes, y, c)
    {
      RemovedKeepsSupport(p, gone, c, y);
      RemovedKeepsSupport(p, gone, y, c);
    }
  }
}
