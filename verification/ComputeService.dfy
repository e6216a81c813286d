/** From the wire format to a validated profile: apps/compute/compute-service/src/lib.rs. */
module ComputeService {
  import opened Wrappers
  import opened Sums
  import opened CandidateIds
  import opened Profiles
  import opened Matrices

  datatype Payload =
    | Ranking(ranking: seq<string>)
    | Approval(approvals: seq<string>)
    | Score(scores: seq<(string, int)>)

  /** A ballot whose payload may be missing. */
  type WireBallot = Option<Payload>

  /** `candidate_map`: when a name repeats, the last position wins. */
  function CandidateMap(names: seq<string>): (m: map<string, nat>)
    ensures forall s :: s in m <==> s in names
    ensures forall s :: s in m ==> m[s] < |names| && names[m[s]] == s
    ensures forall s, j :: s in m && m[s] < j < |names| ==> names[j] != s
  {
    if names == [] then map[]
    else
      var n := |names| - 1;
      assert names == names[..n] + [names[n]];
      CandidateMap(names[..n])[names[n] := n]
  }

  /** `filter_map` over names: unknown names are dropped. */
  function Known(ranking: seq<string>, ids: map<string, nat>): (r: seq<CandidateId>)
    ensures forall c :: c in r ==> c.name in ids && c.id == ids[c.name]
  {
    if ranking == [] then []
    else
      var n := |ranking| - 1;
      var last := ranking[n];
      Known(ranking[..n], ids) + if last in ids then [CandidateId(ids[last], last)] else []
  }

  /** A signed 32-bit value cast to `usize`: a negative one becomes huge. */
  function AsUsize(v: int): (r: nat)
    ensures 0 <= v < TWO_63 ==> r == v
    ensures -TWO_63 <= v < 0 ==> r == TWO_64 + v
  {
    v % TWO_64
  }

  function KnownScores(scores: seq<(string, int)>, ids: map<string, nat>): seq<(CandidateId, nat)> {
    if scores == [] then []
    else
      var n := |scores| - 1;
      var (last, value) := scores[n];
      KnownScores(scores[..n], ids) + if last in ids then [(CandidateId(ids[last], last), AsUsize(value))] else []
  }

  // ----- What a ballot says is kept, in order

  /** Where the known names stand. */
  ghost function KnownAt(names: seq<string>, ids: map<string, nat>): set<nat> {
    set k: nat | k < |names| && names[k] in ids
  }

  function NamesOf(scores: seq<(string, int)>): (r: seq<string>)
    ensures |r| == |scores| && forall k :: 0 <= k < |r| ==> r[k] == scores[k].0
  {
    seq(|scores|, k requires 0 <= k < |scores| => scores[k].0)
  }

  ghost predicate IsNamed(c: CandidateId, name: string, ids: map<string, nat>) {
    name in ids && c == CandidateId(ids[name], name)
  }

  /** Entry j of `v` is the name at place `at[j]`. */
  ghost predicate NamesPlaced(names: seq<string>, ids: map<string, nat>, v: Ballot, at: seq<nat>) {
    |at| == |v| && forall j :: 0 <= j < |v| ==> at[j] < |names| && IsNamed(v[j], names[at[j]], ids)
  }

  /** `v` holds exactly the known names, in the order in which they are listed. */
  ghost predicate ReadsNames(names: seq<string>, ids: map<string, nat>, v: Ballot) {
    exists at: seq<nat> :: ListsInOrder(at, KnownAt(names, ids)) && NamesPlaced(names, ids, v, at)
  }

  ghost predicate ScoresPlaced(
    scores: seq<(string, int)>, ids: map<string, nat>, v: seq<(CandidateId, nat)>, at: seq<nat>)
  {
    |at| == |v|
    && forall j :: 0 <= j < |v| ==>
         at[j] < |scores| && IsNamed(v[j].0, scores[at[j]].0, ids) && v[j].1 == AsUsize(scores[at[j]].1)
  }

  /** The same for scores, each name with its own value. */
  ghost predicate ReadsScores(scores: seq<(string, int)>, ids: map<string, nat>, v: seq<(CandidateId, nat)>) {
    exists at: seq<nat> :: ListsInOrder(at, KnownAt(NamesOf(scores), ids)) && ScoresPlaced(scores, ids, v, at)
  }

  ghost predicate Reads(payload: Payload, ids: map<string, nat>, b: BallotData) {
    match payload
    case Ranking(r) => b.Simple? && ReadsNames(r, ids, b.votes)
    case Approval(a) => b.Simple? && ReadsNames(a, ids, b.votes)
    case Score(s) => b.Scoring? && ReadsScores(s, ids, b.scores)
  }

  /** One more name: its place is listed if it is known. */
  lemma KnownAtNext(names: seq<string>, ids: map<string, nat>, at: seq<nat>)
    requires names != [] && ListsInOrder(at, KnownAt(names[..|names| - 1], ids))
    ensures var n := |names| - 1;
            ListsInOrder(at + if names[n] in ids then [n] else [], KnownAt(names, ids))
  {
    var n := |names| - 1;
    var before := KnownAt(names[..n], ids);
    assert KnownAt(names, ids) == before + if names[n] in ids then {n} else {};
    if names[n] in ids {
      OneMoreListed(at, before, n);
    } else {
      assert at + [] == at;
    }
  }

  lemma {:induction false} KnownReads(names: seq<string>, ids: map<string, nat>) returns (at: seq<nat>)
    ensures ListsInOrder(at, KnownAt(names, ids)) && NamesPlaced(names, ids, Known(names, ids), at)
    ensures ReadsNames(names, ids, Known(names, ids))
  {
    at := [];
    if names != [] {
      var n := |names| - 1;
      at := KnownReads(names[..n], ids);
      KnownAtNext(names, ids, at);
      at := at + if names[n] in ids then [n] else [];
    }
  }

  lemma {:induction false} KnownScoresRead(scores: seq<(string, int)>, ids: map<string, nat>) returns (at: seq<nat>)
    ensures ListsInOrder(at, KnownAt(NamesOf(scores), ids)) && ScoresPlaced(scores, ids, KnownScores(scores, ids), at)
    ensures ReadsScores(scores, ids, KnownScores(scores, ids))
  {
    at := [];
    if scores != [] {
      var n := |scores| - 1;
      at := KnownScoresRead(scores[..n], ids);
      assert NamesOf(scores)[..n] == NamesOf(scores[..n]);
      KnownAtNext(NamesOf(scores), ids, at);
      ScoresPlacedNext(scores, ids, at);
      at := at + if scores[n].0 in ids then [n] else [];
    }
  }

  lemma ScoresPlacedNext(scores: seq<(string, int)>, ids: map<string, nat>, at: seq<nat>)
    requires scores != []
    requires var n := |scores| - 1; ScoresPlaced(scores[..n], ids, KnownScores(scores[..n], ids), at)
    ensures var n := |scores| - 1;
            ScoresPlaced(scores, ids, KnownScores(scores, ids), at + if scores[n].0 in ids then [n] else [])
  {
  }

  /** With all names known, entry i is the i-th name. */
  lemma AllKnownRead(names: seq<string>, ids: map<string, nat>, v: Ballot)
    requires ReadsNames(names, ids, v) && forall k :: 0 <= k < |names| ==> names[k] in ids
    ensures |v| == |names| && forall i :: 0 <= i < |v| ==> v[i] == CandidateId(ids[names[i]], names[i])
  {
    var at: seq<nat> :| ListsInOrder(at, KnownAt(names, ids)) && NamesPlaced(names, ids, v, at);
    AllListed(at, KnownAt(names, ids), |names|);
  }

  lemma AllKnownScoresRead(scores: seq<(string, int)>, ids: map<string, nat>, v: seq<(CandidateId, nat)>)
    requires ReadsScores(scores, ids, v) && forall k :: 0 <= k < |scores| ==> scores[k].0 in ids
    ensures |v| == |scores|
    ensures forall i :: 0 <= i < |v| ==>
              v[i] == (CandidateId(ids[scores[i].0], scores[i].0), AsUsize(scores[i].1))
  {
    var at: seq<nat> :| ListsInOrder(at, KnownAt(NamesOf(scores), ids)) && ScoresPlaced(scores, ids, v, at);
    AllListed(at, KnownAt(NamesOf(scores), ids), |scores|);
  }

  function Parsed(payload: Payload, ids: map<string, nat>): BallotData {
    match payload
    case Ranking(r) => Simple(Known(r, ids))
    case Approval(a) => Simple(Known(a, ids))
    case Score(s) => Scoring(KnownScores(s, ids))
  }

  function ParsedAll(wire: seq<WireBallot>, ids: map<string, nat>): (r: seq<BallotData>)
    requires None !in wire
    ensures |r| == |wire| && forall k :: 0 <= k < |r| ==> wire[k].Some? && r[k] == Parsed(wire[k].value, ids)
  {
    assert forall k :: 0 <= k < |wire| ==> wire[k] in wire && wire[k].Some?;
    seq(|wire|, k requires 0 <= k < |wire| => Parsed(wire[k].value, ids))
  }

  /** Ballot k is read from payload k. */
  ghost predicate AllRead(wire: seq<WireBallot>, ids: map<string, nat>, ballots: seq<BallotData>) {
    |ballots| == |wire|
    && forall k :: 0 <= k < |wire| ==> wire[k].Some? && Reads(wire[k].value, ids, ballots[k])
  }

  lemma ParsedReads(payload: Payload, ids: map<string, nat>)
    ensures Reads(payload, ids, Parsed(payload, ids))
  {
    match payload
    case Ranking(r) => var at := KnownReads(r, ids);
    case Approval(a) => var at := KnownReads(a, ids);
    case Score(s) => var at := KnownScoresRead(s, ids);
  }

  lemma AllParsedRead(wire: seq<WireBallot>, ids: map<string, nat>)
    requires None !in wire
    ensures AllRead(wire, ids, ParsedAll(wire, ids))
  {
    var ballots := ParsedAll(wire, ids);
    forall k | 0 <= k < |wire| ensures wire[k].Some? && Reads(wire[k].value, ids, ballots[k]) {
      ParsedReads(wire[k].value, ids);
    }
  }

  /** `parse_ballots`: all ballots of all batches in order, or an error if any has no payload. */
  method ParseBallots(batches: seq<seq<WireBallot>>, ids: map<string, nat>) returns (r: Result<seq<BallotData>, string>)
    ensures r.Failure? <==> None in Flatten(batches)
    ensures r.Success? ==> r.value == ParsedAll(Flatten(batches), ids) && AllRead(Flatten(batches), ids, r.value)
  {
    var ballots: seq<BallotData> := [];
    for i := 0 to |batches|
      invariant |ballots| == |Flatten(batches[..i])|
      invariant None !in Flatten(batches[..i])
      invariant forall k :: 0 <= k < |ballots| ==> ballots[k] == Parsed(Flatten(batches[..i])[k].value, ids)
    {
      ghost var done := Flatten(batches[..i]);
      assert batches[..i + 1][..i] == batches[..i];
      var batch := batches[i];
      for j := 0 to |batch|
        invariant |ballots| == |done + batch[..j]|
        invariant None !in done + batch[..j]
        invariant forall k :: 0 <= k < |ballots| ==> ballots[k] == Parsed((done + batch[..j])[k].value, ids)
      {
        assert batch[..j + 1] == batch[..j] + [batch[j]];
        if batch[j].None? {
          FlattenPrefix(batches, i + 1);
          assert batch[j] in Flatten(batches[..i + 1]);
          return Failure("empty ballot paylod");
        }
        ballots := ballots + [Parsed(batch[j].value, ids)];
      }
      assert batch[..|batch|] == batch;
    }
    assert batches[..|batches|] == batches;
    AllParsedRead(Flatten(batches), ids);
    return Success(ballots);
  }

  lemma {:induction false} FlattenPrefix<T>(batches: seq<seq<T>>, i: nat)
    requires i <= |batches|
    ensures forall x :: x in Flatten(batches[..i]) ==> x in Flatten(batches)
    decreases |batches|
  {
    var n := |batches|;
    if i == n {
      assert batches[..n] == batches;
    } else {
      FlattenPrefix(batches[..n - 1], i);
      assert batches[..n - 1][..i] == batches[..i];
    }
  }

  // ----- What `try_from` accepts

  /** `p` is what `try_from` builds from these ballots and names. */
  ghost predicate Accepted(ballots: seq<BallotData>, names: seq<string>, p: Profile) {
    var vs := SimpleBallots(ballots);
    && vs != [] && [] !in vs && SameLengths(vs) && |vs[0]| <= |names|
    && (forall v :: v in vs ==> NoDup(v))
    && p == Profile(vs, NamedIds(names, |vs[0]|))
  }

  /** Some profile can be built: ballots of one length that fits the names, none of them empty or voting twice. */
  ghost predicate Acceptable(ballots: seq<BallotData>, names: seq<string>) {
    exists p :: Accepted(ballots, names, p)
  }

  ghost predicate FromMap(ballots: seq<BallotData>, ids: map<string, nat>) {
    forall v, c :: v in SimpleBallots(ballots) && c in v ==> c.name in ids && c.id == ids[c.name]
  }

  /** Each ballot entry carries the number the candidate map gives its name. */
  lemma ParsedFromMap(wire: seq<WireBallot>, names: seq<string>)
    requires None !in wire
    ensures FromMap(ParsedAll(wire, CandidateMap(names)), CandidateMap(names))
  {
  }

  /** Every ballot names only the first |active| candidates. */
  ghost predicate WithinFirst(p: Profile) {
    forall v: Ballot, c :: v in p.votes && c in v ==> c.id < |p.active|
  }

  lemma FirstNamesSorted(names: seq<string>, k: nat)
    requires k <= |names|
    ensures StrictlySorted(NamedIds(names, k)) && Numbered(NamedIds(names, k))
  {
  }

  /**
   * An accepted profile is one on which every `index_of(..).unwrap()` succeeds exactly when the
   * ballots stay within the first |active| names.
   */
  lemma AcceptedIsValidIff(ballots: seq<BallotData>, names: seq<string>, p: Profile)
    requires FromMap(ballots, CandidateMap(names)) && Accepted(ballots, names, p)
    ensures Numbered(p.active)
    ensures Valid(p) <==> WithinFirst(p)
    ensures Valid(p) <==> forall v: Ballot, c :: v in p.votes && c in v ==> c in p.active
  {
    var n := |p.active|;
    FirstNamesSorted(names, n);
    forall v: Ballot, c | v in p.votes && c in v ensures c.id < n <==> c in p.active {
      assert names[c.id] == c.name;
      if c.id < n { assert p.active[c.id] == c; }
    }
    if forall v: Ballot, c :: v in p.votes && c in v ==> c in p.active {
      forall v | v in p.votes ensures Ranks(v, p.active) {
        SortedNoDup(p.active);
        Pigeonhole(p.active, Members(p.active));
        Pigeonhole(v, Members(p.active));
        SetOfDistinct(p.active);
      }
    }
  }

  lemma {:induction false} SetOfDistinct(s: seq<CandidateId>)
    requires NoDup(s)
    ensures |Members(s)| == |s|
  {
    if s == [] {
      assert Members(s) == {};
    } else {
      SetOfDistinct(s[1..]);
      assert s == [s[0]] + s[1..] && s[0] !in s[1..];
      assert Members(s) == Members(s[1..]) + {s[0]};
    }
  }

  /** Full-length ballots are always safe, and they force the candidate names to be distinct. */
  lemma FullLengthIsValid(ballots: seq<BallotData>, names: seq<string>, p: Profile)
    requires FromMap(ballots, CandidateMap(names)) && Accepted(ballots, names, p)
    requires |p.active| == |names|
    ensures Valid(p) && NoDup(names)
  {
    var ids := CandidateMap(names);
    forall v: Ballot, c | v in p.votes && c in v ensures c.id < |p.active| {
      assert c.id == ids[c.name];
    }
    AcceptedIsValidIff(ballots, names, p);
    var v := p.votes[0];
    assert v in p.votes;
    forall i | 0 <= i < |names| ensures ids[names[i]] == i {
      assert p.active[i] in p.active && p.active[i] in v;
    }
    forall i, j | 0 <= i < j < |names| ensures names[i] != names[j] {
      assert ids[names[i]] == i && ids[names[j]] == j;
    }
  }

  /**
   * Ballots shorter than the name list can be accepted and still break the lookup: with two
   * candidates, a ballot ranking only the second is accepted with the first as the only active one.
   */
  lemma ShortBallotBreaksLookup(first: string, second: string, p: Profile)
    requires first != second
    requires p == Profile([[CandidateId(1, second)]], [CandidateId(0, first)])
    ensures Accepted([Simple(Known([second], CandidateMap([first, second])))], [first, second], p)
    ensures CandidateId(1, second) in p.votes[0] && CandidateId(1, second) !in p.active && !Valid(p)
  {
    var c := CandidateId(1, second);
    ParseSecondName(first, second);
    OneSimpleBallot([c]);
    assert p.votes[0] in p.votes && c in p.votes[0];
    assert NamedIds([first, second], 1) == [CandidateId(0, first)];
  }

  lemma ParseSecondName(first: string, second: string)
    requires first != second
    ensures Known([second], CandidateMap([first, second])) == [CandidateId(1, second)]
  {
  }

  lemma OneSimpleBallot(v: Ballot)
    ensures SimpleBallots([Simple(v)]) == [v]
  {
  }

  /** `process_request` up to the ranking rules: build the map and names, parse, validate. */
  method BuildProfile(batches: seq<seq<WireBallot>>, names: seq<string>) returns (r: Result<Profile, string>)
    ensures r.Success? <==> None !in Flatten(batches)
                            && Acceptable(ParsedAll(Flatten(batches), CandidateMap(names)), names)
    ensures r.Success? ==> Accepted(ParsedAll(Flatten(batches), CandidateMap(names)), names, r.value)
    ensures r.Success? ==> (Valid(r.value) <==> WithinFirst(r.value))
    ensures r.Success? && |r.value.active| == |names| ==> Valid(r.value) && NoDup(names)
  {
    var ids := CandidateMap(names);
    var parsed := ParseBallots(batches, ids);
    if parsed.Failure? {
      return Failure(parsed.error);
    }
    var profile := TryFrom(parsed.value, names);
    AcceptableIff(parsed.value, names, profile);
    if profile.Failure? {
      return Failure("invalid profile");
    }
    AcceptedBySuccess(parsed.value, names, profile);
    ParsedFromMap(Flatten(batches), names);
    AcceptedIsValidIff(parsed.value, names, profile.value);
    if |profile.value.active| == |names| {
      FullLengthIsValid(parsed.value, names, profile.value);
    }
    return Success(profile.value);
  }

  /** Rankings of known names reach the profile as they were sent: voter k's i-th choice is the i-th name. */
  lemma RankingsArrive(wire: seq<WireBallot>, names: seq<string>, p: Profile, k: nat)
    requires None !in wire && Accepted(ParsedAll(wire, CandidateMap(names)), names, p) && k < |wire|
    requires forall m :: 0 <= m < |wire| && wire[m].Some? ==> wire[m].value.Ranking?
    requires forall i :: 0 <= i < |wire[k].value.ranking| ==> wire[k].value.ranking[i] in names
    ensures |p.votes| == |wire| && |p.votes[k]| == |wire[k].value.ranking|
    ensures forall i :: 0 <= i < |p.votes[k]| ==>
              IsNamed(p.votes[k][i], wire[k].value.ranking[i], CandidateMap(names))
  {
    var ids := CandidateMap(names);
    var ballots := ParsedAll(wire, ids);
    AllParsedRead(wire, ids);
    AllSimple(ballots);
    AllKnownRead(wire[k].value.ranking, ids, p.votes[k]);
  }

  /** Validation succeeds exactly on what it can accept. */
  lemma AcceptableIff(ballots: seq<BallotData>, names: seq<string>, r: Result<Profile, ProfileError>)
    requires TryFromPost(ballots, names, r)
    ensures r.Success? <==> Acceptable(ballots, names)
  {
    var vs := SimpleBallots(ballots);
    if ballots == [] {
      assert vs == [];
    }
    if r.Success? {
      assert Accepted(ballots, names, r.value);
    }
  }

  lemma AcceptedBySuccess(ballots: seq<BallotData>, names: seq<string>, r: Result<Profile, ProfileError>)
    requires r.Success? && TryFromPost(ballots, names, r)
    ensures Accepted(ballots, names, r.value)
  {
  }
}
