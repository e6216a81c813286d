/** The lexicographic order Rust derives for vectors and strings, and Go uses for strings. */
module Orders {

  /** Element by element; a proper prefix comes first. */
  predicate LexLess(s: seq<int>, t: seq<int>) {
    t != [] && (s == [] || s[0] < t[0] || (s[0] == t[0] && LexLess(s[1..], t[1..])))
  }

  /** Place `k` is the first at which `s` and `t` differ, and there `s` has ended or is smaller. */
  ghost predicate SmallerAt(s: seq<int>, t: seq<int>, k: nat) {
    k <= |s| && k < |t| && s[..k] == t[..k] && (k == |s| || s[k] < t[k])
  }

  lemma SmallerAtNext(s: seq<int>, t: seq<int>, k: nat)
    requires s != [] && t != [] && s[0] == t[0]
    ensures SmallerAt(s, t, k + 1) <==> SmallerAt(s[1..], t[1..], k)
  {
    if k + 1 <= |s| && k + 1 <= |t| {
      assert s[..k + 1] == [s[0]] + s[1..][..k] && t[..k + 1] == [t[0]] + t[1..][..k];
    }
  }

  lemma SameHead(s: seq<int>, t: seq<int>, k: nat)
    requires SmallerAt(s, t, k)
    ensures k > 0 ==> s != [] && t != [] && s[0] == t[0]
  {
    if k > 0 {
      assert s[..k][0] == s[0] && t[..k][0] == t[0];
    }
  }

  /** `s` comes before `t` exactly when it is smaller, or has ended, at the first place where they differ. */
  lemma {:induction false} LexLessIff(s: seq<int>, t: seq<int>)
    ensures LexLess(s, t) <==> exists k: nat :: SmallerAt(s, t, k)
  {
    if s != [] && t != [] && s[0] == t[0] {
      LexLessIff(s[1..], t[1..]);
      if k: nat :| SmallerAt(s[1..], t[1..], k) {
        SmallerAtNext(s, t, k);
      }
      if k: nat :| SmallerAt(s, t, k) {
        assert k > 0;
        SmallerAtNext(s, t, k - 1);
      }
    } else {
      assert LexLess(s, t) ==> SmallerAt(s, t, 0);
      forall k: nat | SmallerAt(s, t, k) ensures LexLess(s, t) {
        SameHead(s, t, k);
      }
    }
  }

  lemma {:induction false} LexIrreflexive(s: seq<int>)
    ensures !LexLess(s, s)
  {
    if s != [] {
      LexIrreflexive(s[1..]);
    }
  }

  lemma {:induction false} LexTransitive(s: seq<int>, t: seq<int>, u: seq<int>)
    requires LexLess(s, t) && LexLess(t, u)
    ensures LexLess(s, u)
  {
    if s != [] && s[0] == t[0] == u[0] {
      LexTransitive(s[1..], t[1..], u[1..]);
    }
  }

  lemma {:induction false} LexTotal(s: seq<int>, t: seq<int>)
    ensures LexLess(s, t) || s == t || LexLess(t, s)
  {
    if s != [] && t != [] && s[0] == t[0] {
      LexTotal(s[1..], t[1..]);
      assert s == [s[0]] + s[1..] && t == [t[0]] + t[1..];
    }
  }

  /** The code points of a string; comparing UTF-8 bytes and comparing code points agree. */
  function Codes(s: string): (c: seq<int>)
    ensures |c| == |s| && forall i :: 0 <= i < |s| ==> c[i] == s[i] as int
  {
    seq(|s|, i requires 0 <= i < |s| => s[i] as int)
  }

  predicate StringLess(s: string, t: string) {
    LexLess(Codes(s), Codes(t))
  }

  lemma StringTotal(s: string, t: string)
    ensures StringLess(s, t) || s == t || StringLess(t, s)
  {
    LexTotal(Codes(s), Codes(t));
    if Codes(s) == Codes(t) {
      assert |s| == |t|;
      forall i | 0 <= i < |s| ensures s[i] == t[i] {
        assert Codes(s)[i] == Codes(t)[i];
      }
    }
  }
}

/** Sorting by a strict total order, as `Vec::sort` and `sort.Strings` do. */
module Sorting {
  import opened Sums

  ghost predicate StrictOrder<T(!new)>(less: (T, T) -> bool) {
    && (forall x :: !less(x, x))
    && (forall x, y, z :: less(x, y) && less(y, z) ==> less(x, z))
    && (forall x, y :: less(x, y) || x == y || less(y, x))
  }

  ghost predicate SortedBy<T>(less: (T, T) -> bool, s: seq<T>) {
    forall i, j :: 0 <= i < j < |s| ==> less(s[i], s[j])
  }

  lemma SortedByNoDup<T(!new)>(less: (T, T) -> bool, s: seq<T>)
    requires StrictOrder(less) && SortedBy(less, s)
    ensures NoDup(s)
  {
  }

  /** The sorted arrangement of a set of elements is unique. */
  lemma {:induction false} SortedByUnique<T(!new)>(less: (T, T) -> bool, s: seq<T>, t: seq<T>)
    requires StrictOrder(less) && SortedBy(less, s) && SortedBy(less, t)
    requires forall x :: x in s <==> x in t
    ensures s == t
  {
    assert s != [] ==> s[0] in t;
    assert t != [] ==> t[0] in s;
    if s != [] {
      SortedByNoDup(less, s);
      SortedByNoDup(less, t);
      var i, j := Pos(t, s[0]), Pos(s, t[0]);
      assert t[i] == s[0] && s[j] == t[0];
      assert s[0] == t[0];
      forall x ensures x in s[1..] <==> x in t[1..] {
        NoDupTail(s, x);
        NoDupTail(t, x);
      }
      SortedByUnique(less, s[1..], t[1..]);
      assert s == [s[0]] + s[1..] && t == [t[0]] + t[1..];
    }
  }

  function InsertBy<T(!new)>(less: (T, T) -> bool, x: T, s: seq<T>): (r: seq<T>)
    ensures forall y :: y in r <==> y == x || y in s
  {
    if s == [] || !less(s[0], x) then [x] + s
    else [s[0]] + InsertBy(less, x, s[1..])
  }

  function SortBy<T(!new)>(less: (T, T) -> bool, s: seq<T>): (r: seq<T>)
    ensures forall y :: y in r <==> y in s
  {
    if s == [] then [] else InsertBy(less, s[0], SortBy(less, s[1..]))
  }

  lemma {:induction false} InsertBySorted<T(!new)>(less: (T, T) -> bool, x: T, s: seq<T>)
    requires StrictOrder(less) && SortedBy(less, s) && x !in s
    ensures SortedBy(less, InsertBy(less, x, s))
  {
    if s == [] {
    } else if !less(s[0], x) {
      assert s[0] in s;
      forall k | 0 <= k < |s| ensures less(x, s[k]) {
        assert k > 0 ==> less(s[0], s[k]);
      }
    } else {
      InsertBySorted(less, x, s[1..]);
      var r := InsertBy(less, x, s[1..]);
      forall k | 0 <= k < |r| ensures less(s[0], r[k]) {
        assert r[k] in r;
      }
    }
  }

  /** Sorting duplicate-free elements gives a strictly sorted list of them. */
  lemma {:induction false} SortByIsSorted<T(!new)>(less: (T, T) -> bool, s: seq<T>)
    requires StrictOrder(less) && NoDup(s)
    ensures SortedBy(less, SortBy(less, s))
  {
    if s != [] {
      SortByIsSorted(less, s[1..]);
      assert s[0] !in s[1..];
      InsertBySorted(less, s[0], SortBy(less, s[1..]));
    }
  }
}

/** Candidate identifiers: apps/compute/voting-core/src/models/candidate_id.rs. */
module CandidateIds {
  import opened Orders
  import opened Sorting
  import opened Sums

  datatype CandidateId = CandidateId(id: nat, name: string)

  /** The derived order: by numeric id, then by name. */
  predicate Less(a: CandidateId, b: CandidateId) {
    a.id < b.id || (a.id == b.id && StringLess(a.name, b.name))
  }

  lemma LessTransitive(a: CandidateId, b: CandidateId, c: CandidateId)
    requires Less(a, b) && Less(b, c)
    ensures Less(a, c)
  {
    if a.id == b.id == c.id {
      LexTransitive(Codes(a.name), Codes(b.name), Codes(c.name));
    }
  }

  lemma LessIrreflexive(a: CandidateId)
    ensures !Less(a, a)
  {
    LexIrreflexive(Codes(a.name));
  }

  lemma LessAsymmetric(a: CandidateId, b: CandidateId)
    requires Less(a, b)
    ensures !Less(b, a)
  {
    if Less(b, a) {
      LessTransitive(a, b, a);
      LessIrreflexive(a);
    }
  }

  lemma LessTotal(a: CandidateId, b: CandidateId)
    ensures Less(a, b) || a == b || Less(b, a)
  {
    StringTotal(a.name, b.name);
  }

  ghost predicate StrictlySorted(s: seq<CandidateId>) {
    forall i, j :: 0 <= i < j < |s| ==> Less(s[i], s[j])
  }

  lemma SortedNoDup(s: seq<CandidateId>)
    requires StrictlySorted(s)
    ensures NoDup(s)
  {
    forall i, j | 0 <= i < j < |s| ensures s[i] != s[j] {
      LessIrreflexive(s[i]);
    }
  }

  /** The derived order as a value to sort by. */
  function ById(): (CandidateId, CandidateId) -> bool {
    (a: CandidateId, b: CandidateId) => Less(a, b)
  }

  lemma ByIdIsStrictOrder()
    ensures StrictOrder(ById())
  {
    forall x ensures !ById()(x, x) {
      LessIrreflexive(x);
    }
    forall x, y, z | ById()(x, y) && ById()(y, z) ensures ById()(x, z) {
      LessTransitive(x, y, z);
    }
    forall x, y ensures ById()(x, y) || x == y || ById()(y, x) {
      LessTotal(x, y);
    }
  }

  lemma SortedUnique(s: seq<CandidateId>, t: seq<CandidateId>)
    requires StrictlySorted(s) && StrictlySorted(t)
    requires forall x :: x in s <==> x in t
    ensures s == t
  {
    ByIdIsStrictOrder();
    SortedByUnique(ById(), s, t);
  }

  /** What `Vec::sort` does to a ballot. */
  function Sorted(s: seq<CandidateId>): (r: seq<CandidateId>)
    ensures forall y :: y in r <==> y in s
  {
    SortBy(ById(), s)
  }

  lemma SortedIsSorted(s: seq<CandidateId>)
    requires NoDup(s)
    ensures StrictlySorted(Sorted(s))
  {
    ByIdIsStrictOrder();
    SortByIsSorted(ById(), s);
    var r := Sorted(s);
    forall i, j | 0 <= i < j < |r| ensures Less(r[i], r[j]) {
      assert ById()(r[i], r[j]);
    }
  }
}
