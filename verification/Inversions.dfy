/** How far an order strays from a base order: the number of pairs ranked the other way round. */
module Inversions {
  import opened Sums

  function Below(x: int): int -> int { (y: int) => if y < x then 1 else 0 }

  /** Pairs i < j with s[i] > s[j]. */
  function Inversions(s: seq<int>): int {
    if s == [] then 0 else Sum(s[1..], Below(s[0])) + Inversions(s[1..])
  }

  function Swapped<T>(s: seq<T>, j: nat): (r: seq<T>)
    requires j + 1 < |s|
    ensures |r| == |s|
  {
    s[j := s[j + 1]][j + 1 := s[j]]
  }

  lemma SwappedSameElements<T>(s: seq<T>, j: nat)
    requires j + 1 < |s|
    ensures multiset(Swapped(s, j)) == multiset(s)
  {
  }

  /** Exchanging two different neighbours changes the count by exactly one. */
  lemma {:induction false} NeighbourSwap(s: seq<int>, j: nat)
    requires j + 1 < |s| && s[j] != s[j + 1]
    ensures Inversions(Swapped(s, j)) == Inversions(s) + (if s[j] < s[j + 1] then 1 else -1)
  {
    var r := Swapped(s, j);
    if j == 0 {
      var t := s[2..];
      assert s[1..] == [s[1]] + t && r[1..] == [s[0]] + t;
      assert s[1..][1..] == t && r[1..][1..] == t;
      assert Inversions(s) == Below(s[0])(s[1]) + Sum(t, Below(s[0])) + Sum(t, Below(s[1])) + Inversions(t);
      assert Inversions(r) == Below(s[1])(s[0]) + Sum(t, Below(s[1])) + Sum(t, Below(s[0])) + Inversions(t);
    } else {
      NeighbourSwap(s[1..], j - 1);
      assert r[1..] == Swapped(s[1..], j - 1);
      SwappedSameElements(s[1..], j - 1);
      SumPermuted(s[1..], r[1..], Below(s[0]));
    }
  }

  lemma {:induction false} InversionsNonNegative(s: seq<int>)
    ensures Inversions(s) >= 0
  {
    if s != [] {
      InversionsNonNegative(s[1..]);
      var zero: int -> int := (y: int) => 0;
      SumConst(s[1..], zero, 0);
      SumLe(s[1..], zero, Below(s[0]));
    }
  }

  lemma {:induction false} SortedHasNone(s: seq<int>)
    requires forall i, j :: 0 <= i < j < |s| ==> s[i] <= s[j]
    ensures Inversions(s) == 0
  {
    if s != [] {
      SortedHasNone(s[1..]);
      forall y | y in s[1..] ensures Below(s[0])(y) == 0 {
        var k :| 0 <= k < |s[1..]| && s[1..][k] == y;
        assert s[k + 1] == y;
      }
      SumConst(s[1..], Below(s[0]), 0);
    }
  }

  /** Each entry's place in the base order. */
  function Places(order: seq<string>, base: seq<string>): (r: seq<int>)
    ensures |r| == |order| && forall i :: 0 <= i < |r| ==> r[i] == Pos(base, order[i])
  {
    seq(|order|, i requires 0 <= i < |order| => Pos(base, order[i]))
  }

  /** Pairs that `order` ranks opposite to `base`. */
  function Disagreements(order: seq<string>, base: seq<string>): int {
    Inversions(Places(order, base))
  }

  lemma BaseAgreesWithItself(base: seq<string>)
    requires NoDup(base)
    ensures Disagreements(base, base) == 0
  {
    var p := Places(base, base);
    forall i | 0 <= i < |base| ensures p[i] == i {
      PosAt(base, i);
    }
    SortedHasNone(p);
  }

  lemma PermutationNoDup<T>(s: seq<T>, t: seq<T>)
    requires NoDup(s) && multiset(s) == multiset(t)
    ensures NoDup(t) && forall x :: x in t <==> x in s
  {
    forall x ensures x in t <==> x in s {
      assert x in multiset(t) <==> x in multiset(s);
    }
    forall i, j | 0 <= i < j < |t| ensures t[i] != t[j] {
      if t[i] == t[j] {
        NoDupMultiplicity(s, t[i]);
        TwiceInMultiset(t, i, j);
      }
    }
  }

  lemma TwiceInMultiset<T>(t: seq<T>, i: nat, j: nat)
    requires i < j < |t| && t[i] == t[j]
    ensures multiset(t)[t[i]] >= 2
  {
    assert t == t[..j] + [t[j]] + t[j + 1..];
    assert t[..j] == t[..i] + [t[i]] + t[i + 1..j];
  }

  /** Swapping neighbours of a rearranged base moves the disagreement count by one, up or down. */
  lemma SwapStep(order: seq<string>, base: seq<string>, j: nat)
    requires NoDup(base) && multiset(order) == multiset(base) && j + 1 < |order|
    ensures multiset(Swapped(order, j)) == multiset(base)
    ensures Disagreements(Swapped(order, j), base) == Disagreements(order, base) + 1
         || Disagreements(Swapped(order, j), base) == Disagreements(order, base) - 1
  {
    PermutationNoDup(base, order);
    SwappedSameElements(order, j);
    var a, b := order[j], order[j + 1];
    assert a in order && b in order;
    assert base[Pos(base, a)] == a && base[Pos(base, b)] == b;
    NeighbourSwap(Places(order, base), j);
    assert Places(Swapped(order, j), base) == Swapped(Places(order, base), j);
  }
}
