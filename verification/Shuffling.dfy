/** Random orders: `shuffle` and `pickSubset` of datasets/other.go. */
module Shuffling {
  import opened Sums
  import opened Inversions
  import opened Random

  ghost predicate Rearranges(out: seq<string>, base: seq<string>) {
    multiset(out) == multiset(base)
  }

  lemma RearrangedLength(out: seq<string>, base: seq<string>)
    requires Rearranges(out, base)
    ensures |out| == |base|
  {
    assert |multiset(out)| == |out| && |multiset(base)| == |base|;
  }

  function Exchanged(s: seq<string>, i: nat, j: nat): (r: seq<string>)
    requires i < |s| && j < |s|
    ensures |r| == |s|
  {
    s[i := s[j]][j := s[i]]
  }

  /** The draws fit: the first one is below n, the next below n-1, and so on down to 2. */
  ghost predicate DrawsFit(draws: seq<nat>, n: nat) {
    |draws| == (if n == 0 then 0 else n - 1) && forall k :: 0 <= k < |draws| ==> draws[k] < n - k
  }

  /** The order a sequence of draws deals: each draw picks who goes last among those left. */
  function Dealt(items: seq<string>, draws: seq<nat>): (r: seq<string>)
    requires |draws| == (if |items| == 0 then 0 else |items| - 1)
    requires forall k :: 0 <= k < |draws| ==> draws[k] < |items| - k
    ensures |r| == |items|
    decreases |items|
  {
    if |items| < 2 then items
    else
      var n := |items| - 1;
      var s := Exchanged(items, n, draws[0]);
      Dealt(s[..n], draws[1..]) + [s[n]]
  }

  lemma {:induction false} DealtRearranges(items: seq<string>, draws: seq<nat>)
    requires DrawsFit(draws, |items|)
    ensures Rearranges(Dealt(items, draws), items)
    decreases |items|
  {
    if |items| >= 2 {
      var n := |items| - 1;
      var s := Exchanged(items, n, draws[0]);
      assert multiset(s) == multiset(items);
      assert s == s[..n] + [s[n]];
      DealtRearranges(s[..n], draws[1..]);
    }
  }

  lemma ExchangedNoDup(items: seq<string>, j: nat)
    requires NoDup(items) && j < |items|
    ensures NoDup(Exchanged(items, |items| - 1, j)[..|items| - 1])
  {
  }

  /** Different draws deal different orders. */
  lemma {:induction false} DrawsDetermined(items: seq<string>, a: seq<nat>, b: seq<nat>)
    requires NoDup(items) && DrawsFit(a, |items|) && DrawsFit(b, |items|)
    requires Dealt(items, a) == Dealt(items, b)
    ensures a == b
    decreases |items|
  {
    if |items| >= 2 {
      var n := |items| - 1;
      var s, t := Exchanged(items, n, a[0]), Exchanged(items, n, b[0]);
      assert Dealt(items, a)[n] == s[n] == items[a[0]];
      assert Dealt(items, b)[n] == t[n] == items[b[0]];
      assert a[0] == b[0];
      assert Dealt(s[..n], a[1..]) == Dealt(items, a)[..n];
      assert Dealt(t[..n], b[1..]) == Dealt(items, b)[..n];
      ExchangedNoDup(items, a[0]);
      DrawsDetermined(s[..n], a[1..], b[1..]);
      assert a == [a[0]] + a[1..] && b == [b[0]] + b[1..];
    }
  }

  lemma ShortOrderSame(items: seq<string>, order: seq<string>)
    requires Rearranges(order, items) && |items| < 2
    ensures order == items
  {
    RearrangedLength(order, items);
    if |items| == 1 {
      assert order == [order[0]] && items == [items[0]];
      assert order[0] in multiset(items);
    }
  }

  /** Some draw puts the last entry of `order` last, and the rest rearranges the rest. */
  lemma LastCanBeDrawn(items: seq<string>, order: seq<string>) returns (j: nat)
    requires Rearranges(order, items) && |items| >= 2
    ensures |order| == |items| && j < |items| && items[j] == order[|items| - 1]
    ensures Rearranges(order[..|items| - 1], Exchanged(items, |items| - 1, j)[..|items| - 1])
  {
    RearrangedLength(order, items);
    var n := |items| - 1;
    assert order[n] in multiset(items);
    j :| j < |items| && items[j] == order[n];
    var s := Exchanged(items, n, j);
    assert multiset(s) == multiset(items);
    DropSame(order, s, n);
  }

  lemma DrawFirst(items: seq<string>, j: nat, rest: seq<nat>)
    requires |items| >= 2 && j < |items| && DrawsFit(rest, |items| - 1)
    ensures DrawsFit([j] + rest, |items|)
    ensures var n := |items| - 1;
            Dealt(items, [j] + rest) == Dealt(Exchanged(items, n, j)[..n], rest) + [items[j]]
  {
  }

  /** Every rearrangement can be dealt; with `DrawsDetermined`, by exactly one sequence of draws. */
  lemma {:induction false} EveryOrderIsDealt(items: seq<string>, order: seq<string>) returns (draws: seq<nat>)
    requires Rearranges(order, items)
    ensures DrawsFit(draws, |items|) && Dealt(items, draws) == order
    decreases |items|
  {
    if |items| < 2 {
      ShortOrderSame(items, order);
      draws := [];
    } else {
      var n := |items| - 1;
      var j := LastCanBeDrawn(items, order);
      var rest := EveryOrderIsDealt(Exchanged(items, n, j)[..n], order[..n]);
      draws := [j] + rest;
      DrawFirst(items, j, rest);
      assert order == order[..n] + [order[n]];
    }
  }

  lemma DropSame(order: seq<string>, s: seq<string>, n: nat)
    requires |order| == |s| == n + 1 && multiset(order) == multiset(s) && order[n] == s[n]
    ensures multiset(order[..n]) == multiset(s[..n])
  {
    assert order == order[..n] + [order[n]] && s == s[..n] + [s[n]];
    var a, b := multiset(order[..n]), multiset(s[..n]);
    forall x ensures a[x] == b[x] {
      assert (a + multiset{s[n]})[x] == (b + multiset{s[n]})[x];
    }
  }

  /** The draws `shuffle` makes from generator state `s` for `n` items. */
  function LcgDraws(s: Word, n: nat): (r: seq<nat>)
    ensures |r| == (if n == 0 then 0 else n - 1) && forall k :: 0 <= k < |r| ==> r[k] < n - k
    decreases n
  {
    if n < 2 then [] else [After(s) % n] + LcgDraws(After(s), n - 1)
  }

  /** How many draws a shuffle of `n` items makes. */
  function DrawCount(n: nat): nat {
    if n == 0 then 0 else n - 1
  }

  /** What is left to deal, what is settled, and where the generator will end up. */
  ghost predicate Dealing(left: seq<string>, settled: seq<string>, state: Word, result: seq<string>, final: Word) {
    Dealt(left, LcgDraws(state, |left|)) + settled == result && AfterN(state, DrawCount(|left|)) == final
  }

  /** One turn of the loop: the last of those left is settled, the rest is still to be dealt. */
  lemma DealNext(left: seq<string>, settled: seq<string>, state: Word, result: seq<string>, final: Word)
    requires |left| >= 2 && Dealing(left, settled, state, result, final)
    ensures var n := |left| - 1;
            var s := Exchanged(left, n, After(state) % |left|);
            Dealing(s[..n], [s[n]] + settled, After(state), result, final)
  {
  }

  lemma StartDealing(items: seq<string>, state: Word) returns (result: seq<string>)
    ensures result == Dealt(items, LcgDraws(state, |items|)) && Rearranges(result, items)
    ensures Dealing(items, [], state, result, AfterN(state, DrawCount(|items|)))
  {
    result := Dealt(items, LcgDraws(state, |items|));
    DealtRearranges(items, LcgDraws(state, |items|));
    assert result + [] == result;
  }

  lemma DealtAll(left: seq<string>, settled: seq<string>, state: Word, result: seq<string>, final: Word)
    requires |left| < 2 && Dealing(left, settled, state, result, final)
    ensures result == left + settled && state == final
  {
  }

  /** An exchange among those left does not touch the settled ones. */
  lemma ExchangeLeft(left: seq<string>, settled: seq<string>, i: nat, j: nat)
    requires |left| == i + 1 && j <= i
    ensures Exchanged(left + settled, i, j) == Exchanged(left, i, j)[..i] + ([Exchanged(left, i, j)[i]] + settled)
  {
  }

  /** `shuffle`: deals the order its draws determine. */
  method Shuffle(rng: Lcg, items: seq<string>) returns (r: seq<string>)
    modifies rng
    ensures r == Dealt(items, LcgDraws(old(rng.s), |items|))
    ensures rng.s == AfterN(old(rng.s), DrawCount(|items|))
  {
    ghost var result := StartDealing(items, rng.s);
    ghost var final := AfterN(rng.s, DrawCount(|items|));
    var n := |items|;
    var out := new string[n](i requires 0 <= i < n => items[i]);
    var i := n - 1;
    ghost var left, settled := items, [];
    while i > 0
      invariant |left| == i + 1 && out[..] == left + settled
      invariant Dealing(left, settled, rng.s, result, final)
    {
      DealNext(left, settled, rng.s, result, final);
      var draw := rng.Next();
      var j := draw % (i + 1);
      ExchangeLeft(left, settled, i, j);
      ghost var before := out[..];
      out[i], out[j] := out[j], out[i];
      assert out[..] == Exchanged(before, i, j);
      left, settled := Exchanged(left, i, j)[..i], [Exchanged(left, i, j)[i]] + settled;
      i := i - 1;
    }
    DealtAll(left, settled, rng.s, result, final);
    r := out[..];
  }

  // ----- Which orders the generator can deal

  lemma {:induction false} DrawAt(s: Word, n: nat, k: nat)
    requires k + 1 < n
    ensures LcgDraws(s, n)[k] == AfterN(s, k + 1) % (n - k)
    decreases k
  {
    if k > 0 {
      DrawAt(After(s), n - 1, k - 1);
    }
  }

  /**
   * The last draw, between two items, is the parity of the state counted on; the draw among four
   * items is the state counted on modulo 4. So the earlier one decides the later one.
   */
  lemma LastDraws(s: Word, n: nat)
    requires n >= 2
    ensures LcgDraws(s, n)[n - 2] == (s + n - 1) % 2
    ensures n >= 4 ==> LcgDraws(s, n)[n - 4] == (s + 3 * (n - 3)) % 4
    ensures n >= 4 ==> BitsAgree(LcgDraws(s, n), n)
  {
    DrawAt(s, n, n - 2);
    LowBitsCountDraws(s, n - 1);
    if n >= 4 {
      DrawAt(s, n, n - 4);
      LowBitsCountDraws(s, n - 3);
      ParityOfQuarter(s + 3 * (n - 3), s + n - 1, n - 4);
    }
  }

  lemma ParityOfQuarter(x: int, y: int, d: int)
    requires x == y + 2 * d
    ensures (x % 4) % 2 == y % 2
  {
  }

  /** Some generator state deals this order. */
  ghost predicate DealtBySome(items: seq<string>, order: seq<string>) {
    exists s: Word :: Dealt(items, LcgDraws(s, |items|)) == order
  }

  lemma OtherDraws(items: seq<string>, draws: seq<nat>, other: seq<nat>)
    requires NoDup(items) && DrawsFit(draws, |items|) && DrawsFit(other, |items|) && draws != other
    ensures Dealt(items, other) != Dealt(items, draws)
  {
    if Dealt(items, other) == Dealt(items, draws) {
      DrawsDetermined(items, other, draws);
    }
  }

  /** The two draws that share a bit agree on it. */
  predicate BitsAgree(draws: seq<nat>, n: nat)
    requires n >= 4 && |draws| == n - 1
  {
    draws[n - 2] == draws[n - 4] % 2
  }

  /** From four items on, an order whose last draw disagrees with the draw among four is never dealt. */
  lemma NeverDealt(items: seq<string>, draws: seq<nat>)
    requires NoDup(items) && |items| >= 4 && DrawsFit(draws, |items|) && !BitsAgree(draws, |items|)
    ensures !DealtBySome(items, Dealt(items, draws))
  {
    forall s: Word ensures Dealt(items, LcgDraws(s, |items|)) != Dealt(items, draws) {
      LastDraws(s, |items|);
      assert BitsAgree(LcgDraws(s, |items|), |items|);
      OtherDraws(items, draws, LcgDraws(s, |items|));
    }
  }

  lemma DrawsOfThree(a: nat, b: nat) returns (s: Word)
    requires a < 3 && b < 2
    ensures LcgDraws(s, 3) == [a, b]
  {
    var t: Word := a + 3 * ((a + 1 + b) % 2);
    s := Before(t);
    AfterUndoesBefore(t);
    AfterLowBits(t);
    assert LcgDraws(s, 3) == [t % 3] + LcgDraws(t, 2);
    assert LcgDraws(t, 2) == [After(t) % 2] + LcgDraws(After(t), 1);
  }

  /** Up to three items, each sequence of draws that fits comes from some state. */
  lemma DrawsOfFew(draws: seq<nat>, n: nat) returns (s: Word)
    requires n < 4 && DrawsFit(draws, n)
    ensures LcgDraws(s, n) == draws
  {
    if n < 2 {
      s := 0;
    } else if n == 2 {
      s := 1 - draws[0];
      AfterLowBits(s);
      assert LcgDraws(s, 2) == [After(s) % 2] + LcgDraws(After(s), 1);
    } else {
      s := DrawsOfThree(draws[0], draws[1]);
      assert draws == [draws[0], draws[1]];
    }
  }

  /** The generator can deal every order exactly up to three items. */
  lemma EveryOrderDealtIffFew(items: seq<string>)
    requires NoDup(items)
    ensures (forall order :: Rearranges(order, items) ==> DealtBySome(items, order)) <==> |items| < 4
  {
    var n := |items|;
    if n < 4 {
      forall order | Rearranges(order, items) ensures DealtBySome(items, order) {
        var draws := EveryOrderIsDealt(items, order);
        var s := DrawsOfFew(draws, n);
        assert Dealt(items, LcgDraws(s, n)) == order;
      }
    } else {
      var draws := seq(n - 1, k => if k == n - 2 then 1 else 0);
      DealtRearranges(items, draws);
      NeverDealt(items, draws);
    }
  }

  // ----- Subsets

  /** What `pickSubset` returns from state `s`. */
  function Subset(items: seq<string>, k: int, s: Word): (r: seq<string>)
    ensures |r| == if k <= 0 then 0 else if k >= |items| then |items| else k
  {
    if k <= 0 then [] else if k >= |items| then items else Dealt(items, LcgDraws(s, |items|))[..k]
  }

  function SubsetState(n: nat, k: int, s: Word): Word {
    if 0 < k < n then AfterN(s, DrawCount(n)) else s
  }

  /** `pickSubset`. */
  method PickSubset(rng: Lcg, items: seq<string>, k: int) returns (r: seq<string>)
    modifies rng
    ensures r == Subset(items, k, old(rng.s)) && rng.s == SubsetState(|items|, k, old(rng.s))
  {
    if k <= 0 {
      return [];
    }
    if k >= |items| {
      return items;
    }
    var sh := Shuffle(rng, items);
    r := sh[..k];
  }

  /** Up to three items, every choice in every order can be drawn. */
  lemma EverySubsetIfFew(items: seq<string>, k: int, order: seq<string>)
    requires NoDup(items) && 0 < k < |items| == |order| < 4 && Rearranges(order, items)
    ensures exists s: Word :: Subset(items, k, s) == order[..k]
  {
    EveryOrderDealtIffFew(items);
    var s: Word :| Dealt(items, LcgDraws(s, |items|)) == order;
    assert Subset(items, k, s) == order[..k];
  }

  /** As many distinct items as asked for. */
  lemma SubsetIsDistinct(items: seq<string>, k: int, s: Word)
    requires NoDup(items)
    ensures NoDup(Subset(items, k, s)) && forall x :: x in Subset(items, k, s) ==> x in items
  {
    DealtRearranges(items, LcgDraws(s, |items|));
    PermutationNoDup(items, Dealt(items, LcgDraws(s, |items|)));
  }
}
