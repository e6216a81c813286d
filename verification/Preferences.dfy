/** Voters' orders: `reverseStrings`, `noisyOrder` and `buildPreferenceOrder` of datasets/generate.go. */
module Preferences {
  import opened Sums
  import opened Inversions
  import opened Random
  import opened Shuffling

  // ----- Reversing

  function Reversed(s: seq<string>): (r: seq<string>)
    ensures |r| == |s| && forall k :: 0 <= k < |r| ==> r[k] == s[|s| - 1 - k]
  {
    seq(|s|, k requires 0 <= k < |s| => s[|s| - 1 - k])
  }

  /** `reverseStrings`. */
  method ReverseStrings(items: seq<string>) returns (r: seq<string>)
    ensures r == Reversed(items)
  {
    var n := |items|;
    var out := new string[n](i requires 0 <= i < n => items[i]);
    var i, j := 0, n - 1;
    while i < j
      invariant 0 <= i <= j + 1 <= n && i + j == n - 1
      invariant forall k :: 0 <= k < i || j < k < n ==> out[k] == items[n - 1 - k]
      invariant forall k :: i <= k <= j ==> out[k] == items[k]
    {
      out[i], out[j] := out[j], out[i];
      i, j := i + 1, j - 1;
    }
    r := out[..];
  }

  lemma {:induction false} ReversedRearranges(s: seq<string>)
    ensures Rearranges(Reversed(s), s)
  {
    if s != [] {
      var n := |s| - 1;
      assert Reversed(s) == [s[n]] + Reversed(s[..n]) && s == s[..n] + [s[n]];
      ReversedRearranges(s[..n]);
    }
  }

  // ----- Noise

  /** `order` is as far from `base` as `k` swaps of neighbours can take it. */
  ghost predicate AfterSwaps(order: seq<string>, base: seq<string>, k: int) {
    && Rearranges(order, base)
    && (NoDup(base) ==> 0 <= Disagreements(order, base) <= k && (k - Disagreements(order, base)) % 2 == 0)
  }

  lemma OneMoreSwap(order: seq<string>, base: seq<string>, k: int, j: nat)
    requires AfterSwaps(order, base, k) && j + 1 < |order|
    ensures AfterSwaps(Swapped(order, j), base, k + 1)
  {
    SwappedSameElements(order, j);
    InversionsNonNegative(Places(Swapped(order, j), base));
    if NoDup(base) {
      SwapStep(order, base, j);
    }
  }

  /** Where the first of two neighbours stands, as drawn from state `s`. */
  function Place(s: Word, n: nat): (j: nat)
    requires n >= 2
    ensures j + 1 < n
  {
    After(s) % (n - 1)
  }

  /** `count` neighbour swaps at the places the generator draws; fewer than two items stay put. */
  function Noisy(order: seq<string>, s: Word, count: nat): (r: seq<string>)
    ensures |r| == |order|
    decreases count
  {
    if count == 0 || |order| < 2 then order
    else Noisy(Swapped(order, Place(s, |order|)), After(s), count - 1)
  }

  function NoisyState(n: nat, s: Word, count: nat): Word {
    if n < 2 then s else AfterN(s, count)
  }

  /** With `count` swaps still to come, the loop of `noisyOrder` will end at `result`. */
  ghost predicate StillNoisy(order: seq<string>, s: Word, count: nat, result: seq<string>, final: Word) {
    |order| >= 2 && Noisy(order, s, count) == result && AfterN(s, count) == final
  }

  lemma NoisyNext(order: seq<string>, s: Word, count: nat, result: seq<string>, final: Word)
    requires StillNoisy(order, s, count, result, final) && count > 0
    ensures StillNoisy(Swapped(order, Place(s, |order|)), After(s), count - 1, result, final)
  {
  }

  lemma {:induction false} NoisyAfterSwaps(order: seq<string>, base: seq<string>, s: Word, k: nat, count: nat)
    requires |order| >= 2 && AfterSwaps(order, base, k)
    ensures AfterSwaps(Noisy(order, s, count), base, k + count)
    decreases count
  {
    if count > 0 {
      var j := Place(s, |order|);
      OneMoreSwap(order, base, k, j);
      NoisyAfterSwaps(Swapped(order, j), base, After(s), k + 1, count - 1);
    }
  }

  /** Whatever the generator draws, `count` swaps reverse at most `count` pairs, of the same parity. */
  lemma NoiseIsBounded(base: seq<string>, s: Word, count: nat)
    requires |base| >= 2
    ensures AfterSwaps(Noisy(base, s, count), base, count)
  {
    if NoDup(base) {
      BaseAgreesWithItself(base);
    }
    NoisyAfterSwaps(base, base, s, 0, count);
  }

  lemma {:induction false} NoisyRearranges(order: seq<string>, s: Word, count: nat)
    ensures Rearranges(Noisy(order, s, count), order)
    decreases count
  {
    if count > 0 && |order| >= 2 {
      SwappedSameElements(order, Place(s, |order|));
      NoisyRearranges(Swapped(order, Place(s, |order|)), After(s), count - 1);
    }
  }

  /** Every two neighbours can be the ones that change seats. */
  lemma EverySwapDrawn(order: seq<string>, j: nat)
    requires j + 1 < |order| && j < WORD
    ensures exists s: Word :: Noisy(order, s, 1) == Swapped(order, j)
  {
    var s := Reached(j);
    assert Place(s, |order|) == j;
    assert Noisy(order, s, 1) == Noisy(Swapped(order, j), After(s), 0);
  }

  /** One turn of the loop of `noisyOrder`: two neighbours at a drawn place change seats. */
  method SwapDrawn(rng: Lcg, out: array<string>)
    requires out.Length >= 2
    modifies rng, out
    ensures rng.s == After(old(rng.s))
    ensures out[..] == Swapped(old(out[..]), Place(old(rng.s), out.Length))
  {
    var draw := rng.Next();
    var j := draw % (out.Length - 1);
    out[j], out[j + 1] := out[j + 1], out[j];
  }

  /** The loop of `noisyOrder`. */
  method SwapNeighbours(rng: Lcg, out: array<string>, count: nat)
    requires out.Length >= 2
    modifies rng, out
    ensures out[..] == Noisy(old(out[..]), old(rng.s), count) && rng.s == AfterN(old(rng.s), count)
  {
    var n := out.Length;
    ghost var order, result, final := out[..], Noisy(out[..], rng.s, count), AfterN(rng.s, count);
    for i := 0 to count
      invariant |order| == n && out[..] == order
      invariant StillNoisy(order, rng.s, count - i, result, final)
    {
      NoisyNext(order, rng.s, count - i, result, final);
      order := Swapped(order, Place(rng.s, n));
      SwapDrawn(rng, out);
    }
  }

  function AtLeastOne(swaps: int): nat { if swaps < 1 then 1 else swaps }

  /** `noisyOrder`: at least one and otherwise `swaps` random swaps of neighbours. */
  method NoisyOrder(rng: Lcg, base: seq<string>, swaps: int) returns (r: seq<string>)
    modifies rng
    ensures r == Noisy(base, old(rng.s), AtLeastOne(swaps))
    ensures rng.s == NoisyState(|base|, old(rng.s), AtLeastOne(swaps))
    ensures |base| >= 2 ==> AfterSwaps(r, base, AtLeastOne(swaps))
  {
    var n := |base|;
    var out := new string[n](i requires 0 <= i < n => base[i]);
    assert out[..] == base;
    if n < 2 {
      return out[..];
    }
    var count := if swaps < 1 then 1 else swaps;
    NoiseIsBounded(base, rng.s, count);
    SwapNeighbours(rng, out, count);
    r := out[..];
  }

  // ----- A voter's order

  datatype Model = Uniform | Consensus | Polarized

  /** Which pole a polarized voter follows, from the first draw. */
  function Pole(consensus: seq<string>, opposite: seq<string>, s: Word): seq<string> {
    if After(s) % 2 == 0 then consensus else opposite
  }

  /** The order a voter gets from generator state `s`. */
  function Preference(ids: seq<string>, model: Model, consensus: seq<string>, opposite: seq<string>, s: Word):
    (r: seq<string>)
    ensures |consensus| == |opposite| == |ids| ==> |r| == |ids|
  {
    match model
    case Uniform => Dealt(ids, LcgDraws(s, |ids|))
    case Consensus => Noisy(consensus, After(s), 1 + After(s) % 3)
    case Polarized => var t := After(After(s)); Noisy(Pole(consensus, opposite, s), t, 1 + t % 2)
  }

  /** The state a voter leaves behind. */
  function PreferenceState(ids: seq<string>, model: Model, consensus: seq<string>, opposite: seq<string>, s: Word):
    Word
  {
    match model
    case Uniform => AfterN(s, DrawCount(|ids|))
    case Consensus => NoisyState(|consensus|, After(s), 1 + After(s) % 3)
    case Polarized => var t := After(After(s)); NoisyState(|Pole(consensus, opposite, s)|, t, 1 + t % 2)
  }

  /** A noisy copy of a pole: between one and `limit` swaps. */
  method NoisyPole(rng: Lcg, pole: seq<string>, limit: nat) returns (order: seq<string>)
    requires limit >= 1
    modifies rng
    ensures var t := After(old(rng.s));
            order == Noisy(pole, t, 1 + t % limit) && rng.s == NoisyState(|pole|, t, 1 + t % limit)
  {
    var draw := rng.Next();
    order := NoisyOrder(rng, pole, 1 + draw % limit);
  }

  /** `buildPreferenceOrder`. */
  method BuildPreferenceOrder(rng: Lcg, ids: seq<string>, model: Model, consensus: seq<string>, opposite: seq<string>)
    returns (order: seq<string>)
    modifies rng
    ensures order == Preference(ids, model, consensus, opposite, old(rng.s))
    ensures rng.s == PreferenceState(ids, model, consensus, opposite, old(rng.s))
  {
    match model {
      case Uniform =>
        order := Shuffle(rng, ids);
      case Consensus =>
        order := NoisyPole(rng, consensus, 3);
      case Polarized =>
        var side := rng.Next();
        if side % 2 == 0 {
          order := NoisyPole(rng, consensus, 2);
        } else {
          order := NoisyPole(rng, opposite, 2);
        }
    }
  }

  /** The poles are orders of the same candidates. */
  ghost predicate PolesOf(ids: seq<string>, consensus: seq<string>, opposite: seq<string>) {
    Rearranges(consensus, ids) && Rearranges(opposite, ids)
  }

  /** Every voter orders all candidates. */
  lemma PreferenceRearranges(ids: seq<string>, model: Model, consensus: seq<string>, opposite: seq<string>, s: Word)
    requires PolesOf(ids, consensus, opposite)
    ensures Rearranges(Preference(ids, model, consensus, opposite, s), ids)
  {
    match model
    case Uniform => DealtRearranges(ids, LcgDraws(s, |ids|));
    case Consensus => NoisyRearranges(consensus, After(s), 1 + After(s) % 3);
    case Polarized =>
      var t := After(After(s));
      NoisyRearranges(Pole(consensus, opposite, s), t, 1 + t % 2);
  }

  /** A consensus voter is within three pairs of the common order. */
  lemma ConsensusIsNear(ids: seq<string>, consensus: seq<string>, opposite: seq<string>, s: Word)
    requires NoDup(consensus) && |consensus| >= 2
    ensures var order := Preference(ids, Consensus, consensus, opposite, s);
            AfterSwaps(order, consensus, 1 + After(s) % 3) && Disagreements(order, consensus) <= 3
  {
    NoiseIsBounded(consensus, After(s), 1 + After(s) % 3);
  }

  /** One, two and three swaps all occur, wherever the first of them falls. */
  lemma ConsensusSwaps(ids: seq<string>, consensus: seq<string>, opposite: seq<string>, count: nat)
    requires 1 <= count <= 3 && |consensus| >= 2
    ensures exists s: Word ::
              && Preference(ids, Consensus, consensus, opposite, s) == Noisy(consensus, After(s), count)
              && PreferenceState(ids, Consensus, consensus, opposite, s) == AfterN(s, count + 1)
  {
    var s := Reached(count - 1);
    assert After(s) % 3 == count - 1;
    assert AfterN(s, count + 1) == AfterN(After(s), count);
  }

  // ----- The low bit decides everything about a polarized voter

  /** An odd state gives the common order with two swaps, an even one the opposite order with one. */
  lemma PolarizedByParity(ids: seq<string>, consensus: seq<string>, opposite: seq<string>, s: Word)
    ensures Preference(ids, Polarized, consensus, opposite, s)
         == if s % 2 == 1 then Noisy(consensus, After(After(s)), 2) else Noisy(opposite, After(After(s)), 1)
  {
    NextTwoBits(s);
  }

  lemma OddAfter(t: nat)
    ensures (t + (1 + t % 2)) % 2 == 1
  {
  }

  /** Whatever state a polarized voter starts from, the next one starts from an odd state. */
  lemma PolarizedLeavesOdd(ids: seq<string>, consensus: seq<string>, opposite: seq<string>, s: Word)
    requires |consensus| == |opposite| >= 2
    ensures PreferenceState(ids, Polarized, consensus, opposite, s) % 2 == 1
  {
    var t := After(After(s));
    NextTwoBits(s);
    LowBitsCountDraws(t, 1 + t % 2);
    OddAfter(t);
  }

  lemma DistancesUpToTwo(order: seq<string>, base: seq<string>)
    requires NoDup(base)
    ensures AfterSwaps(order, base, 1) ==> Disagreements(order, base) == 1
    ensures AfterSwaps(order, base, 2) ==> Disagreements(order, base) == 0 || Disagreements(order, base) == 2
  {
  }

  lemma OneSwap(base: seq<string>, t: Word)
    requires NoDup(base) && |base| >= 2
    ensures Rearranges(Noisy(base, t, 1), base) && Disagreements(Noisy(base, t, 1), base) == 1
  {
    NoiseIsBounded(base, t, 1);
    DistancesUpToTwo(Noisy(base, t, 1), base);
  }

  lemma TwoSwaps(base: seq<string>, t: Word)
    requires NoDup(base) && |base| >= 2
    ensures Rearranges(Noisy(base, t, 2), base)
    ensures Disagreements(Noisy(base, t, 2), base) == 0 || Disagreements(Noisy(base, t, 2), base) == 2
  {
    NoiseIsBounded(base, t, 2);
    DistancesUpToTwo(Noisy(base, t, 2), base);
  }

  /** So a voter on the common side disagrees with it on no pair or two, one on the other side on exactly one. */
  lemma PolarizedDistance(ids: seq<string>, consensus: seq<string>, opposite: seq<string>, s: Word)
    requires NoDup(consensus) && NoDup(opposite) && |consensus| >= 2 && |opposite| >= 2
    ensures var order := Preference(ids, Polarized, consensus, opposite, s);
            if s % 2 == 1
            then && Rearranges(order, consensus)
                 && (Disagreements(order, consensus) == 0 || Disagreements(order, consensus) == 2)
            else Rearranges(order, opposite) && Disagreements(order, opposite) == 1
  {
    PolarizedByParity(ids, consensus, opposite, s);
    TwoSwaps(consensus, After(After(s)));
    OneSwap(opposite, After(After(s)));
  }
}
