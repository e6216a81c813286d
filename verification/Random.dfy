/** The dataset generator's source of randomness, `lcg` of datasets/other.go. */
module Random {
  import opened Powers

  const WORD := 0x1_0000_0000_0000_0000

  /** Go's `uint64`. */
  type Word = s: nat | s < WORD witness 0

  /** The state after one step; 64-bit arithmetic wraps. */
  function After(s: Word): Word {
    (s * 1664525 + 1013904223) % WORD
  }

  /** `lcg`. */
  class Lcg {
    var s: Word

    constructor (seed: Word)
      ensures s == seed
    {
      s := seed;
    }

    method Next() returns (r: Word)
      modifies this
      ensures r == s == After(old(s))
    {
      s := (s * 1664525 + 1013904223) % WORD;
      r := s;
    }
  }

  // ----- The step is a bijection

  /** The multiplier's inverse modulo 2^64. */
  const INVERSE := 17196263117099653317

  function Before(t: Word): Word {
    ((t - 1013904223) * INVERSE) % WORD
  }

  lemma BeforeUndoesAfter(s: Word)
    ensures Before(After(s)) == s
  {
    var q := (s * 1664525 + 1013904223) / WORD;
    assert After(s) == s * 1664525 + 1013904223 - q * WORD;
    assert 1664525 * INVERSE == 1551689 * WORD + 1;
    RemainderIs((After(s) - 1013904223) * INVERSE, WORD, s * 1551689 - q * INVERSE, s);
  }

  lemma AfterUndoesBefore(t: Word)
    ensures After(Before(t)) == t
  {
    var q := ((t - 1013904223) * INVERSE) / WORD;
    assert Before(t) == (t - 1013904223) * INVERSE - q * WORD;
    assert 1664525 * INVERSE == 1551689 * WORD + 1;
    RemainderIs(Before(t) * 1664525 + 1013904223, WORD, (t - 1013904223) * 1551689 - q * 1664525, t);
  }

  /** Every word comes up next from some state, and so does every small enough draw. */
  lemma Reached(t: Word) returns (s: Word)
    ensures After(s) == t && forall n: nat :: t < n ==> After(s) % n == t
  {
    s := Before(t);
    AfterUndoesBefore(t);
    forall n: nat | t < n ensures After(s) % n == t {
      RemainderIs(t, n, 0, t);
    }
  }

  // ----- The low bits are a counter

  /** The step takes one from the state modulo 4, so the lowest bit flips every time. */
  lemma AfterLowBits(s: Word)
    ensures After(s) % 4 == (s + 3) % 4
    ensures After(s) % 2 == (s + 1) % 2
  {
    var q := (s * 1664525 + 1013904223) / WORD;
    SameLowBits(After(s), s + 3, s * 416131 + 253476055 - q * 0x4000_0000_0000_0000);
  }

  lemma SameLowBits(x: int, y: int, d: int)
    requires x == y + 4 * d
    ensures x % 4 == y % 4
    ensures x % 2 == y % 2
  {
    Quarter(x, y / 4 + d, y % 4);
    Half(x, y / 2 + 2 * d, y % 2);
  }

  lemma Quarter(x: int, k: int, r: int)
    requires x == 4 * k + r && 0 <= r < 4
    ensures x % 4 == r
  {
  }

  lemma Half(x: int, k: int, r: int)
    requires x == 2 * k + r && 0 <= r < 2
    ensures x % 2 == r
  {
  }

  lemma Flipped(x: nat, y: nat)
    requires y % 2 == (x + 1) % 2
    ensures y % 2 == 1 - x % 2
  {
  }

  /** Two draws in a row see opposite bits. */
  lemma NextTwoBits(s: Word)
    ensures After(s) % 2 == 1 - s % 2
    ensures After(After(s)) % 2 == s % 2
  {
    AfterLowBits(s);
    Flipped(s, After(s));
    AfterLowBits(After(s));
    Flipped(After(s), After(After(s)));
  }

  function AfterN(s: Word, k: nat): Word
    decreases k
  {
    if k == 0 then s else AfterN(After(s), k - 1)
  }

  /** However far the generator runs, its two low bits only count the draws. */
  lemma {:induction false} LowBitsCountDraws(s: Word, k: nat)
    ensures AfterN(s, k) % 4 == (s + 3 * k) % 4
    ensures AfterN(s, k) % 2 == (s + k) % 2
    decreases k
  {
    if k > 0 {
      AfterLowBits(s);
      LowBitsCountDraws(After(s), k - 1);
      CounterSteps(After(s), s, k);
    }
  }

  lemma CounterSteps(t: nat, s: nat, k: nat)
    requires k > 0 && t % 4 == (s + 3) % 4
    ensures (t + 3 * (k - 1)) % 4 == (s + 3 * k) % 4
    ensures (t + (k - 1)) % 2 == (s + k) % 2
  {
    var d := t / 4 - (s + 3) / 4;
    assert t == s + 3 + 4 * d;
    SameLowBits(t + 3 * (k - 1), s + 3 * k, d);
    Half(t + (k - 1), (s + k) / 2 + 1 + 2 * d, (s + k) % 2);
  }

  lemma {:induction false} AfterNAdds(s: Word, j: nat, k: nat)
    ensures AfterN(AfterN(s, j), k) == AfterN(s, j + k)
    decreases j
  {
    if j > 0 {
      AfterNAdds(After(s), j - 1, k);
    }
  }

  // ----- How soon the low bits repeat

  /** 2^b steps at once multiply by this and add `Increment(b)`. */
  function Multiplier(b: nat): nat {
    if b == 0 then 1664525 else Multiplier(b - 1) * Multiplier(b - 1)
  }

  function Increment(b: nat): nat {
    if b == 0 then 1013904223 else Increment(b - 1) * (Multiplier(b - 1) + 1)
  }

  lemma StepTwice(s: nat, t: nat, m: nat, c: nat)
    requires t == (s * m + c) % WORD
    ensures (t * m + c) % WORD == (s * (m * m) + c * (m + 1)) % WORD
  {
    var k := -((s * m + c) / WORD);
    assert t == s * m + c + k * WORD;
    assert t * m == s * (m * m) + c * m + k * m * WORD;
    SameRemainder(t * m + c, s * (m * m) + c * (m + 1), WORD, k * m);
  }

  lemma {:induction false} Leap(s: Word, b: nat)
    ensures AfterN(s, Pow2(b)) == (s * Multiplier(b) + Increment(b)) % WORD
    decreases b
  {
    if b == 0 {
      OneStep(s);
    } else {
      var half := Pow2(b - 1);
      var t := AfterN(s, half);
      Leap(s, b - 1);
      Leap(t, b - 1);
      AfterNAdds(s, half, half);
      StepTwice(s, t, Multiplier(b - 1), Increment(b - 1));
    }
  }

  lemma OneStep(s: Word)
    ensures AfterN(s, 1) == After(s)
  {
    assert AfterN(s, 1) == AfterN(After(s), 0);
  }

  lemma {:induction false} LeapShape(b: nat) returns (y: nat, odd: nat)
    ensures Multiplier(b) == 1 + 4 * Pow2(b) * y
    ensures Increment(b) == Pow2(b) * odd && odd % 2 == 1
  {
    if b == 0 {
      return 416131, 1013904223;
    }
    var p := Pow2(b - 1);
    y, odd := LeapShape(b - 1);
    y, odd := ShapeNext(p, y, odd);
  }

  lemma ShapeNext(p: nat, y: nat, odd: nat) returns (z: nat, next: nat)
    requires odd % 2 == 1
    ensures (1 + 4 * p * y) * (1 + 4 * p * y) == 1 + 4 * (2 * p) * z
    ensures p * odd * (1 + 4 * p * y + 1) == 2 * p * next && next % 2 == 1
  {
    var x := p * y;
    z, next := y + 2 * x * y, odd + 2 * (x * odd);
    assert (1 + 4 * x) * (1 + 4 * x) == 1 + 8 * x + 16 * x * x;
    assert 8 * (p * z) == 8 * x + 16 * x * x by {
      assert p * (2 * x * y) == 2 * x * x;
    }
    assert p * odd * (2 + 4 * x) == 2 * p * next;
    Half(next, odd / 2 + x * odd, 1);
  }

  /** 2^b steps add 2^b modulo 2^(b+1). */
  lemma LeapAdds(s: Word, b: nat)
    requires b < 64
    ensures AfterN(s, Pow2(b)) % Pow2(b + 1) == (s + Pow2(b)) % Pow2(b + 1)
  {
    var y, odd := LeapShape(b);
    Leap(s, b);
    Pow64();
    PowersAdd(b + 1, 63 - b);
    LeapSum(AfterN(s, Pow2(b)), s, Pow2(b), y, odd, Pow2(63 - b));
  }

  lemma LeapSum(t: Word, s: Word, p: nat, y: nat, odd: nat, turns: nat)
    requires odd % 2 == 1 && p > 0 && WORD == 2 * p * turns && t == (s * (1 + 4 * p * y) + p * odd) % WORD
    ensures t % (2 * p) == (s + p) % (2 * p)
  {
    var k := (s * (1 + 4 * p * y) + p * odd) / WORD;
    LeapTerms(s, p, y, odd, k, turns);
    SameRemainder(t, s + p, 2 * p, s * 2 * y + odd / 2 - k * turns);
  }

  lemma LeapTerms(s: nat, p: nat, y: nat, odd: nat, k: int, turns: nat)
    requires odd % 2 == 1
    ensures s * (1 + 4 * p * y) + p * odd - k * (2 * p * turns) == s + p + (s * 2 * y + odd / 2 - k * turns) * (2 * p)
  {
    assert p * odd == p + odd / 2 * (2 * p) by {
      assert odd == 1 + 2 * (odd / 2);
    }
    assert s * (4 * p * y) == s * 2 * y * (2 * p);
    assert k * (2 * p * turns) == k * turns * (2 * p);
  }

  lemma {:induction false} LeapsAdd(s: Word, b: nat, m: nat, k: nat)
    requires b < 64 && k == m * Pow2(b)
    ensures AfterN(s, k) % Pow2(b + 1) == (s + k) % Pow2(b + 1)
    decreases m
  {
    if m > 0 {
      OneLess(m, Pow2(b));
      LeapsAdd(s, b, m - 1, k - Pow2(b));
      OneMoreLeap(s, b, k - Pow2(b));
    } else {
      assert k == 0;
    }
  }

  lemma OneLess(m: int, p: int)
    ensures m * p == (m - 1) * p + p
  {
  }

  lemma OneMoreLeap(s: Word, b: nat, before: nat)
    requires b < 64 && AfterN(s, before) % Pow2(b + 1) == (s + before) % Pow2(b + 1)
    ensures AfterN(s, before + Pow2(b)) % Pow2(b + 1) == (s + before + Pow2(b)) % Pow2(b + 1)
  {
    LeapAdds(AfterN(s, before), b);
    AfterNAdds(s, before, Pow2(b));
    RemainderShifts(AfterN(s, before), s + before, Pow2(b), Pow2(b + 1));
  }

  /** The `b` lowest bits repeat after `k` draws exactly when 2^b divides `k`; all 64 after 2^64 draws, no sooner. */
  lemma {:induction false} LowBitsRepeatIff(s: Word, k: nat, b: nat)
    requires b <= 64
    ensures AfterN(s, k) % Pow2(b) == s % Pow2(b) <==> k % Pow2(b) == 0
    decreases b
  {
    if b > 0 {
      LowBitsRepeatIff(s, k, b - 1);
      MultipleLeaps(s, k, b - 1);
      OneBitMore(AfterN(s, k), s, k, Pow2(b - 1));
    }
  }

  lemma MultipleLeaps(s: Word, k: nat, b: nat)
    requires b < 64
    ensures k % Pow2(b) == 0 ==> AfterN(s, k) % Pow2(b + 1) == (s + k) % Pow2(b + 1)
  {
    if k % Pow2(b) == 0 {
      var m := Apart(k, 0, Pow2(b));
      LeapsAdd(s, b, m, k);
    }
  }

  /** From remainders modulo `p` to remainders modulo `2 p`. */
  lemma OneBitMore(t: int, s: int, k: nat, p: nat)
    requires p > 0 && (t % p == s % p <==> k % p == 0)
    requires k % p == 0 ==> t % (2 * p) == (s + k) % (2 * p)
    ensures t % (2 * p) == s % (2 * p) <==> k % (2 * p) == 0
  {
    if k % p == 0 {
      var m := Apart(k, 0, p);
      EvenMultiple(s, k, m, p);
      EvenMultiple(0, k, m, p);
    } else {
      FinerDiffers(t, s, p);
      FinerDiffers(k, 0, p);
    }
  }

  lemma EvenMultiple(s: int, k: nat, m: int, p: nat)
    requires p > 0 && k == m * p
    ensures (s + k) % (2 * p) == s % (2 * p) <==> m % 2 == 0
  {
    if m % 2 == 0 {
      assert k == m / 2 * (2 * p);
      SameRemainder(s + k, s, 2 * p, m / 2);
    } else if (s + k) % (2 * p) == s % (2 * p) {
      var j := Apart(s + k, s, 2 * p);
      SameFactor(m, 2 * j, p);
    }
  }

  lemma SameFactor(a: int, b: int, p: nat)
    requires p > 0 && a * p == b * p
    ensures a == b
  {
    assert p * (a - b) == 0;
    ScaleAway(p, a - b);
  }

  lemma FinerDiffers(x: int, y: int, p: nat)
    requires p > 0
    ensures x % (2 * p) == y % (2 * p) ==> x % p == y % p
  {
    if x % (2 * p) == y % (2 * p) {
      var k := Apart(x, y, 2 * p);
      SameRemainder(x, y, p, 2 * k);
    }
  }

  /** States that agree in their low bits keep agreeing. */
  lemma {:induction false} LowBitsStayEqual(s: Word, t: Word, k: nat, b: nat)
    requires b <= 64 && s % Pow2(b) == t % Pow2(b)
    ensures AfterN(s, k) % Pow2(b) == AfterN(t, k) % Pow2(b)
    decreases k
  {
    if k > 0 {
      LowBitsStepEqual(s, t, b);
      LowBitsStayEqual(After(s), After(t), k - 1, b);
    }
  }

  lemma LowBitsStepEqual(s: Word, t: Word, b: nat)
    requires b <= 64 && s % Pow2(b) == t % Pow2(b)
    ensures After(s) % Pow2(b) == After(t) % Pow2(b)
  {
    Pow64();
    PowersAdd(b, 64 - b);
    var k := Apart(s, t, Pow2(b));
    StepEqual(s, t, Pow2(b), Pow2(64 - b), k);
  }

  lemma StepEqual(s: Word, t: Word, p: nat, turns: nat, k: int)
    requires p > 0 && WORD == p * turns && s == t + k * p
    ensures After(s) % p == After(t) % p
  {
    var i, j := (s * 1664525 + 1013904223) / WORD, (t * 1664525 + 1013904223) / WORD;
    var d := 1664525 * k - (i - j) * turns;
    assert After(s) - After(t) == 1664525 * (k * p) - (i - j) * (p * turns);
    assert d * p == 1664525 * (k * p) - (i - j) * (p * turns);
    SameRemainder(After(s), After(t), p, d);
  }

  /** Equal low bits now mean equal low bits one draw ago. */
  lemma LowBitsOneAgo(s: Word, t: Word, b: nat)
    requires b <= 64 && After(s) % Pow2(b) == After(t) % Pow2(b)
    ensures s % Pow2(b) == t % Pow2(b)
  {
    var p := Pow2(b);
    LowBitsStayEqual(After(s), After(t), p - 1, b);
    LowBitsRepeatIff(s, p, b);
    LowBitsRepeatIff(t, p, b);
    RemainderIs(p, p, 1, 0);
  }
}
