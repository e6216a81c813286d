/** Score levels and the scores read off them: `scoreLevels` and `scoresFromOrder` of datasets/generate.go. */
module ScoreLevels {
  import opened Sums
  import opened Decimal
  import opened Powers

  // ----- Go's `int` arithmetic

  const WRAP := 0x1_0000_0000_0000_0000

  /** The value a machine `int` keeps of `x`. */
  function Wrap(x: int): (r: Int64)
    ensures INT_MIN <= x <= INT_MAX ==> r == x
    ensures INT_MAX < x <= INT_MAX + WRAP ==> r == x - WRAP
  {
    (x - INT_MIN) % WRAP + INT_MIN
  }

  /** Division truncates toward zero. */
  function Quot(a: int, b: int): int
    requires b > 0
  {
    if a >= 0 then a / b else -(-a / b)
  }

  function Rem(a: int, b: int): int
    requires b > 0
  {
    a - b * Quot(a, b)
  }

  // ----- Levels

  /** The number of levels the source makes room for, and later draws from. */
  function Capacity(lo: Int64, hi: Int64, step: Int64): Int64
    requires step > 0
  {
    Wrap(Quot(Wrap(hi - lo), step) + 1)
  }

  /** The largest capacity the allocator grants; a capacity is an `int`. */
  type Room = r: nat | r <= INT_MAX

  /** `make` panics on a negative capacity and on one above `room`. */
  predicate HasRoom(lo: Int64, hi: Int64, step: Int64, room: Room)
    requires step > 0
  {
    0 <= Capacity(lo, hi, step) <= room
  }

  datatype Climbed = Climbed(values: seq<int>, ended: bool)

  /** What at most `passes` passes of the loop append from `v` on, and whether the loop has ended by then. */
  function Climb(v: Int64, hi: Int64, step: Int64, passes: nat): Climbed
    decreases passes
  {
    if v > hi then Climbed([], true)
    else if passes == 0 then Climbed([], false)
    else
      var rest := Climb(Wrap(v + step), hi, step, passes - 1);
      Climbed([v] + rest.values, rest.ended)
  }

  datatype LevelsOutcome = Panic | Looping(soFar: seq<int>) | Ended(levels: seq<int>)

  /** Where `scoreLevels` stands after at most `passes` passes. */
  function LevelsAfter(lo: Int64, hi: Int64, step: Int64, room: Room, passes: nat): LevelsOutcome {
    if step <= 0 || hi < lo then Ended([])
    else if !HasRoom(lo, hi, step, room) then Panic
    else
      var c := Climb(lo, hi, step, passes);
      if c.ended then Ended(c.values) else Looping(c.values)
  }

  /** Once the loop has ended, more passes change nothing. */
  lemma {:induction false} EndedIsFinal(v: Int64, hi: Int64, step: Int64, a: nat, b: nat)
    requires Climb(v, hi, step, a).ended && (Climb(v, hi, step, b).ended || a <= b)
    ensures Climb(v, hi, step, a) == Climb(v, hi, step, b)
    decreases a
  {
    if v <= hi {
      EndedIsFinal(Wrap(v + step), hi, step, a - 1, b - 1);
    }
  }

  /** With `levels` appended, at `v` and with `left` passes to go, the loop is on its way to `c`. */
  ghost predicate Climbing(c: Climbed, levels: seq<int>, v: Int64, hi: Int64, step: Int64, left: nat) {
    var rest := Climb(v, hi, step, left);
    c == Climbed(levels + rest.values, rest.ended)
  }

  lemma ClimbingOn(c: Climbed, levels: seq<int>, v: Int64, next: Int64, hi: Int64, step: Int64, left: nat)
    requires Climbing(c, levels, v, hi, step, left) && v <= hi && left > 0 && next == Wrap(v + step)
    ensures Climbing(c, levels + [v], next, hi, step, left - 1)
  {
  }

  lemma ClimbingOver(c: Climbed, levels: seq<int>, v: Int64, hi: Int64, step: Int64, left: nat)
    requires Climbing(c, levels, v, hi, step, left) && (v > hi || left == 0)
    ensures c == Climbed(levels, v > hi)
  {
  }

  /** The loop of `scoreLevels`. */
  method ClimbLevels(lo: Int64, hi: Int64, step: Int64, passes: nat) returns (c: Climbed)
    ensures c == Climb(lo, hi, step, passes)
  {
    var levels: seq<int> := [];
    var v: Int64, left: nat := lo, passes;
    ghost var goal := Climb(lo, hi, step, passes);
    while v <= hi && left > 0
      invariant Climbing(goal, levels, v, hi, step, left)
      decreases left
    {
      var next: Int64 := Wrap(v + step);
      ClimbingOn(goal, levels, v, next, hi, step, left);
      levels := levels + [v];
      v, left := next, left - 1;
    }
    ClimbingOver(goal, levels, v, hi, step, left);
    return Climbed(levels, v > hi);
  }

  /** `scoreLevels`, given `passes` passes of its loop. */
  method ScoreLevels(lo: Int64, hi: Int64, step: Int64, room: Room, passes: nat) returns (r: LevelsOutcome)
    ensures r == LevelsAfter(lo, hi, step, room, passes)
  {
    if step <= 0 || hi < lo {
      return Ended([]);
    }
    var capacity: Int64 := Wrap(Quot(Wrap(hi - lo), step) + 1);
    if capacity < 0 || capacity > room {
      return Panic;
    }
    var c := ClimbLevels(lo, hi, step, passes);
    return if c.ended then Ended(c.values) else Looping(c.values);
  }

  // ----- When the levels come out right

  /** How many levels there are from `lo` to `hi`. */
  function Count(lo: int, hi: int, step: int): nat
    requires step > 0 && lo <= hi
  {
    (hi - lo) / step + 1
  }

  /** The first `n` of lo, lo + step, lo + 2 step, ... */
  function Ladder(lo: int, step: int, n: nat): (r: seq<int>)
    ensures |r| == n && forall i :: 0 <= i < n ==> r[i] == lo + i * step
  {
    seq(n, i => lo + i * step)
  }

  /** `q` more steps stay within `hi`, one more does not. */
  ghost predicate Top(v: int, hi: int, step: int, q: nat) {
    v + q * step <= hi < v + q * step + step
  }

  lemma TopNext(v: int, hi: int, step: int, q: nat)
    requires step > 0 && q > 0 && Top(v, hi, step, q)
    ensures v + step <= hi && Top(v + step, hi, step, q - 1)
    ensures v + step + (q - 1) * step == v + q * step
  {
  }

  lemma ScaleLe(a: nat, b: nat, t: nat)
    requires a <= b
    ensures a * t <= b * t
  {
  }

  lemma LadderNext(v: int, step: int, n: nat)
    ensures [v] + Ladder(v + step, step, n) == Ladder(v, step, n + 1)
  {
  }

  /** As long as the value past the top fits, the loop appends the levels and ends. */
  lemma {:induction false} ClimbRight(v: Int64, hi: Int64, step: Int64, q: nat, passes: nat)
    requires step > 0 && Top(v, hi, step, q) && v + q * step + step <= INT_MAX && passes > q
    ensures Climb(v, hi, step, passes) == Climbed(Ladder(v, step, q + 1), true)
    decreases q
  {
    LadderNext(v, step, q);
    if q > 0 {
      TopNext(v, hi, step, q);
      ClimbRight(v + step, hi, step, q - 1, passes - 1);
    } else {
      assert Ladder(v + step, step, 0) == [];
    }
  }

  /** Otherwise the value past the top wraps below it and the loop goes on. */
  lemma {:induction false} ClimbWrong(v: Int64, hi: Int64, step: Int64, q: nat, passes: nat)
    requires step > 0 && Top(v, hi, step, q) && v + q * step + step > INT_MAX
    ensures Climb(v, hi, step, passes).ended ==> |Climb(v, hi, step, passes).values| >= q + 2
    decreases q
  {
    if passes > 0 {
      if q > 0 {
        TopNext(v, hi, step, q);
        ClimbWrong(v + step, hi, step, q - 1, passes - 1);
      } else {
        assert Wrap(v + step) == v + step - WRAP <= hi;
      }
    }
  }

  lemma CountIsTop(lo: int, hi: int, step: int)
    requires step > 0 && lo <= hi
    ensures Top(lo, hi, step, Count(lo, hi, step) - 1)
  {
  }

  /** The levels promised: all of lo, lo + step, ... up to hi. */
  function Rungs(lo: int, hi: int, step: int): seq<int>
    requires step > 0 && lo <= hi
  {
    Ladder(lo, step, Count(lo, hi, step))
  }

  /** Checkable beforehand: there is room for the levels, and the value past the last one fits. */
  predicate Climbable(lo: Int64, hi: Int64, step: Int64, room: Room)
    requires step > 0 && lo <= hi
  {
    HasRoom(lo, hi, step, room) && lo + (Count(lo, hi, step) - 1) * step + step <= INT_MAX
  }

  lemma {:induction false} AtMostPasses(v: Int64, hi: Int64, step: Int64, passes: nat)
    ensures |Climb(v, hi, step, passes).values| <= passes
    decreases passes
  {
    if v <= hi && passes > 0 {
      AtMostPasses(Wrap(v + step), hi, step, passes - 1);
    }
  }

  /** For all limits, exactly when the levels come out as promised. */
  lemma LevelsRightIff(lo: Int64, hi: Int64, step: Int64, room: Room, passes: nat)
    requires step > 0 && lo <= hi
    ensures LevelsAfter(lo, hi, step, room, passes) == Ended(Rungs(lo, hi, step))
       <==> Climbable(lo, hi, step, room) && passes >= Count(lo, hi, step)
  {
    var q: nat := Count(lo, hi, step) - 1;
    CountIsTop(lo, hi, step);
    AtMostPasses(lo, hi, step, passes);
    if lo + q * step + step > INT_MAX {
      ClimbWrong(lo, hi, step, q, passes);
    } else if passes > q {
      ClimbRight(lo, hi, step, q, passes);
    }
  }

  /** For a range that is an `int` and a whole number of steps: max + step fits, and there is room. */
  lemma ClimbableIff(lo: Int64, hi: Int64, step: Int64, room: Room)
    requires step > 0 && lo <= hi && hi - lo <= INT_MAX && (hi - lo) % step == 0
    ensures Climbable(lo, hi, step, room) <==> hi + step <= INT_MAX && Count(lo, hi, step) <= room
  {
  }

  // ----- When the loop ends at all

  /** The least number above `hi` that differs from `lo` by a multiple of `g`. */
  function FirstPast(lo: int, hi: int, g: nat): (r: int)
    requires g > 0
    ensures hi < r <= hi + g
    ensures (hi - lo) % g == 0 ==> r == hi + g
  {
    lo + ((hi - lo) / g + 1) * g
  }

  lemma StillBelow(v: Int64, hi: Int64, g: nat, k: int)
    requires g > 0 && INT_MAX < v + k * g <= hi + g
    ensures v <= hi
  {
    ScaleAway(g, k);
  }

  lemma Recount(k: int, odd: int, turn: int, g: nat)
    ensures (k - odd) * g == k * g - odd * g
    ensures (k - odd + turn) * g == k * g - odd * g + turn * g
  {
  }

  /** Wrapping keeps the remainder modulo `g`; with no such number from `hi` to the largest `int`, the loop goes on. */
  lemma {:induction false} NeverPast(v: Int64, hi: Int64, step: Int64, g: nat, k: int, odd: int, turn: int, passes: nat)
    requires g > 0 && step == odd * g && WRAP == turn * g && step > 0
    requires INT_MAX < v + k * g <= hi + g
    ensures !Climb(v, hi, step, passes).ended
    decreases passes
  {
    StillBelow(v, hi, g, k);
    if passes > 0 {
      var next: Int64 := Wrap(v + step);
      Recount(k, odd, turn, g);
      NeverPast(next, hi, step, g, if next == v + step then k - odd else k - odd + turn, odd, turn, passes - 1);
    }
  }

  /** If `n` steps lead, up to wrapping, to a number above `hi`, the loop ends by then. */
  lemma {:induction false} LandsPast(v: Int64, hi: Int64, step: Int64, n: nat, k: int, landing: Int64)
    requires landing > hi && step > 0 && v + n * step == landing + k * WRAP
    ensures Climb(v, hi, step, n).ended
    decreases n
  {
    if v <= hi {
      var next: Int64 := Wrap(v + step);
      assert n > 0;
      assert (n - 1) * step == n * step - step;
      LandsPast(next, hi, step, n - 1, if next == v + step then k else k - 1, landing);
    }
  }

  lemma StepSplits(step: Int64) returns (odd: nat, rest: nat)
    requires step > 0
    ensures step == LowBit(step) * odd && odd % 2 == 1
    ensures WRAP == LowBit(step) * Pow2(rest)
  {
    Pow64();
    odd, rest := LowBitDivides(step, 64);
  }

  lemma NeverEnds(lo: Int64, hi: Int64, step: Int64, passes: nat)
    requires step > 0 && lo <= hi && FirstPast(lo, hi, LowBit(step)) > INT_MAX
    ensures !Climb(lo, hi, step, passes).ended
  {
    var g := LowBit(step);
    var odd, rest := StepSplits(step);
    NeverPast(lo, hi, step, g, (hi - lo) / g + 1, odd, Pow2(rest), passes);
  }

  /** `d` times `g` can be reached in steps of an odd multiple of `g`, wrapping. */
  lemma StepsTo(d: nat, g: nat, odd: nat, rest: nat) returns (n: nat, turns: int)
    requires odd % 2 == 1
    ensures n * (g * odd) == d * g + turns * (g * Pow2(rest))
  {
    var i, k := OddInverse(odd, rest);
    n, turns := i * d, d * k;
    StepsReach(d, g, odd, i, k, Pow2(rest));
  }

  lemma StepsReach(d: nat, g: nat, odd: nat, i: nat, k: int, turn: nat)
    requires odd * i == 1 + k * turn
    ensures i * d * (g * odd) == d * g + d * k * (g * turn)
  {
    assert i * d * (g * odd) == d * g * (odd * i);
    assert d * g * (1 + k * turn) == d * g + d * k * (g * turn);
  }

  /** Odd multiples of `g` reach every multiple, so some pass lands on the first number past. */
  lemma EndsWithin(lo: Int64, hi: Int64, step: Int64) returns (passes: nat)
    requires step > 0 && lo <= hi && FirstPast(lo, hi, LowBit(step)) <= INT_MAX
    ensures Climb(lo, hi, step, passes).ended
  {
    var odd, rest := StepSplits(step);
    var turns;
    passes, turns := StepsTo((hi - lo) / LowBit(step) + 1, LowBit(step), odd, rest);
    LandsPast(lo, hi, step, passes, turns, FirstPast(lo, hi, LowBit(step)));
  }

  /**
   * Checkable beforehand: with `g` the largest power of two in the step, the loop ends if and only if
   * some number above `hi` that fits differs from `lo` by a multiple of `g`.
   */
  lemma LevelsEndIff(lo: Int64, hi: Int64, step: Int64, room: Room)
    requires step > 0 && lo <= hi && HasRoom(lo, hi, step, room)
    ensures (exists passes: nat :: LevelsAfter(lo, hi, step, room, passes).Ended?)
       <==> FirstPast(lo, hi, LowBit(step)) <= INT_MAX
  {
    if FirstPast(lo, hi, LowBit(step)) <= INT_MAX {
      var enough := EndsWithin(lo, hi, step);
      assert LevelsAfter(lo, hi, step, room, enough).Ended?;
    } else {
      forall passes: nat ensures !LevelsAfter(lo, hi, step, room, passes).Ended? {
        NeverEnds(lo, hi, step, passes);
      }
    }
  }

  /** For a whole number of steps: right if max + step fits, else wrong levels if max + g does, else no end. */
  lemma ThreeFates(lo: Int64, hi: Int64, step: Int64, room: Room, passes: nat)
    requires step > 0 && lo <= hi && HasRoom(lo, hi, step, room) && (hi - lo) % step == 0
    ensures var r := LevelsAfter(lo, hi, step, room, passes);
            if hi + step <= INT_MAX then passes >= Count(lo, hi, step) ==> r == Ended(Rungs(lo, hi, step))
            else if hi + LowBit(step) <= INT_MAX then r != Ended(Rungs(lo, hi, step))
            else r.Looping?
    ensures hi + LowBit(step) <= INT_MAX ==>
              exists enough: nat :: LevelsAfter(lo, hi, step, room, enough).Ended?
  {
    WholeSteps(lo, hi, step);
    TopIsHi(lo, hi, step);
    LevelsRightIff(lo, hi, step, room, passes);
    LevelsEndIff(lo, hi, step, room);
    if hi + LowBit(step) > INT_MAX {
      NeverEnds(lo, hi, step, passes);
    }
  }

  lemma WholeSteps(lo: int, hi: int, step: Int64)
    requires step > 0 && lo <= hi && (hi - lo) % step == 0
    ensures FirstPast(lo, hi, LowBit(step)) == hi + LowBit(step)
  {
    var odd, rest := StepSplits(step);
    MultipleOfFactor(hi - lo, step, LowBit(step), odd);
  }

  lemma TopIsHi(lo: int, hi: int, step: nat)
    requires step > 0 && lo <= hi && (hi - lo) % step == 0
    ensures lo + (Count(lo, hi, step) - 1) * step == hi
  {
    var q := (hi - lo) / step;
    assert hi - lo == step * q;
  }

  const HALF := 0x4000_0000_0000_0000

  /** Two levels are asked for, and the loop never ends. */
  lemma TwoLevelsNeverEnd(room: Room, passes: nat)
    requires room >= 2
    ensures LevelsAfter(INT_MAX - 1, INT_MAX, 1, room, passes).Looping?
  {
    ThreeFates(INT_MAX - 1, INT_MAX, 1, room, passes);
  }

  /** Limits far from the largest `int` can loop too: 0, 2^62 in steps of 2^62. */
  lemma WideStepNeverEnds(room: Room, passes: nat)
    requires room >= 2
    ensures LevelsAfter(0, HALF, HALF, room, passes).Looping?
  {
    assert Pow2(64) == 4 * Pow2(62);
    Pow64();
    LowBitOfPower(62);
    ThreeFates(0, HALF, HALF, room, passes);
  }

  /** And the loop can end with levels outside the limits. */
  lemma WideStepEndsWrong(room: Room)
    requires room >= 2
    ensures HALF + LowBit(HALF + 1) <= INT_MAX < HALF + (HALF + 1)
    ensures LevelsAfter(-1, HALF, HALF + 1, room, 5) == Ended([-1, HALF, INT_MIN + 1, 2 - HALF, 3])
  {
  }

  // ----- Scores from an order

  /** The level a candidate at place `idx` of `n` gets, out of `m` levels. */
  function LevelIndex(idx: nat, n: nat, m: nat): int
    requires n >= 1 && m >= 1
  {
    if n == 1 then m - 1 else m - 1 - (idx * (m - 1)) / (n - 1)
  }

  lemma DivMonotone(a: int, b: int, d: int)
    requires a <= b && d > 0
    ensures a / d <= b / d
  {
    var x, y := a / d, b / d;
    assert a == d * x + a % d && b == d * y + b % d;
    assert d * (y - x) == d * y - d * x;
    ScaleAway(d, y - x);
  }

  /** Levels run from the top at the first place to the bottom at the last, never rising. */
  lemma LevelsFall(i: nat, j: nat, n: nat, m: nat)
    requires i <= j < n && m >= 1
    ensures 0 <= LevelIndex(j, n, m) <= LevelIndex(i, n, m) <= m - 1
    ensures LevelIndex(0, n, m) == m - 1
    ensures n >= 2 ==> LevelIndex(n - 1, n, m) == 0
  {
    if n >= 2 {
      var d, t := n - 1, m - 1;
      assert i * t <= j * t <= d * t by {
        ScaleLe(i, j, t);
        ScaleLe(j, d, t);
      }
      DivMonotone(0, i * t, d);
      DivMonotone(i * t, j * t, d);
      DivMonotone(j * t, d * t, d);
      assert (d * t) / d == t by {
        QuotientBetween(d * t, d, t);
      }
    }
  }

  /** How far below the top a place is: its share of all levels, rounded down. */
  lemma LevelIndexIff(idx: nat, n: nat, m: nat, down: int)
    requires idx < n && n >= 2 && m >= 1
    ensures LevelIndex(idx, n, m) == m - 1 - down
       <==> down * (n - 1) <= idx * (m - 1) < (down + 1) * (n - 1)
  {
    if down * (n - 1) <= idx * (m - 1) < (down + 1) * (n - 1) {
      QuotientBetween(idx * (m - 1), n - 1, down);
    }
    Quotient(idx * (m - 1), n - 1);
  }

  lemma Quotient(a: int, b: int)
    requires b > 0
    ensures a / b * b <= a < (a / b + 1) * b
  {
  }

  /** The steps from one candidate to the next are as even as whole numbers allow. */
  lemma LevelsSpread(idx: nat, n: nat, m: nat)
    requires idx + 1 < n && m >= 1
    ensures var step := LevelIndex(idx, n, m) - LevelIndex(idx + 1, n, m);
            (m - 1) / (n - 1) <= step <= (m - 1) / (n - 1) + 1
  {
    var a, b, d := idx * (m - 1), m - 1, n - 1;
    assert (idx + 1) * (m - 1) == a + b;
    QuotientOfSum(a, b, d);
  }

  lemma QuotientOfSum(a: int, b: int, d: int)
    requires d > 0
    ensures a / d + b / d <= (a + b) / d <= a / d + b / d + 1
  {
    var x, y := a / d, b / d;
    assert a == d * x + a % d && b == d * y + b % d;
    var r := a % d + b % d;
    assert a + b == d * (x + y) + r && 0 <= r < 2 * d;
    if r < d {
      assert (x + y) * d <= a + b < (x + y + 1) * d;
      QuotientBetween(a + b, d, x + y);
    } else {
      assert (x + y + 1) * d <= a + b < (x + y + 2) * d;
      QuotientBetween(a + b, d, x + y + 1);
    }
  }

  /** The level itself; the index is always in range. */
  function LevelOf(levels: seq<int>, idx: nat, n: nat): int
    requires levels != [] && idx < n
  {
    LevelsFall(idx, idx, n, |levels|);
    levels[LevelIndex(idx, n, |levels|)]
  }

  /** The scores of the first `k` candidates of the order. */
  function ScoresUpTo(order: seq<string>, levels: seq<int>, k: nat): map<string, int>
    requires levels != [] && k <= |order|
  {
    if k == 0 then map[]
    else ScoresUpTo(order, levels, k - 1)[order[k - 1] := LevelOf(levels, k - 1, |order|)]
  }

  function ScoresOf(order: seq<string>, levels: seq<int>): map<string, int> {
    if levels == [] then map[] else ScoresUpTo(order, levels, |order|)
  }

  /** The clamped level index of place `idx`; the clamp never bites. */
  method LevelAt(idx: nat, n: nat, m: nat) returns (levelIdx: nat)
    requires idx < n && n >= 2 && m >= 1
    ensures levelIdx == LevelIndex(idx, n, m) < m
  {
    var maxLevelIdx := m - 1;
    var level := maxLevelIdx - (idx * maxLevelIdx) / (n - 1);
    LevelsFall(idx, idx, n, m);
    if level < 0 {
      level := 0;
    }
    return level;
  }

  /** `scoresFromOrder`. */
  method ScoresFromOrder(order: seq<string>, levels: seq<int>) returns (out: map<string, int>)
    ensures out == ScoresOf(order, levels)
  {
    out := map[];
    if |order| == 0 || |levels| == 0 {
      return;
    }
    if |order| == 1 {
      out := out[order[0] := levels[|levels| - 1]];
      assert ScoresUpTo(order, levels, 0) == map[];
      return;
    }
    for idx := 0 to |order|
      invariant out == ScoresUpTo(order, levels, idx)
    {
      var levelIdx := LevelAt(idx, |order|, |levels|);
      out := out[order[idx] := levels[levelIdx]];
    }
  }

  /** Every candidate of the order, and no other, has a score: its level. */
  ghost predicate ScoredByOrder(scores: map<string, int>, order: seq<string>, levels: seq<int>)
    requires levels != []
  {
    && (forall id :: id in scores <==> id in order)
    && forall k :: 0 <= k < |order| ==> order[k] in scores && scores[order[k]] == LevelOf(levels, k, |order|)
  }

  /** The first `k` candidates of the order, and no others, are scored. */
  ghost predicate ScoredTo(scores: map<string, int>, order: seq<string>, levels: seq<int>, k: nat)
    requires levels != [] && k <= |order|
  {
    && (forall id :: id in scores ==> id in order[..k])
    && forall j :: 0 <= j < k ==> order[j] in scores && scores[order[j]] == LevelOf(levels, j, |order|)
  }

  lemma OneMoreScored(scores: map<string, int>, order: seq<string>, levels: seq<int>, k: nat, level: int)
    requires NoDup(order) && levels != [] && k < |order| && ScoredTo(scores, order, levels, k)
    requires level == LevelOf(levels, k, |order|)
    ensures ScoredTo(scores[order[k] := level], order, levels, k + 1)
  {
    assert order[..k + 1] == order[..k] + [order[k]];
  }

  lemma {:induction false} ScoredUpTo(order: seq<string>, levels: seq<int>, k: nat)
    requires NoDup(order) && levels != [] && k <= |order|
    ensures ScoredTo(ScoresUpTo(order, levels, k), order, levels, k)
  {
    if k > 0 {
      ScoredUpTo(order, levels, k - 1);
      OneMoreScored(ScoresUpTo(order, levels, k - 1), order, levels, k - 1, LevelOf(levels, k - 1, |order|));
    }
  }

  lemma ScoresAreByOrder(order: seq<string>, levels: seq<int>)
    requires NoDup(order) && levels != []
    ensures ScoredByOrder(ScoresOf(order, levels), order, levels)
  {
    ScoredUpTo(order, levels, |order|);
    assert order[..|order|] == order;
  }

  /** Model-based scores never rise down the order; first at the top level, last at the bottom. */
  lemma ScoresFollowOrder(order: seq<string>, levels: seq<int>, i: nat, j: nat)
    requires NoDup(order) && levels != [] && i <= j < |order|
    requires forall a, b :: 0 <= a <= b < |levels| ==> levels[a] <= levels[b]
    ensures var scores := ScoresOf(order, levels);
            && (forall id :: id in scores <==> id in order)
            && scores[order[i]] >= scores[order[j]]
            && scores[order[0]] == levels[|levels| - 1]
            && (|order| >= 2 ==> scores[order[|order| - 1]] == levels[0])
  {
    ScoresAreByOrder(order, levels);
    LevelsFall(i, j, |order|, |levels|);
    assert order[i] in order && order[j] in order && order[0] in order && order[|order| - 1] in order;
  }
}
