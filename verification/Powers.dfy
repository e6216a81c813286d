/** Remainders and powers of two, for arithmetic that wraps. */
module Powers {

  function Pow2(n: nat): (p: nat)
    ensures p > 0
  {
    if n == 0 then 1 else 2 * Pow2(n - 1)
  }

  lemma Twice(x: int, g: int, y: int)
    requires x == g * y
    ensures 2 * x == 2 * g * y
  {
  }

  lemma {:induction false} PowersAdd(m: nat, n: nat)
    ensures Pow2(m + n) == Pow2(m) * Pow2(n)
  {
    if m > 0 {
      PowersAdd(m - 1, n);
      Twice(Pow2(m + n - 1), Pow2(m - 1), Pow2(n));
    }
  }

  lemma {:induction false} PowersGrow(m: nat, n: nat)
    requires m <= n
    ensures Pow2(m) <= Pow2(n)
    decreases n
  {
    if m < n {
      PowersGrow(m, n - 1);
    }
  }

  lemma Squared(n: nat, p: nat)
    requires Pow2(n) == p
    ensures Pow2(n + n) == p * p
  {
    PowersAdd(n, n);
  }

  lemma Pow64()
    ensures Pow2(64) == 0x1_0000_0000_0000_0000
  {
    assert Pow2(4) == 16;
    Squared(4, 16);
    Squared(8, 0x100);
    Squared(16, 0x1_0000);
    Squared(32, 0x1_0000_0000);
  }

  lemma ScaleAway(b: int, d: int)
    requires b > 0
    ensures d >= 1 ==> b * d >= b
    ensures d <= -1 ==> b * d <= -b
  {
  }

  lemma QuotientBetween(a: int, b: int, q: int)
    requires b > 0 && q * b <= a < (q + 1) * b
    ensures a / b == q
  {
    var d := a / b - q;
    assert a == b * (a / b) + a % b;
    assert b * (a / b) == b * q + b * d;
    ScaleAway(b, d);
  }

  // ----- Equal remainders

  lemma RemainderIs(x: int, m: nat, q: int, r: nat)
    requires x == q * m + r && r < m
    ensures x % m == r
  {
    QuotientBetween(x, m, q);
  }

  lemma SameRemainder(x: int, y: int, m: nat, k: int)
    requires m > 0 && x == y + k * m
    ensures x % m == y % m
  {
    RemainderIs(x, m, y / m + k, y % m);
  }

  /** By how many times `m` two numbers with the same remainder differ. */
  lemma Apart(x: int, y: int, m: nat) returns (k: int)
    requires m > 0 && x % m == y % m
    ensures x == y + k * m
  {
    k := x / m - y / m;
  }

  lemma RemainderShifts(x: int, y: int, d: int, m: nat)
    requires m > 0 && x % m == y % m
    ensures (x + d) % m == (y + d) % m
  {
    var k := Apart(x, y, m);
    SameRemainder(x + d, y + d, m, k);
  }

  lemma MultipleOfFactor(x: int, m: nat, g: nat, odd: nat)
    requires g > 0 && m == g * odd && m > 0 && x % m == 0
    ensures x % g == 0
  {
    var k := x / m;
    assert x == k * odd * g;
    RemainderIs(x, g, k * odd, 0);
  }

  // ----- Odd numbers and powers of two

  /** The largest power of two that divides `x`. */
  function LowBit(x: nat): (g: nat)
    requires x > 0
    ensures 0 < g <= x
  {
    if x % 2 == 1 then 1 else 2 * LowBit(x / 2)
  }

  /** It leaves an odd number, and divides every power of two above `x`. */
  lemma {:induction false} LowBitDivides(x: nat, bits: nat) returns (odd: nat, rest: nat)
    requires 0 < x < Pow2(bits)
    ensures x == LowBit(x) * odd && odd % 2 == 1
    ensures Pow2(bits) == LowBit(x) * Pow2(rest)
    decreases x
  {
    if x % 2 == 1 {
      return x, bits;
    }
    odd, rest := LowBitDivides(x / 2, bits - 1);
    Twice(x / 2, LowBit(x / 2), odd);
    Twice(Pow2(bits - 1), LowBit(x / 2), Pow2(rest));
  }

  lemma {:induction false} LowBitOfPower(n: nat)
    ensures LowBit(Pow2(n)) == Pow2(n)
  {
    if n > 0 {
      LowBitOfPower(n - 1);
    }
  }

  lemma HalfAndTwice(k: int, p: int)
    requires k % 2 == 0
    ensures k * p == k / 2 * (2 * p)
  {
    var h := k / 2;
    assert k == 2 * h;
  }

  /** One power further: add the modulus so far if the multiple of it is odd. */
  lemma InverseNext(odd: nat, p: nat, i: nat, k: int) returns (inverse: nat, j: int)
    requires odd % 2 == 1 && odd * i == 1 + k * p
    ensures odd * inverse == 1 + j * (2 * p)
  {
    if k % 2 == 0 {
      HalfAndTwice(k, p);
      return i, k / 2;
    }
    HalfAndTwice(k + odd, p);
    assert odd * (i + p) == odd * i + odd * p;
    assert (k + odd) * p == k * p + odd * p;
    return i + p, (k + odd) / 2;
  }

  /** An odd number has an inverse modulo every power of two. */
  lemma {:induction false} OddInverse(odd: nat, n: nat) returns (inverse: nat, k: int)
    requires odd % 2 == 1
    ensures odd * inverse == 1 + k * Pow2(n)
  {
    if n == 0 {
      return 0, -1;
    }
    inverse, k := OddInverse(odd, n - 1);
    inverse, k := InverseNext(odd, Pow2(n - 1), inverse, k);
  }
}
