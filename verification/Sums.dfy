/** Finite sums over sequences, and the counting arguments the scorers rest on. */
module Sums {

  /** The sum of `f` over the elements of `s`, left to right. */
  function Sum<T>(s: seq<T>, f: T -> int): int {
    if s == [] then 0 else f(s[0]) + Sum(s[1..], f)
  }

  /** The elements of all batches, in order. */
  function Flatten<T>(batches: seq<seq<T>>): seq<T> {
    if batches == [] then [] else Flatten(batches[..|batches| - 1]) + batches[|batches| - 1]
  }

  ghost predicate NoDup<T>(s: seq<T>) {
    forall i, j :: 0 <= i < j < |s| ==> s[i] != s[j]
  }

  /** Position of the first occurrence of `x`, or `|s|` when `x` is absent. */
  function Pos<T(==)>(s: seq<T>, x: T): (k: nat)
    ensures k <= |s|
    ensures k < |s| <==> x in s
    ensures k < |s| ==> s[k] == x
    ensures forall i :: 0 <= i < k ==> s[i] != x
  {
    if s == [] then 0
    else if s[0] == x then 0
    else 1 + Pos(s[1..], x)
  }

  lemma PosAt<T>(s: seq<T>, i: nat)
    requires NoDup(s) && i < |s|
    ensures Pos(s, s[i]) == i
  {
  }

  lemma NoDupTail<T>(s: seq<T>, x: T)
    requires NoDup(s) && s != []
    ensures x in s[1..] <==> x in s && x != s[0]
  {
  }

  lemma NoMembers<T(!new)>(s: seq<T>)
    ensures (forall x :: x !in s) ==> s == []
  {
    if s != [] {
      assert s[0] in s;
    }
  }

  /** `at` lists the numbers in `s`, the least first. */
  ghost predicate ListsInOrder(at: seq<nat>, s: set<nat>) {
    && (forall i, j :: 0 <= i < j < |at| ==> at[i] < at[j])
    && forall k :: k in at <==> k in s
  }

  lemma OneMoreListed(at: seq<nat>, s: set<nat>, n: nat)
    requires ListsInOrder(at, s) && forall k :: k in s ==> k < n
    ensures ListsInOrder(at + [n], s + {n})
  {
    assert forall i :: 0 <= i < |at| ==> at[i] in at;
  }

  /** All numbers below `n`, in order, are 0, 1, ..., n - 1. */
  lemma {:induction false} AllListed(at: seq<nat>, s: set<nat>, n: nat)
    requires ListsInOrder(at, s) && forall k: nat :: k in s <==> k < n
    ensures |at| == n && forall i :: 0 <= i < n ==> at[i] == i
    decreases n
  {
    if n == 0 {
      NoMembers(at);
    } else {
      var last := |at| - 1;
      assert n - 1 in at;
      var i :| 0 <= i < |at| && at[i] == n - 1;
      assert at[last] in at && at[last] == n - 1;
      assert at == at[..last] + [n - 1];
      AllListed(at[..last], s - {n - 1}, n - 1);
    }
  }

  lemma {:induction false} SumEq<T>(s: seq<T>, f: T -> int, g: T -> int)
    requires forall x :: x in s ==> f(x) == g(x)
    ensures Sum(s, f) == Sum(s, g)
  {
    if s != [] {
      SumEq(s[1..], f, g);
    }
  }

  lemma {:induction false} SumLe<T>(s: seq<T>, f: T -> int, g: T -> int)
    requires forall x :: x in s ==> f(x) <= g(x)
    ensures Sum(s, f) <= Sum(s, g)
  {
    if s != [] {
      SumLe(s[1..], f, g);
    }
  }

  lemma {:induction false} SumAdd<T>(s: seq<T>, f: T -> int, g: T -> int, h: T -> int)
    requires forall x :: x in s ==> h(x) == f(x) + g(x)
    ensures Sum(s, h) == Sum(s, f) + Sum(s, g)
  {
    if s != [] {
      SumAdd(s[1..], f, g, h);
    }
  }

  lemma {:induction false} SumScale<T>(s: seq<T>, f: T -> int, g: T -> int, k: int)
    requires forall x :: x in s ==> g(x) == k * f(x)
    ensures Sum(s, g) == k * Sum(s, f)
  {
    if s != [] {
      SumScale(s[1..], f, g, k);
      assert k * (f(s[0]) + Sum(s[1..], f)) == k * f(s[0]) + k * Sum(s[1..], f);
    }
  }

  lemma {:induction false} SumConst<T>(s: seq<T>, f: T -> int, k: int)
    requires forall x :: x in s ==> f(x) == k
    ensures Sum(s, f) == k * |s|
  {
    if s != [] {
      SumConst(s[1..], f, k);
      assert k + k * (|s| - 1) == k * |s|;
    }
  }

  lemma {:induction false} SumAppend<T>(s: seq<T>, t: seq<T>, f: T -> int)
    ensures Sum(s + t, f) == Sum(s, f) + Sum(t, f)
  {
    if s == [] {
      assert s + t == t;
    } else {
      SumAppend(s[1..], t, f);
      assert (s + t)[1..] == s[1..] + t;
    }
  }

  /** `block` written `q` times. */
  function Repeat<T>(block: seq<T>, q: nat): (r: seq<T>)
    ensures forall x :: x in r ==> x in block
  {
    if q == 0 then [] else Repeat(block, q - 1) + block
  }

  lemma {:induction false} SumRepeat<T>(block: seq<T>, q: nat, f: T -> int)
    ensures |Repeat(block, q)| == q * |block| && Sum(Repeat(block, q), f) == q * Sum(block, f)
  {
    if q > 0 {
      SumRepeat(block, q - 1, f);
      SumAppend(Repeat(block, q - 1), block, f);
      assert (q - 1) * |block| + |block| == q * |block|;
      assert (q - 1) * Sum(block, f) + Sum(block, f) == q * Sum(block, f);
    }
  }

  lemma SumOfTwo<T>(x: T, y: T, f: T -> int)
    ensures Sum([x, y], f) == f(x) + f(y)
  {
    assert Sum([x, y], f) == f(x) + Sum([x, y][1..], f) && [x, y][1..] == [y];
    assert Sum([y], f) == f(y) + Sum([y][1..], f) && [y][1..] == [];
  }

  /** One term can be pulled out of a sum. */
  lemma {:induction false} SumPullOut<T>(t: seq<T>, k: nat, f: T -> int)
    requires k < |t|
    ensures Sum(t, f) == f(t[k]) + Sum(t[..k] + t[k + 1..], f)
  {
    SumAppend(t[..k], t[k + 1..], f);
    SumAppend(t[..k], t[k..], f);
    assert t == t[..k] + t[k..];
    assert t[k..][1..] == t[k + 1..];
  }

  /** Exactly one entry counts. */
  lemma SumOneHit<T>(s: seq<T>, j: nat, f: T -> int)
    requires j < |s| && forall i :: 0 <= i < |s| ==> f(s[i]) == if i == j then 1 else 0
    ensures Sum(s, f) == 1
  {
    SumPullOut(s, j, f);
    var rest := s[..j] + s[j + 1..];
    forall x | x in rest ensures f(x) == 0 {
      var k :| 0 <= k < |rest| && rest[k] == x;
      assert x == if k < j then s[k] else s[k + 1];
    }
    SumConst(rest, f, 0);
  }

  lemma PullOutMultiset<T>(s: seq<T>, t: seq<T>, k: nat)
    requires s != [] && k < |t| && t[k] == s[0]
    requires multiset(s) == multiset(t)
    ensures multiset(s[1..]) == multiset(t[..k] + t[k + 1..])
  {
    assert s == [s[0]] + s[1..];
    assert multiset(s) == multiset{s[0]} + multiset(s[1..]);
    assert t == t[..k] + [t[k]] + t[k + 1..];
    var a, b := multiset(s[1..]), multiset(t[..k]) + multiset(t[k + 1..]);
    assert multiset(t) == b + multiset{s[0]};
    forall x ensures a[x] == b[x] {
      assert (a + multiset{s[0]})[x] == (b + multiset{s[0]})[x];
    }
  }

  /** A sum does not depend on the order of its terms. */
  lemma {:induction false} SumPermuted<T>(s: seq<T>, t: seq<T>, f: T -> int)
    requires multiset(s) == multiset(t)
    ensures Sum(s, f) == Sum(t, f)
    decreases |s|
  {
    if s == [] {
      assert |multiset(t)| == 0;
    } else {
      assert s[0] in multiset(t);
      var k :| 0 <= k < |t| && t[k] == s[0];
      PullOutMultiset(s, t, k);
      SumPermuted(s[1..], t[..k] + t[k + 1..], f);
      SumPullOut(t, k, f);
    }
  }

  /** Two duplicate-free sequences with the same elements have the same multiset. */
  lemma {:induction false} SameElementsSameMultiset<T>(s: seq<T>, t: seq<T>)
    requires NoDup(s) && NoDup(t)
    requires forall x :: x in s <==> x in t
    ensures multiset(s) == multiset(t)
  {
    forall x ensures multiset(s)[x] == multiset(t)[x] {
      NoDupMultiplicity(s, x);
      NoDupMultiplicity(t, x);
    }
  }

  lemma {:induction false} NoDupMultiplicity<T>(s: seq<T>, x: T)
    requires NoDup(s)
    ensures multiset(s)[x] == if x in s then 1 else 0
  {
    if s != [] {
      assert s == [s[0]] + s[1..];
      NoDupMultiplicity(s[1..], x);
    }
  }

  function Row<A, B>(f: (A, B) -> int, a: A): B -> int { b => f(a, b) }

  function Col<A, B>(f: (A, B) -> int, b: B): A -> int { a => f(a, b) }

  function RowSums<A, B>(t: seq<B>, f: (A, B) -> int): A -> int { a => Sum(t, Row(f, a)) }

  function ColSums<A, B>(s: seq<A>, f: (A, B) -> int): B -> int { b => Sum(s, Col(f, b)) }

  /** Double counting: a table summed by rows equals the table summed by columns. */
  lemma {:induction false} SumSwap<A, B>(s: seq<A>, t: seq<B>, f: (A, B) -> int)
    ensures Sum(s, RowSums(t, f)) == Sum(t, ColSums(s, f))
  {
    if s == [] {
      SumConst(t, ColSums(s, f), 0);
    } else {
      SumSwap(s[1..], t, f);
      SumAdd(t, Row(f, s[0]), ColSums(s[1..], f), ColSums(s, f));
    }
  }

  // ----- Removing elements from a sequence

  /** `s` without the elements of `gone`, in the same order. */
  function Without<T(==,!new)>(s: seq<T>, gone: set<T>): (r: seq<T>)
    ensures forall x :: x in r <==> x in s && x !in gone
  {
    if s == [] then []
    else if s[0] in gone then Without(s[1..], gone)
    else [s[0]] + Without(s[1..], gone)
  }

  lemma {:induction false} WithoutNoDup<T(!new)>(s: seq<T>, gone: set<T>)
    requires NoDup(s)
    ensures NoDup(Without(s, gone))
  {
    if s != [] {
      WithoutNoDup(s[1..], gone);
      var r := Without(s[1..], gone);
      assert s[0] !in s[1..];
      assert s[0] !in r;
    }
  }

  lemma {:induction false} WithoutAppend<T(!new)>(s: seq<T>, t: seq<T>, gone: set<T>)
    ensures Without(s + t, gone) == Without(s, gone) + Without(t, gone)
  {
    if s == [] {
      assert s + t == t;
    } else {
      assert (s + t)[1..] == s[1..] + t;
      WithoutAppend(s[1..], t, gone);
    }
  }

  /** Removing in two batches is removing the union once. */
  lemma {:induction false} WithoutCompose<T(!new)>(s: seq<T>, a: set<T>, b: set<T>)
    ensures Without(Without(s, a), b) == Without(s, a + b)
  {
    if s != [] {
      WithoutCompose(s[1..], a, b);
      if s[0] !in a {
        assert Without(s, a)[1..] == Without(s[1..], a);
      }
    }
  }

  lemma PosAhead<T>(h: T, r: seq<T>, x: T)
    ensures Pos([h] + r, x) == if h == x then 0 else 1 + Pos(r, x)
  {
  }

  /** Survivors keep their relative order. */
  lemma {:induction false} WithoutKeepsOrder<T(!new)>(s: seq<T>, gone: set<T>, x: T, y: T)
    requires x !in gone && y !in gone
    ensures Pos(Without(s, gone), x) < Pos(Without(s, gone), y) <==> Pos(s, x) < Pos(s, y)
  {
    if s != [] {
      var t, r := s[1..], Without(s[1..], gone);
      WithoutKeepsOrder(t, gone, x, y);
      if s[0] !in gone {
        PosAhead(s[0], r, x);
        PosAhead(s[0], r, y);
      }
    }
  }

  /** A duplicate-free sequence drawn from a set is no longer than the set (pigeonhole). */
  lemma {:induction false} Pigeonhole<T>(s: seq<T>, pool: set<T>)
    requires NoDup(s)
    requires forall x :: x in s ==> x in pool
    ensures |s| <= |pool|
    ensures |s| == |pool| ==> forall x :: x in pool ==> x in s
  {
    if s != [] {
      assert s[0] !in s[1..];
      Pigeonhole(s[1..], pool - {s[0]});
      assert s == [s[0]] + s[1..];
    }
  }
}
