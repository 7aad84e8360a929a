/** Bytes, powers of two, remainders and permutations: the vocabulary of every other module. */
module Common {
  type Byte = b: int | 0 <= b < 256

  datatype Option<+T> = None | Some(value: T)

  function Pow2(n: nat): (p: nat)
    ensures p > 0
  {
    if n == 0 then 1 else 2 * Pow2(n - 1)
  }

  lemma {:induction false} Pow2Add(a: nat, b: nat)
    ensures Pow2(a + b) == Pow2(a) * Pow2(b)
  {
    if b > 0 {
      Pow2Add(a, b - 1);
      assert Pow2(a) * (2 * Pow2(b - 1)) == 2 * (Pow2(a) * Pow2(b - 1));
    }
  }

  lemma {:induction false} Pow2Monotone(a: nat, b: nat)
    requires a <= b
    ensures Pow2(a) <= Pow2(b)
  {
    if a < b { Pow2Monotone(a, b - 1); }
  }

  ghost predicate AllAre(s: seq<int>, v: int) {
    forall x :: 0 <= x < |s| ==> s[x] == v
  }

  ghost predicate AllSame(s: seq<int>) {
    s == [] || AllAre(s, s[0])
  }

  lemma SmallMultiple(d: int, n: int)
    requires -n < d * n < n
    ensures d == 0
  {
    assert d < 1 && d > -1;
  }

  /** A quotient and remainder found by hand are the ones the operators give. */
  lemma DivModUnique(x: int, n: int, q: int, r: int)
    requires n > 0 && 0 <= r < n && x == q * n + r
    ensures x / n == q && x % n == r
  {
    var d := x / n - q;
    assert x == (x / n) * n + x % n;
    assert -n < d * n < n;
    SmallMultiple(d, n);
  }

  /** Reducing early does not change a later remainder. */
  lemma ModAdd(x: int, k: int, n: int)
    requires n > 0
    ensures (x % n + k) % n == (x + k) % n
  {
    var y := x % n + k;
    var q := x / n;
    assert x + k == q * n + y;
    assert y == (y / n) * n + y % n;
    assert x + k == (q + y / n) * n + y % n by {
      assert (q + y / n) * n == q * n + (y / n) * n;
    }
    DivModUnique(x + k, n, q + y / n, y % n);
  }

  /** All entries lie in [0, n). */
  ghost predicate InRange(p: seq<int>, n: int) {
    forall i :: 0 <= i < |p| ==> 0 <= p[i] < n
  }

  ghost predicate Distinct<T>(p: seq<T>) {
    forall i, j :: 0 <= i < j < |p| ==> p[i] != p[j]
  }

  /** p lists each of 0 .. n-1 exactly once. */
  ghost predicate IsPerm(p: seq<int>, n: int) {
    |p| == n && InRange(p, n) && Distinct(p)
  }

  /** More slots than values forces a repetition. */
  lemma {:induction false} Pigeonhole(p: seq<int>, n: nat)
    requires InRange(p, n) && Distinct(p)
    ensures |p| <= n
  {
    if p != [] {
      assert 0 <= p[0] < n;
      if k :| 0 <= k < |p| && p[k] == n - 1 {
        Pigeonhole(p[..k] + p[k + 1..], n - 1);
      } else {
        Pigeonhole(p, n - 1);
      }
    }
  }

  /** A permutation reaches every value. */
  lemma PermOnto(p: seq<int>, n: nat, v: int)
    requires IsPerm(p, n) && 0 <= v < n
    ensures exists k :: 0 <= k < n && p[k] == v
  {
    if forall k :: 0 <= k < n ==> p[k] != v {
      Pigeonhole(p + [v], n);
    }
  }

  lemma {:induction false} CountTwice<T>(s: seq<T>, i: int, j: int)
    requires 0 <= i < j < |s| && s[i] == s[j]
    ensures multiset(s)[s[i]] >= 2
  {
    assert s == s[..i] + [s[i]] + s[i + 1..j] + [s[j]] + s[j + 1..];
  }

  lemma {:induction false} CountOnce<T>(s: seq<T>, v: T)
    requires Distinct(s)
    ensures multiset(s)[v] <= 1
  {
    if s != [] {
      assert s == [s[0]] + s[1..];
      CountOnce(s[1..], v);
      forall k | 0 <= k < |s| - 1 ensures s[1..][k] != s[0] { assert s[1..][k] == s[k + 1]; }
      assert s[0] !in s[1..];
    }
  }

  /** Rearranging a permutation gives a permutation. */
  lemma RearrangedPerm(p: seq<int>, q: seq<int>, n: int)
    requires IsPerm(p, n) && multiset(p) == multiset(q)
    ensures IsPerm(q, n)
  {
    assert |p| == |multiset(p)| == |multiset(q)| == |q|;
    forall i | 0 <= i < |q| ensures 0 <= q[i] < n { assert q[i] in multiset(p); }
    forall i, j | 0 <= i < j < |q| ensures q[i] != q[j] {
      if q[i] == q[j] { CountTwice(q, i, j); CountOnce(p, q[i]); }
    }
  }
}
