/** Why joining two lightest trees is right: for any code of the trees at hand there is one, no worse, of the trees after the
    joining. Codes are compared by cost, and by the height of the deepest leaf when the costs are the same. */
module HuffmanOptimal {
  import opened Common
  import C = HuffmanCodes

  function Term(w: int, n: int): int {
    if n < 0 then 0 else w * n
  }

  /** The weighted length of a code; a node without a code has a length below zero. */
  function Cost(w: seq<int>, m: seq<int>): int
    requires |w| == |m|
  {
    if m == [] then 0 else Cost(w[..|m| - 1], m[..|m| - 1]) + Term(w[|m| - 1], m[|m| - 1])
  }

  /** Lengths up to l that leave room for their codes. */
  ghost predicate Lengths(m: seq<int>, l: nat) {
    (forall k :: 0 <= k < |m| ==> m[k] <= l) && C.Kraft(m, l, l) <= Pow2(l)
  }

  /** The code m costs less than c, or the same and with no tree of depth d[k] reaching down to h. */
  ghost predicate Beats(w: seq<int>, d: seq<int>, m: seq<int>, c: int, h: int)
    requires |w| == |d| == |m|
  {
    Cost(w, m) < c || (Cost(w, m) == c && forall k :: 0 <= k < |m| && m[k] >= 0 ==> m[k] + d[k] < h)
  }

  /** Lighter, or as heavy and not deeper. */
  ghost predicate Before(w: seq<int>, d: seq<int>, i: int, j: int)
    requires |w| == |d| && 0 <= i < |w| && 0 <= j < |w|
  {
    w[i] < w[j] || (w[i] == w[j] && d[i] <= d[j])
  }

  lemma {:induction false} CostUpdate(w: seq<int>, m: seq<int>, i: int, v: int)
    requires |w| == |m| && 0 <= i < |m|
    ensures Cost(w, m[i := v]) == Cost(w, m) - Term(w[i], m[i]) + Term(w[i], v)
  {
    var n := |m| - 1;
    if i == n {
      assert m[i := v][..n] == m[..n];
    } else {
      assert m[i := v][..n] == m[..n][i := v];
      CostUpdate(w[..n], m[..n], i, v);
    }
  }

  lemma CostAppend(w: seq<int>, m: seq<int>, x: int, v: int)
    requires |w| == |m|
    ensures Cost(w + [x], m + [v]) == Cost(w, m) + Term(x, v)
  {
    assert (w + [x])[..|m|] == w && (m + [v])[..|m|] == m;
  }

  lemma {:induction false} CostNonNegative(w: seq<int>, m: seq<int>)
    requires |w| == |m| && forall k :: 0 <= k < |w| && m[k] >= 0 ==> w[k] > 0
    ensures Cost(w, m) >= 0 && forall k :: 0 <= k < |w| && m[k] > 0 ==> Cost(w, m) > 0
  {
    if m != [] {
      var n := |m| - 1;
      CostNonNegative(w[..n], m[..n]);
      if m[n] >= 0 { TermSign(w[n], m[n]); }
    }
  }

  lemma {:induction false} CostFront(w: seq<int>, m: seq<int>)
    requires |w| == |m| > 0
    ensures Cost(w, m) == Term(w[0], m[0]) + Cost(w[1..], m[1..])
  {
    if |m| == 1 {
      assert w[..0] == [] && m[..0] == [] && w[1..] == [] && m[1..] == [];
    } else {
      var n := |m| - 1;
      CostFront(w[..n], m[..n]);
      assert w[1..][..n - 1] == w[..n][1..] && m[1..][..n - 1] == m[..n][1..];
    }
  }

  lemma BeatsFront(w: seq<int>, d: seq<int>, m: seq<int>, c: int, h: int)
    requires |w| == |m| && |d| == |m| + 1 && forall k :: 1 <= k < |d| ==> d[k] == 0
    requires Cost(w, m) < c || (Cost(w, m) == c && forall k :: 0 <= k < |m| ==> m[k] < h)
    ensures Beats([0] + w, d, [-1] + m, c, h)
  {
    var v, n := [0] + w, [-1] + m;
    CostFront(v, n);
    assert v[1..] == w && n[1..] == m;
    hide Cost;
    forall k | 0 <= k < |n| && n[k] >= 0 && Cost(w, m) == c ensures n[k] + d[k] < h { assert n[k] == m[k - 1]; }
  }

  lemma {:induction false} KraftFront(m: seq<int>, l: nat)
    ensures C.Kraft([-1] + m, l, l) == C.Kraft(m, l, l)
  {
    if m == [] {
      assert ([-1] + m)[..0] == [];
    } else {
      KraftFront(m[..|m| - 1], l);
      assert ([-1] + m)[..|m|] == [-1] + m[..|m| - 1];
    }
  }

  lemma LengthsFront(m: seq<int>, l: nat)
    requires Lengths(m, l)
    ensures Lengths([-1] + m, l)
  {
    KraftFront(m, l);
  }

  lemma TermSign(w: int, n: int)
    requires w >= 0
    ensures Term(w, n) >= 0 && (w > 0 && n > 0 ==> Term(w, n) > 0)
  {
  }

  function Part(v: int, l: nat): nat {
    if 0 <= v <= l then Pow2(l - v) else 0
  }

  lemma {:induction false} KraftUpdate(m: seq<int>, l: nat, i: int, v: int)
    requires 0 <= i < |m|
    ensures C.Kraft(m[i := v], l, l) == C.Kraft(m, l, l) - Part(m[i], l) + Part(v, l)
  {
    var n := |m| - 1;
    if i == n {
      assert m[i := v][..n] == m[..n];
    } else {
      assert m[i := v][..n] == m[..n][i := v];
      KraftUpdate(m[..n], l, i, v);
    }
  }

  lemma KraftAppend(m: seq<int>, l: nat, v: int)
    ensures C.Kraft(m + [v], l, l) == C.Kraft(m, l, l) + Part(v, l)
  {
    assert (m + [v])[..|m|] == m;
  }

  /** With no length at the limit the limit may be lowered. */
  lemma LowerLimit(m: seq<int>, l: nat)
    requires Lengths(m, l) && l > 0 && forall k :: 0 <= k < |m| ==> m[k] < l
    ensures Lengths(m, l - 1) && C.Kraft(m, l, l) == 2 * C.Kraft(m, l - 1, l - 1)
  {
    C.KraftScale(m, l - 1, 1);
    assert Pow2(1) == 2 && Pow2(l) == 2 * Pow2(l - 1);
  }

  /** A single longest code may be one bit shorter: the others leave an even part of the space free, and so more than it takes. */
  lemma ShorterFits(m: seq<int>, l: nat, i: int)
    requires Lengths(m, l) && l > 0 && 0 <= i < |m| && m[i] == l && forall k :: 0 <= k < |m| && k != i ==> m[k] < l
    ensures Lengths(m[i := l - 1], l - 1)
  {
    var without, shorter := m[i := -1], m[i := l - 1];
    KraftUpdate(m, l, i, -1);
    KraftUpdate(m, l, i, l - 1);
    assert Pow2(0) == 1 && Pow2(1) == 2 && Pow2(l) == 2 * Pow2(l - 1);
    hide C.Kraft, Pow2;
    LowerLimit(without, l);
    assert Lengths(shorter, l);
    LowerLimit(shorter, l);
  }

  lemma Shorten(w: seq<int>, d: seq<int>, m: seq<int>, l: nat, c: int, h: int, i: int)
    requires |w| == |d| == |m| && Lengths(m, l) && l > 0 && 0 <= i < |m| && m[i] == l && w[i] > 0 && Beats(w, d, m, c, h)
    requires forall k :: 0 <= k < |m| && k != i ==> m[k] < l
    ensures Lengths(m[i := l - 1], l - 1) && Beats(w, d, m[i := l - 1], c, h)
  {
    ShorterFits(m, l, i);
    CostUpdate(w, m, i, l - 1);
    assert w[i] * (l - 1) == w[i] * l - w[i];
    hide Cost, Lengths;
  }

  /** The lighter of two trees may have the longer code. */
  lemma SwapCodes(w: seq<int>, d: seq<int>, m: seq<int>, l: nat, c: int, h: int, i: int, j: int)
    requires |w| == |d| == |m| && Lengths(m, l) && 0 <= i < |m| && 0 <= j < |m| && i != j && 0 <= m[i] <= m[j]
    requires Before(w, d, i, j) && Beats(w, d, m, c, h)
    ensures Lengths(m[i := m[j]][j := m[i]], l) && Beats(w, d, m[i := m[j]][j := m[i]], c, h)
  {
    var m' := m[i := m[j]][j := m[i]];
    KraftUpdate(m, l, i, m[j]);
    KraftUpdate(m[i := m[j]], l, j, m[i]);
    CostUpdate(w, m, i, m[j]);
    CostUpdate(w, m[i := m[j]], j, m[i]);
    Exchange(w[i], w[j], m[i], m[j]);
    assert Cost(w, m') == Cost(w, m) - w[i] * m[i] + w[i] * m[j] - w[j] * m[j] + w[j] * m[i];
    hide Cost;
    assert forall k :: 0 <= k < |m| && k != i && k != j ==> m'[k] == m[k];
  }

  lemma Exchange(a: int, b: int, x: int, y: int)
    requires a <= b && x <= y
    ensures a * y + b * x <= a * x + b * y && (a < b && x < y ==> a * y + b * x < a * x + b * y)
  {
    assert (b - a) * (y - x) == (a * x + b * y) - (a * y + b * x);
    TermSign(b - a, y - x);
  }

  /** The trees that have a code. */
  ghost predicate Alike(m: seq<int>, m': seq<int>) {
    |m| == |m'| && forall k :: 0 <= k < |m| ==> (m[k] >= 0 <==> m'[k] >= 0)
  }

  /** Some code as good has two longest codes. */
  lemma {:induction false} TwoLongest(w: seq<int>, d: seq<int>, m: seq<int>, l: nat, c: int, h: int, a: int, b: int)
    returns (m': seq<int>, top: nat, i: int, j: int)
    requires |w| == |d| == |m| && Lengths(m, l) && Beats(w, d, m, c, h) && forall k :: 0 <= k < |w| && m[k] >= 0 ==> w[k] > 0
    requires 0 <= a < |m| && 0 <= b < |m| && a != b && m[a] >= 0 && m[b] >= 0
    ensures Alike(m, m') && Lengths(m', top) && Beats(w, d, m', c, h)
    ensures top > 0 && 0 <= i < |m| && 0 <= j < |m| && i != j && m'[i] == m'[j] == top
    decreases l
  {
    if x, y :| 0 <= x < |m| && 0 <= y < |m| && x != y && m[x] == m[y] == l {
      m', top, i, j := m, l, x, y;
      KraftUpdate(m, l, x, -1);
      KraftUpdate(m[x := -1], l, y, -1);
      assert l == 0 ==> Pow2(l) == 1;
    } else if x :| 0 <= x < |m| && m[x] == l {
      assert l > 0;
      Shorten(w, d, m, l, c, h, x);
      m', top, i, j := TwoLongest(w, d, m[x := l - 1], l - 1, c, h, a, b);
    } else {
      assert m[a] < l;
      LowerLimit(m, l);
      m', top, i, j := TwoLongest(w, d, m, l - 1, c, h, a, b);
    }
  }

  /** Some code as good gives longest codes to a and b, when no other tree comes before them. */
  lemma LightestLongest(w: seq<int>, d: seq<int>, m: seq<int>, l: nat, c: int, h: int, a: int, b: int) returns (m': seq<int>, top: nat)
    requires |w| == |d| == |m| && Lengths(m, l) && Beats(w, d, m, c, h) && forall k :: 0 <= k < |w| && m[k] >= 0 ==> w[k] > 0
    requires 0 <= a < |m| && 0 <= b < |m| && a != b && m[a] >= 0 && m[b] >= 0 && Before(w, d, a, b)
    requires forall k :: 0 <= k < |m| && m[k] >= 0 && k != a ==> Before(w, d, b, k)
    ensures Alike(m, m') && Lengths(m', top) && Beats(w, d, m', c, h) && top > 0 && m'[a] == m'[b] == top
  {
    var i, j;
    m', top, i, j := TwoLongest(w, d, m, l, c, h, a, b);
    if m'[a] != top {
      if i == b { i, j := j, i; }
      SwapCodes(w, d, m', top, c, h, a, i);
      m' := m'[a := m'[i]][i := m'[a]];
      i := a;
    } else if j == a {
      i, j := j, i;
    }
    if m'[b] != top {
      if j == a { j := i; }
      SwapCodes(w, d, m', top, c, h, b, j);
      m' := m'[b := m'[j]][j := m'[b]];
    }
  }

  /** n with one code for the tree of a and b in place of theirs. */
  function Merged(n: seq<int>, a: int, b: int): (m: seq<int>)
    requires 0 <= a < |n| && 0 <= b < |n|
    ensures |m| == |n| + 1
  {
    n[a := -1][b := -1] + [n[a] - 1]
  }

  lemma MergedFits(n: seq<int>, top: nat, a: int, b: int)
    requires Lengths(n, top) && 0 <= a < |n| && 0 <= b < |n| && a != b && n[a] == n[b] == top > 0
    ensures Lengths(Merged(n, a, b), top)
  {
    KraftUpdate(n, top, a, -1);
    KraftUpdate(n[a := -1], top, b, -1);
    KraftAppend(n[a := -1][b := -1], top, top - 1);
    assert Pow2(0) == 1 && Pow2(1) == 2;
    hide C.Kraft, Pow2;
  }

  lemma MergedCost(w: seq<int>, n: seq<int>, a: int, b: int)
    requires |w| == |n| && 0 <= a < |n| && 0 <= b < |n| && a != b && n[a] == n[b] > 0
    ensures Cost(w + [w[a] + w[b]], Merged(n, a, b)) == Cost(w, n) - (w[a] + w[b])
  {
    var s, t := n[a := -1][b := -1], n[a];
    CostUpdate(w, n, a, -1);
    CostUpdate(w, n[a := -1], b, -1);
    CostAppend(w, s, w[a] + w[b], t - 1);
    Factor(w[a], w[b], t);
    hide Cost;
  }

  /** A code of the trees after joining a and b, as much cheaper as the new tree weighs. */
  lemma MergeCodes(w: seq<int>, d: seq<int>, m: seq<int>, l: nat, c: int, h: int, a: int, b: int, x: int) returns (m': seq<int>, top: nat)
    requires |w| == |d| == |m| && 0 <= a < |m| && 0 <= b < |m| && a != b && m[a] >= 0 && m[b] >= 0 && Before(w, d, a, b)
    requires Lengths(m, l) && Beats(w, d, m, c + (w[a] + w[b]), h) && forall k :: 0 <= k < |w| && m[k] >= 0 ==> w[k] > 0
    requires forall k :: 0 <= k < |m| && m[k] >= 0 && k != a ==> Before(w, d, b, k)
    requires x == 1 + if d[a] > d[b] then d[a] else d[b]
    ensures |m'| == |m| + 1 && m'[|m|] >= 0 && m'[a] < 0 && m'[b] < 0 && forall k :: 0 <= k < |m| && k != a && k != b ==> (m'[k] >= 0 <==> m[k] >= 0)
    ensures Lengths(m', top) && Beats(w + [w[a] + w[b]], d + [x], m', c, h)
  {
    var n;
    n, top := LightestLongest(w, d, m, l, c + (w[a] + w[b]), h, a, b);
    m' := Merged(n, a, b);
    MergedFits(n, top, a, b);
    MergedCost(w, n, a, b);
    hide Cost, Lengths, Before;
    forall k | 0 <= k < |m'| && m'[k] >= 0 && Cost(w, n) == c + (w[a] + w[b]) ensures m'[k] + (d + [x])[k] < h {
      if k < |m| { assert m'[k] == n[k]; } else { assert n[a] + d[a] < h && n[b] + d[b] < h; }
    }
  }

  lemma Factor(a: int, b: int, t: int)
    ensures (a + b) * (t - 1) == a * t + b * t - (a + b)
  {
  }
}
