/** BZ2_hbMakeCodeLengths: Huffman's tree over a heap, with the weights scaled down and the tree built again while a code
    comes out too long. */
module HuffmanLengths {
  import opened Common
  import opened HuffmanHeap
  import C = HuffmanCodes
  import O = HuffmanOptimal

  const BZ_MAX_ALPHA_SIZE := 258
  /** Weights are shifted up by eight bits; the low byte holds the depth of the subtree. */
  const UNIT := 256

  function Fib(n: nat): nat {
    if n < 2 then n else Fib(n - 1) + Fib(n - 2)
  }

  lemma {:induction false} FibMonotone(a: nat, b: nat)
    requires a <= b
    ensures Fib(a) <= Fib(b)
  {
    if a < b { FibMonotone(a, b - 1); }
  }

  /** Beyond any total weight that fits 31 bits. */
  lemma FibLarge()
    ensures Fib(36) >= 0x80_0000 && Fib(15) == 610
  {
    assert Fib(7) == 13 && Fib(8) == 21;
    assert Fib(9) == 34 && Fib(10) == 55 && Fib(11) == 89 && Fib(12) == 144 && Fib(13) == 233 && Fib(14) == 377 && Fib(15) == 610;
    assert Fib(16) == 987 && Fib(17) == 1597 && Fib(18) == 2584 && Fib(19) == 4181 && Fib(20) == 6765 && Fib(21) == 10946;
    assert Fib(22) == 17711 && Fib(23) == 28657 && Fib(24) == 46368 && Fib(25) == 75025 && Fib(26) == 121393 && Fib(27) == 196418;
    assert Fib(28) == 317811 && Fib(29) == 514229 && Fib(30) == 832040 && Fib(31) == 1346269 && Fib(32) == 2178309;
    assert Fib(33) == 3524578 && Fib(34) == 5702887 && Fib(35) == 9227465;
  }

  function Sum(s: seq<int>): int {
    if s == [] then 0 else Sum(s[..|s| - 1]) + s[|s| - 1]
  }

  lemma {:induction false} SumUpdate(s: seq<int>, i: int, v: int)
    requires 0 <= i < |s|
    ensures Sum(s[i := v]) == Sum(s) - s[i] + v
  {
    var n := |s| - 1;
    if i == n {
      assert s[i := v][..n] == s[..n];
    } else {
      assert s[i := v][..n] == s[..n][i := v];
      SumUpdate(s[..n], i, v);
    }
  }

  lemma SumAppend(s: seq<int>, v: int)
    ensures Sum(s + [v]) == Sum(s) + v
  {
    assert (s + [v])[..|s|] == s;
  }

  lemma {:induction false} SumAtLeast(s: seq<int>, i: int)
    requires 0 <= i < |s| && forall k :: 0 <= k < |s| ==> s[k] >= 0
    ensures 0 <= s[i] <= Sum(s)
  {
    var n := |s| - 1;
    if n > 0 {
      SumAtLeast(s[..n], if i == n then 0 else i);
    } else {
      assert s[..0] == [];
    }
  }

  lemma {:induction false} SumBounded(s: seq<int>, b: int)
    requires forall k :: 0 <= k < |s| ==> s[k] <= b
    ensures Sum(s) <= b * |s|
  {
    if s != [] {
      SumBounded(s[..|s| - 1], b);
      assert b * |s| == b * (|s| - 1) + b;
    }
  }

  lemma {:induction false} SumCompare(s: seq<int>, t: seq<int>)
    requires |s| == |t| && forall k :: 0 <= k < |s| ==> s[k] <= t[k]
    ensures Sum(s) <= Sum(t)
    ensures (exists k :: 0 <= k < |s| && s[k] < t[k]) ==> Sum(s) < Sum(t)
  {
    if s != [] { SumCompare(s[..|s| - 1], t[..|t| - 1]); }
  }

  // ---- the forest ----

  /** Nodes 1 .. n over leaves 1 .. a; node m > a has the two children kids[m - a - 1]. */
  datatype Forest = Forest(weight: seq<int>, parent: seq<int>, kids: seq<(int, int)>, n: int, a: int) {
    ghost predicate Shape() {
      Sizes() && Upward() && Family() && Weighed()
    }

    ghost predicate Sizes() {
      1 <= a <= n < 2 * a <= NODES && |weight| == |parent| == NODES && |kids| == n - a
    }

    /** Roots have parent -1, other nodes a later node. */
    ghost predicate Upward()
      requires Sizes()
    {
      forall k :: 1 <= k <= n ==> parent[k] == -1 || (k < parent[k] <= n && a < parent[k])
    }

    /** Every inner node has exactly two children. */
    ghost predicate Family()
      requires Sizes() && Upward()
    {
      (forall i :: 0 <= i < n - a ==> 1 <= kids[i].0 < i + a + 1 && 1 <= kids[i].1 < i + a + 1 && kids[i].0 != kids[i].1
                                      && parent[kids[i].0] == i + a + 1 && parent[kids[i].1] == i + a + 1)
      && forall k, i :: 1 <= k <= n && 0 <= i < n - a && parent[k] == i + a + 1 ==> k == kids[i].0 || k == kids[i].1
    }

    /** Weights are positive, leaves have depth 0, parents more depth than their children. */
    ghost predicate Weighed()
      requires Sizes() && Upward()
    {
      (forall k :: 1 <= k <= n ==> W(k) >= 1)
      && (forall k, p :: 1 <= k <= n && p == parent[k] && p != -1 ==> D(k) < D(p))
      && (forall k :: 1 <= k <= a ==> D(k) == 0)
    }

    /** Weight without the depth. */
    function W(k: int): int
      requires 0 <= k < |weight|
    {
      weight[k] / UNIT
    }

    function D(k: int): (d: nat)
      requires 0 <= k < |weight|
      ensures d < UNIT
    {
      weight[k] % UNIT
    }

    /** Weights and depths of all nodes. */
    function Ws(): (s: seq<int>)
      requires 0 <= n < |weight|
      ensures |s| == n + 1 && forall k :: 0 <= k <= n ==> s[k] == W(k)
    {
      seq(n + 1, k requires 0 <= k <= n => W(k))
    }

    function Ds(): (s: seq<int>)
      requires 0 <= n < |weight|
      ensures |s| == n + 1 && forall k :: 0 <= k <= n ==> s[k] == D(k)
    {
      seq(n + 1, k requires 0 <= k <= n => D(k))
    }

    /** An inner node weighs what its children weigh. */
    ghost predicate Exact()
      requires Shape()
    {
      forall i :: 0 <= i < n - a ==> W(i + a + 1) == W(kids[i].0) + W(kids[i].1)
    }

    /** The weight of all inner nodes: what the trees built so far cost. */
    function Inner(): int
      requires 0 <= a <= n < |weight|
    {
      Sum(Ws()[a + 1..])
    }

    function Roots(): (s: set<int>)
      requires n < |parent|
    {
      set k | 1 <= k <= n && parent[k] == -1
    }

    /** Weights of the roots, 0 for the other nodes. */
    function RootWeights(): (s: seq<int>)
      requires 0 <= n < |parent| && |weight| == |parent|
      ensures |s| == n + 1
    {
      seq(n + 1, k requires 0 <= k <= n => if k >= 1 && parent[k] == -1 then W(k) else 0)
    }

    /** All roots weigh at least the floor, which their depths are in step with. */
    ghost predicate Balanced(floor: int)
      requires Shape()
    {
      floor >= 1 && forall k :: 1 <= k <= n && parent[k] == -1 ==> W(k) >= floor && W(k) >= Fib(D(k) + 2) && Fib(D(k) + 1) <= floor
    }
  }

  function Max(x: int, y: int): int {
    if x > y then x else y
  }

  /** ADDWEIGHTS; the or is a sum, since the depth fits the cleared byte. */
  function AddWeights(x: int, y: int): int {
    (x / UNIT + y / UNIT) * UNIT + (1 + Max(x % UNIT, y % UNIT))
  }

  lemma AddedWeights(x: int, y: int)
    requires x % UNIT < UNIT - 1 && y % UNIT < UNIT - 1
    ensures AddWeights(x, y) / UNIT == x / UNIT + y / UNIT && AddWeights(x, y) % UNIT == 1 + Max(x % UNIT, y % UNIT)
  {
    DivModUnique(AddWeights(x, y), UNIT, x / UNIT + y / UNIT, 1 + Max(x % UNIT, y % UNIT));
  }

  /** Joining two roots under a new one. */
  function Joined(f: Forest, n1: int, n2: int): Forest
    requires f.Shape() && 1 <= n1 <= f.n && 1 <= n2 <= f.n && f.n + 1 < NODES
  {
    var m := f.n + 1;
    Forest(f.weight[m := AddWeights(f.weight[n1], f.weight[n2])], f.parent[n1 := m][n2 := m][m := -1], f.kids + [(n1, n2)], m, f.a)
  }

  lemma JoinedFields(f: Forest, n1: int, n2: int)
    requires f.Shape() && n1 in f.Roots() && n2 in f.Roots() && n1 != n2 && f.n + 1 < 2 * f.a && f.D(n1) < UNIT - 1 && f.D(n2) < UNIT - 1
    ensures var g := Joined(f, n1, n2); var m := f.n + 1;
            && g.Sizes() && g.n == m && g.a == f.a && g.kids == f.kids + [(n1, n2)]
            && (forall k :: 0 <= k <= f.n ==> g.weight[k] == f.weight[k])
            && (forall k :: 0 <= k <= f.n && k != n1 && k != n2 ==> g.parent[k] == f.parent[k])
            && g.parent[n1] == g.parent[n2] == m && g.parent[m] == -1
            && g.W(m) == f.W(n1) + f.W(n2) && g.D(m) == 1 + Max(f.D(n1), f.D(n2))
            && g.Roots() == f.Roots() - {n1, n2} + {m}
  {
    AddedWeights(f.weight[n1], f.weight[n2]);
    hide Forest.Shape, AddWeights;
  }

  lemma JoinShape(f: Forest, n1: int, n2: int)
    requires f.Shape() && n1 in f.Roots() && n2 in f.Roots() && n1 != n2 && f.n + 1 < 2 * f.a && f.D(n1) < UNIT - 1 && f.D(n2) < UNIT - 1
    ensures Joined(f, n1, n2).Shape() && Joined(f, n1, n2).Roots() == f.Roots() - {n1, n2} + {f.n + 1}
  {
    JoinedFields(f, n1, n2);
    var g := Joined(f, n1, n2);
    hide Joined, Forest.Roots;
    assert g.Upward();
    assert g.Weighed() by { JoinWeighed(f, n1, n2, g); }
    assert g.Family() by { JoinFamily(f, n1, n2, g); }
  }

  /** g is f with one node more, the parent of n1 and n2. */
  ghost predicate Joins(f: Forest, n1: int, n2: int, g: Forest) {
    f.Sizes() && g.Sizes() && 1 <= n1 <= f.n && 1 <= n2 <= f.n && n1 != n2
    && g.n == f.n + 1 && g.a == f.a && g.kids == f.kids + [(n1, n2)] && f.parent[n1] == f.parent[n2] == -1
    && (forall k :: 0 <= k <= f.n ==> g.weight[k] == f.weight[k])
    && (forall k :: 0 <= k <= f.n && k != n1 && k != n2 ==> g.parent[k] == f.parent[k])
    && g.parent[n1] == g.parent[n2] == g.n && g.parent[g.n] == -1
    && g.W(g.n) == f.W(n1) + f.W(n2) && g.D(g.n) == 1 + Max(f.D(n1), f.D(n2))
  }

  lemma JoinFamily(f: Forest, n1: int, n2: int, g: Forest)
    requires f.Shape() && Joins(f, n1, n2, g) && g.Upward()
    ensures g.Family()
  {
    forall i | 0 <= i < g.n - g.a
      ensures 1 <= g.kids[i].0 < i + g.a + 1 && 1 <= g.kids[i].1 < i + g.a + 1 && g.kids[i].0 != g.kids[i].1
      ensures g.parent[g.kids[i].0] == i + g.a + 1 && g.parent[g.kids[i].1] == i + g.a + 1
    {
      if i < f.n - f.a { assert g.kids[i] == f.kids[i]; }
    }
    forall k, i | 1 <= k <= g.n && 0 <= i < g.n - g.a && g.parent[k] == i + g.a + 1 ensures k == g.kids[i].0 || k == g.kids[i].1 {
      if k != n1 && k != n2 && k != g.n {
        assert g.parent[k] == f.parent[k];
        assert i < f.n - f.a && g.kids[i] == f.kids[i];
      }
    }
  }

  lemma JoinWeighed(f: Forest, n1: int, n2: int, g: Forest)
    requires f.Shape() && Joins(f, n1, n2, g) && g.Upward()
    ensures g.Weighed()
  {
    forall k | 1 <= k <= f.n ensures g.W(k) == f.W(k) && g.D(k) == f.D(k) {}
    forall k, p | 1 <= k <= g.n && p == g.parent[k] && p != -1 ensures g.D(k) < g.D(p) {
      if k != n1 && k != n2 && k != g.n { assert f.parent[k] == p && f.D(k) < f.D(p); }
    }
  }

  /** Joining keeps the roots' total weight. */
  lemma JoinTotal(f: Forest, n1: int, n2: int)
    requires f.Shape() && n1 in f.Roots() && n2 in f.Roots() && n1 != n2 && f.n + 1 < 2 * f.a
    requires f.D(n1) < UNIT - 1 && f.D(n2) < UNIT - 1
    ensures Sum(Joined(f, n1, n2).RootWeights()) == Sum(f.RootWeights())
  {
    AddedWeights(f.weight[n1], f.weight[n2]);
    var s, g := f.RootWeights(), Joined(f, n1, n2);
    var t := s[n1 := 0][n2 := 0];
    assert g.RootWeights() == t + [g.W(g.n)];
    SumUpdate(s, n1, 0);
    SumUpdate(s[n1 := 0], n2, 0);
    SumAppend(t, g.W(g.n));
  }

  /** Joining two lightest roots keeps the balance: a tree is at least as heavy as a Fibonacci number of its depth. */
  lemma JoinBalance(f: Forest, n1: int, n2: int, floor: int)
    requires f.Shape() && f.Balanced(floor) && n1 in f.Roots() && n2 in f.Roots() && n1 != n2 && f.n + 1 < 2 * f.a
    requires f.D(n1) < UNIT - 1 && f.D(n2) < UNIT - 1 && f.W(n1) <= f.W(n2)
    requires forall k :: k in f.Roots() && k != n1 ==> f.W(n2) <= f.W(k)
    ensures Joined(f, n1, n2).Shape() && Joined(f, n1, n2).Balanced(f.W(n2))
  {
    var g := Joined(f, n1, n2);
    hide *;
    JoinShape(f, n1, n2);
    JoinedFields(f, n1, n2);
    RootBalance(f, n1, floor);
    RootBalance(f, n2, floor);
    NewRootBalance(f.W(n1), f.D(n1), f.W(n2), f.D(n2), floor);
    ShapeSizes(g);
    forall k | 1 <= k <= g.n && g.parent[k] == -1
      ensures g.W(k) >= f.W(n2) && g.W(k) >= Fib(g.D(k) + 2) && Fib(g.D(k) + 1) <= f.W(n2)
    {
      if k != g.n {
        InRoots(g, k);
        RootBalance(f, k, floor);
        SameWeight(f, g, k);
      }
    }
    BalanceJoin(g, f.W(n2));
  }

  lemma ShapeSizes(f: Forest)
    requires f.Shape()
    ensures |f.weight| == |f.parent| && 0 <= f.n < |f.parent|
  {
  }

  lemma InRoots(f: Forest, k: int)
    requires f.n < |f.parent| && 1 <= k <= f.n && f.parent[k] == -1
    ensures k in f.Roots()
  {
  }

  lemma RootBalance(f: Forest, k: int, floor: int)
    requires f.Shape() && f.Balanced(floor) && k in f.Roots()
    ensures 0 <= k <= f.n && f.n < |f.weight| && 1 <= floor <= f.W(k) && f.W(k) >= Fib(f.D(k) + 2) && Fib(f.D(k) + 1) <= floor
  {
  }

  lemma BalanceJoin(f: Forest, floor: int)
    requires f.Shape() && floor >= 1
    requires forall k :: 1 <= k <= f.n && f.parent[k] == -1 ==> f.W(k) >= floor && f.W(k) >= Fib(f.D(k) + 2) && Fib(f.D(k) + 1) <= floor
    ensures f.Balanced(floor)
  {
  }

  lemma SameWeight(f: Forest, g: Forest, k: int)
    requires 0 <= k < |f.weight| && k < |g.weight| && f.weight[k] == g.weight[k]
    ensures f.W(k) == g.W(k) && f.D(k) == g.D(k)
  {
  }

  /** The sum of two weights above the floor is enough for one level more. */
  lemma NewRootBalance(w1: int, d1: nat, w2: int, d2: nat, floor: int)
    requires floor <= w1 <= w2 && w1 >= Fib(d1 + 2) && w2 >= Fib(d2 + 2) && Fib(d1 + 1) <= floor && Fib(d2 + 1) <= floor
    ensures var d := Max(d1, d2); w1 + w2 >= Fib(d + 3) && Fib(d + 2) <= w2
  {
    var d := Max(d1, d2);
    assert Fib(d + 3) == Fib(d + 2) + Fib(d + 1);
  }

  /** Roots are not deeper than their weight allows. */
  lemma DepthBounded(f: Forest, k: int, floor: int, total: int)
    requires f.Shape() && f.Balanced(floor) && k in f.Roots() && Sum(f.RootWeights()) == total
    ensures Fib(f.D(k) + 2) <= f.W(k) <= total
  {
    assert forall i :: 1 <= i <= f.n ==> f.W(i) >= 0;
    SumAtLeast(f.RootWeights(), k);
  }

  lemma Shallow(d: nat)
    requires Fib(d + 2) < 0x80_0000
    ensures d < 34
  {
    if d >= 34 { FibLarge(); FibMonotone(36, d + 2); }
  }

  // ---- no code is better ----

  /** Codes of the roots. */
  ghost predicate OverRoots(f: Forest, m: seq<int>)
    requires f.Shape()
  {
    |m| == f.n + 1 && forall k :: 0 <= k <= f.n ==> (m[k] >= 0 <==> k in f.Roots())
  }

  /** The roots have a code that costs less than c, or the same without reaching down to h. */
  ghost predicate Attains(f: Forest, c: int, h: int)
    requires f.Shape()
  {
    exists m, l: nat :: OverRoots(f, m) && O.Lengths(m, l) && O.Beats(f.Ws(), f.Ds(), m, c, h)
  }

  /** What joining has cost so far is all that a code of f0 can cost more than one of f. */
  ghost predicate Reduced(f0: Forest, f: Forest, cost: int) {
    f0.Shape() && f.Shape() && forall c, h :: Attains(f0, c + cost, h) ==> Attains(f, c, h)
  }

  /** f was grown from f0 by joining lightest roots. */
  ghost predicate Thrifty(f0: Forest, f: Forest) {
    f.Shape() && f.Exact() && f.a == f0.a && Reduced(f0, f, f.Inner()) && forall k :: 1 <= k <= f.a ==> f.weight[k] == f0.weight[k]
  }

  lemma WeightOrder(f: Forest, i: int, j: int)
    requires f.Shape() && 0 <= i <= f.n && 0 <= j <= f.n && f.weight[i] <= f.weight[j]
    ensures O.Before(f.Ws(), f.Ds(), i, j)
  {
  }

  lemma JoinedWeights(f: Forest, n1: int, n2: int)
    requires f.Shape() && n1 in f.Roots() && n2 in f.Roots() && n1 != n2 && f.n + 1 < 2 * f.a && f.D(n1) < UNIT - 1 && f.D(n2) < UNIT - 1
    ensures var g := Joined(f, n1, n2);
            g.Shape() && g.n == f.n + 1 && g.Ws() == f.Ws() + [f.W(n1) + f.W(n2)] && g.Ds() == f.Ds() + [1 + if f.D(n1) > f.D(n2) then f.D(n1) else f.D(n2)]
            && g.Roots() == f.Roots() - {n1, n2} + {g.n}
  {
    JoinShape(f, n1, n2);
    JoinedFields(f, n1, n2);
    hide Joined, Forest.Shape;
  }

  lemma AttainsBy(f: Forest, m: seq<int>, l: nat, c: int, h: int)
    requires f.Shape() && f.n < |f.weight| && OverRoots(f, m) && O.Lengths(m, l) && |m| == f.n + 1 && O.Beats(f.Ws(), f.Ds(), m, c, h)
    ensures Attains(f, c, h)
  {
    hide Forest.Shape, O.Lengths, O.Beats;
  }

  lemma JoinedCode(f: Forest, n1: int, n2: int, m: seq<int>, m': seq<int>)
    requires f.Shape() && n1 in f.Roots() && n2 in f.Roots() && n1 != n2 && f.n + 1 < 2 * f.a && f.D(n1) < UNIT - 1 && f.D(n2) < UNIT - 1
    requires OverRoots(f, m) && |m'| == |m| + 1 && m'[|m|] >= 0 && m'[n1] < 0 && m'[n2] < 0
    requires forall k :: 0 <= k < |m| && k != n1 && k != n2 ==> (m'[k] >= 0 <==> m[k] >= 0)
    ensures Joined(f, n1, n2).Shape() && OverRoots(Joined(f, n1, n2), m')
  {
    JoinedWeights(f, n1, n2);
    hide Joined;
  }

  lemma AttainsWith(f: Forest, c: int, h: int) returns (m: seq<int>, l: nat)
    requires f.Shape() && Attains(f, c, h)
    ensures f.n < |f.weight| && OverRoots(f, m) && O.Lengths(m, l) && |m| == f.n + 1 && O.Beats(f.Ws(), f.Ds(), m, c, h)
    ensures forall k :: 0 <= k < |m| && m[k] >= 0 ==> k in f.Roots() && f.Ws()[k] > 0
    ensures forall k :: k in f.Roots() ==> 0 <= k < |m| && m[k] >= 0
  {
    hide O.Lengths, O.Beats;
    m, l :| OverRoots(f, m) && O.Lengths(m, l) && O.Beats(f.Ws(), f.Ds(), m, c, h);
  }

  /** A code of the roots before joining gives one of those after it. */
  lemma JoinAttains(f: Forest, n1: int, n2: int, c: int, h: int)
    requires f.Shape() && n1 in f.Roots() && n2 in f.Roots() && n1 != n2 && f.n + 1 < 2 * f.a && f.D(n1) < UNIT - 1 && f.D(n2) < UNIT - 1
    requires f.weight[n1] <= f.weight[n2] && forall k :: k in f.Roots() && k != n1 ==> f.weight[n2] <= f.weight[k]
    requires Attains(f, c + (f.W(n1) + f.W(n2)), h)
    ensures Joined(f, n1, n2).Shape() && Attains(Joined(f, n1, n2), c, h)
  {
    hide *;
    RootSizes(f, n1);
    RootSizes(f, n2);
    JoinedWeights(f, n1, n2);
    var m, l := AttainsWith(f, c + (f.W(n1) + f.W(n2)), h);
    var x := 1 + if f.D(n1) > f.D(n2) then f.D(n1) else f.D(n2);
    WeightOrder(f, n1, n2);
    forall k | 0 <= k < |m| && m[k] >= 0 && k != n1 ensures O.Before(f.Ws(), f.Ds(), n2, k) { WeightOrder(f, n2, k); }
    var m', top := O.MergeCodes(f.Ws(), f.Ds(), m, l, c, h, n1, n2, x);
    JoinedCode(f, n1, n2, m, m');
    ShapeSizes(Joined(f, n1, n2));
    AttainsBy(Joined(f, n1, n2), m', top, c, h);
  }

  lemma JoinInner(f: Forest, n1: int, n2: int)
    requires f.Shape() && n1 in f.Roots() && n2 in f.Roots() && n1 != n2 && f.n + 1 < 2 * f.a && f.D(n1) < UNIT - 1 && f.D(n2) < UNIT - 1
    ensures Joined(f, n1, n2).Shape() && Joined(f, n1, n2).Inner() == f.Inner() + (f.W(n1) + f.W(n2))
  {
    hide *;
    RootSizes(f, n1);
    RootSizes(f, n2);
    JoinedWeights(f, n1, n2);
    JoinedFields(f, n1, n2);
    var g, v := Joined(f, n1, n2), f.W(n1) + f.W(n2);
    ShapeSizes(g);
    InnerIs(f);
    InnerIs(g);
    assert g.Ws()[g.a + 1..] == f.Ws()[f.a + 1..] + [v];
    SumAppend(f.Ws()[f.a + 1..], v);
  }

  lemma JoinExact(f: Forest, n1: int, n2: int)
    requires f.Shape() && f.Exact() && n1 in f.Roots() && n2 in f.Roots() && n1 != n2 && f.n + 1 < 2 * f.a && f.D(n1) < UNIT - 1 && f.D(n2) < UNIT - 1
    ensures Joined(f, n1, n2).Shape() && Joined(f, n1, n2).Exact()
  {
    JoinShape(f, n1, n2);
    JoinedFields(f, n1, n2);
    var g := Joined(f, n1, n2);
    assert Joins(f, n1, n2, g);
    hide Joined;
    forall i | 0 <= i < g.n - g.a ensures g.W(i + g.a + 1) == g.W(g.kids[i].0) + g.W(g.kids[i].1) { JoinedNode(f, n1, n2, g, i); }
  }

  lemma JoinedNode(f: Forest, n1: int, n2: int, g: Forest, i: int)
    requires f.Shape() && f.Exact() && Joins(f, n1, n2, g) && g.Shape() && 0 <= i < g.n - g.a
    ensures g.W(i + g.a + 1) == g.W(g.kids[i].0) + g.W(g.kids[i].1)
  {
    if i < f.n - f.a { assert g.kids[i] == f.kids[i]; }
  }

  lemma JoinReduced(f0: Forest, f: Forest, n1: int, n2: int, cost: int)
    requires Reduced(f0, f, cost) && n1 in f.Roots() && n2 in f.Roots() && n1 != n2 && f.n + 1 < 2 * f.a && f.D(n1) < UNIT - 1 && f.D(n2) < UNIT - 1
    requires f.weight[n1] <= f.weight[n2] && forall k :: k in f.Roots() && k != n1 ==> f.weight[n2] <= f.weight[k]
    ensures Reduced(f0, Joined(f, n1, n2), cost + (f.W(n1) + f.W(n2)))
  {
    var g, v := Joined(f, n1, n2), f.W(n1) + f.W(n2);
    JoinShape(f, n1, n2);
    hide Joined, Attains, Forest.Shape;
    forall c, h | Attains(f0, c + (cost + v), h) ensures Attains(g, c, h) {
      assert c + (cost + v) == (c + v) + cost;
      JoinAttains(f, n1, n2, c, h);
    }
  }

  lemma ThriftyParts(f0: Forest, f: Forest)
    requires Thrifty(f0, f)
    ensures f.Shape() && f.Exact() && f.a == f0.a && Reduced(f0, f, f.Inner()) && forall k :: 1 <= k <= f.a ==> f.weight[k] == f0.weight[k]
    ensures 1 <= f.a <= f.n
  {
    hide Reduced;
  }

  lemma ThriftyIs(f0: Forest, f: Forest)
    requires f.Shape() && f.Exact() && f.a == f0.a && Reduced(f0, f, f.Inner()) && forall k :: 1 <= k <= f.a ==> f.weight[k] == f0.weight[k]
    ensures Thrifty(f0, f)
  {
    hide Reduced;
  }

  lemma RootSizes(f: Forest, k: int)
    requires f.Shape() && k in f.Roots()
    ensures 1 <= k <= f.n < |f.weight| == |f.parent| == NODES && 1 <= f.a <= f.n && 2 * f.a <= NODES
  {
  }

  lemma JoinThrifty(f0: Forest, f: Forest, n1: int, n2: int)
    requires Thrifty(f0, f) && n1 in f.Roots() && n2 in f.Roots() && n1 != n2 && f.n + 1 < 2 * f.a && f.D(n1) < UNIT - 1 && f.D(n2) < UNIT - 1
    requires f.weight[n1] <= f.weight[n2] && forall k :: k in f.Roots() && k != n1 ==> f.weight[n2] <= f.weight[k]
    ensures Thrifty(f0, Joined(f, n1, n2))
  {
    hide *;
    ThriftyParts(f0, f);
    RootSizes(f, n1);
    RootSizes(f, n2);
    JoinShape(f, n1, n2);
    JoinedFields(f, n1, n2);
    JoinInner(f, n1, n2);
    JoinExact(f, n1, n2);
    JoinReduced(f0, f, n1, n2, f.Inner());
    ThriftyIs(f0, Joined(f, n1, n2));
  }

  // ---- building the tree ----

  /** The arrays hold the forest f, the heap its roots; total is the weight of everything. */
  ghost predicate Growing(heap: seq<int>, nHeap: int, weight: seq<int>, parent: seq<int>, f: Forest, floor: int, total: int) {
    f.Shape() && f.weight == weight && f.parent == parent && f.Balanced(floor) && Sum(f.RootWeights()) == total < 0x80_0000
    && Ordered(heap, weight, nHeap) && Contents(heap, nHeap) == multiset(f.Roots()) && nHeap + f.n == 2 * f.a && nHeap >= 1
  }

  lemma RootFacts(heap: seq<int>, nHeap: int, weight: seq<int>, parent: seq<int>, f: Forest, floor: int, total: int, k: int)
    requires Growing(heap, nHeap, weight, parent, f, floor, total) && k in f.Roots()
    ensures f.D(k) < 34
  {
    DepthBounded(f, k, floor, total);
    Shallow(f.D(k));
  }

  /** Joining the two nodes just taken off the heap and putting the new one on. */
  lemma JoinGrowing(heap: seq<int>, heap': seq<int>, nHeap: int, f: Forest, floor: int, total: int, n1: int, n2: int, c: multiset<int>)
    requires Growing(heap, nHeap, f.weight, f.parent, f, floor, total) && nHeap > 1
    requires n1 in f.Roots() && n2 in f.Roots() && n1 != n2 && f.weight[n1] <= f.weight[n2]
    requires forall k :: k in f.Roots() && k != n1 ==> f.weight[n2] <= f.weight[k]
    requires Ordered(heap', Joined(f, n1, n2).weight, nHeap - 1)
    requires c == multiset(f.Roots()) - multiset{n1} - multiset{n2} && Contents(heap', nHeap - 1) == c + multiset{f.n + 1}
    ensures var g := Joined(f, n1, n2); Growing(heap', nHeap - 1, g.weight, g.parent, g, f.W(n2), total)
  {
    RootFacts(heap, nHeap, f.weight, f.parent, f, floor, total, n1);
    RootFacts(heap, nHeap, f.weight, f.parent, f, floor, total, n2);
    JoinShape(f, n1, n2);
    JoinTotal(f, n1, n2);
    JoinBalance(f, n1, n2, floor);
    var r := f.Roots();
    assert multiset(r) - multiset{n1} - multiset{n2} + multiset{f.n + 1} == multiset(r - {n1, n2} + {f.n + 1});
  }

  lemma JoinedArrays(f: Forest, n1: int, n2: int)
    requires f.Shape() && 1 <= n1 <= f.n && 1 <= n2 <= f.n && f.n + 1 < NODES && f.weight[n1] >= 0 && f.weight[n2] >= 0
    ensures var g := Joined(f, n1, n2); var m := f.n + 1;
            g.n == m && g.a == f.a && g.weight == f.weight[m := AddWeights(f.weight[n1], f.weight[n2])] && g.weight[m] >= 0
            && g.parent == f.parent[n1 := m][n2 := m][m := -1]
  {
  }

  method JoinTwo(heap: array<int>, nHeap0: nat, weight: array<int>, parent: array<int>, nNodes0: nat, ghost f0: Forest, ghost f: Forest, ghost floor: int, ghost total: int)
    returns (nHeap: nat, nNodes: nat, ghost g: Forest, ghost floor': int)
    requires heap != weight && heap != parent && weight != parent
    requires Growing(heap[..], nHeap0, weight[..], parent[..], f, floor, total) && nHeap0 > 1 && nNodes0 == f.n && Thrifty(f0, f)
    modifies heap, weight, parent
    ensures nHeap == nHeap0 - 1 && nNodes == nNodes0 + 1 == g.n && g.a == f.a
    ensures Growing(heap[..], nHeap, weight[..], parent[..], g, floor', total) && Thrifty(f0, g)
    ensures weight.Length == NODES && forall k :: 0 <= k < NODES && k != nNodes ==> weight[k] == old(weight[k])
  {
    ghost var h := heap[..];
    var n1, n2;
    hide *;
    HoldsRoots(h, nHeap0, weight[..], parent[..], f, floor, total);
    n1, n2, nHeap := PopTwo(heap, weight, nHeap0, f.Roots());
    JoinLightest(h, nHeap0, weight[..], parent[..], f0, f, floor, total, n1, n2);
    nNodes := nNodes0 + 1;
    nHeap := AddNode(heap, nHeap, weight, parent, n1, n2, nNodes, h, f, floor, total);
    g := Joined(f, n1, n2);
    floor' := f.W(n2);
  }

  lemma HoldsRoots(heap: seq<int>, nHeap: int, weight: seq<int>, parent: seq<int>, f: Forest, floor: int, total: int)
    requires Growing(heap, nHeap, weight, parent, f, floor, total)
    ensures Ordered(heap, weight, nHeap) && 0 <= nHeap < |heap| && f.n < |f.parent| && Contents(heap, nHeap) == multiset(f.Roots()) && f.weight == weight
    ensures f.Shape() && |f.weight| == NODES && forall k :: k in f.Roots() ==> 0 <= k < NODES
  {
  }

  lemma JoinLightest(h: seq<int>, nHeap: int, weight: seq<int>, parent: seq<int>, f0: Forest, f: Forest, floor: int, total: int, n1: int, n2: int)
    requires Growing(h, nHeap, weight, parent, f, floor, total) && nHeap > 1 && Thrifty(f0, f)
    requires f.Shape() && n1 in f.Roots() && n2 in f.Roots() && n1 != n2 && |weight| == NODES && 0 <= n1 < NODES && 0 <= n2 < NODES && weight[n1] <= weight[n2]
    requires forall k :: k in f.Roots() && k != n1 ==> 0 <= k < NODES && weight[n2] <= weight[k]
    ensures 1 <= n1 <= f.n && 1 <= n2 <= f.n && f.n + 1 < NODES && f.n < |f.weight| && Thrifty(f0, Joined(f, n1, n2)) && Joined(f, n1, n2).a == f.a
  {
    RootFacts(h, nHeap, weight, parent, f, floor, total, n1);
    RootFacts(h, nHeap, weight, parent, f, floor, total, n2);
    HoldsRoots(h, nHeap, weight, parent, f, floor, total);
    NewNodeFacts(h, nHeap, weight, parent, f, floor, total, n1, n2);
    hide Thrifty, Joined, Forest.Balanced, Ordered;
    assert f.n + 1 < 2 * f.a;
    JoinThrifty(f0, f, n1, n2);
    JoinedFields(f, n1, n2);
  }

  lemma NewNodeFacts(h: seq<int>, nHeap: int, weight: seq<int>, parent: seq<int>, f: Forest, floor: int, total: int, n1: int, n2: int)
    requires Growing(h, nHeap, weight, parent, f, floor, total) && nHeap > 1 && n1 in f.Roots() && n2 in f.Roots()
    ensures f.Shape() && f.weight == weight && f.parent == parent && |weight| == |parent| == NODES && f.n + 1 < NODES && nHeap <= HEAP_SIZE - 1
    ensures 1 <= n1 <= f.n && 1 <= n2 <= f.n && f.weight[n1] >= 0 && f.weight[n2] >= 0 && f.n + 1 !in f.Roots()
    ensures forall k :: k in f.Roots() ==> 1 <= k < NODES
  {
  }

  method AddNode(heap: array<int>, nHeap0: nat, weight: array<int>, parent: array<int>, n1: int, n2: int, m: int,
                 ghost h: seq<int>, ghost f: Forest, ghost floor: int, ghost total: int) returns (nHeap: nat)
    requires heap != weight && heap != parent && weight != parent
    requires Growing(h, nHeap0 + 2, weight[..], parent[..], f, floor, total) && m == f.n + 1
    requires Ordered(heap[..], weight[..], nHeap0) && Contents(heap[..], nHeap0) == multiset(f.Roots()) - multiset{n1} - multiset{n2}
    requires n1 in f.Roots() && n2 in f.Roots() && n1 != n2 && weight[n1] <= weight[n2]
    requires forall k :: k in f.Roots() && k != n1 ==> weight[n2] <= weight[k]
    modifies heap, weight, parent
    ensures var g := Joined(f, n1, n2);
            nHeap == nHeap0 + 1 && Growing(heap[..], nHeap, weight[..], parent[..], g, f.W(n2), total) && g.n == m && g.a == f.a
    ensures weight.Length == NODES && forall k :: 0 <= k < NODES && k != m ==> weight[k] == old(weight[k])
  {
    hide *;
    NewNodeFacts(h, nHeap0 + 2, weight[..], parent[..], f, floor, total, n1, n2);
    assert forall k :: k in f.Roots() && k != n1 ==> f.weight[n2] <= f.weight[k];
    OrderedSize(heap[..], weight[..], nHeap0);
    ghost var c := Contents(heap[..], nHeap0);
    NotThere(f.Roots(), n1, n2, m, c);
    OtherWeight(heap[..], weight[..], nHeap0, m, AddWeights(f.weight[n1], f.weight[n2]));
    JoinedArrays(f, n1, n2);
    StoreNode(weight, parent, n1, n2, m);
    nHeap := Push(heap, weight, nHeap0, m);
    JoinGrowing(h, heap[..], nHeap0 + 2, f, floor, total, n1, n2, c);
  }

  lemma OrderedSize(heap: seq<int>, weight: seq<int>, n: int)
    requires Ordered(heap, weight, n)
    ensures 0 <= n < |heap|
  {
  }

  lemma NotThere(r: set<int>, n1: int, n2: int, m: int, c: multiset<int>)
    requires m !in r && c == multiset(r) - multiset{n1} - multiset{n2}
    ensures m !in c
  {
  }

  /** The new node's entries. */
  method StoreNode(weight: array<int>, parent: array<int>, n1: int, n2: int, m: int)
    requires weight != parent && weight.Length == parent.Length == NODES && 0 <= n1 < m && 0 <= n2 < m && m < NODES
    modifies weight, parent
    ensures weight[..] == old(weight[..])[m := AddWeights(old(weight[n1]), old(weight[n2]))]
    ensures parent[..] == old(parent[..])[n1 := m][n2 := m][m := -1]
  {
    parent[n1] := m;
    parent[n2] := m;
    weight[m] := AddWeights(weight[n1], weight[n2]);
    parent[m] := -1;
  }

  // ---- depths and the Kraft sum ----

  /** The only root left is the last node. */
  ghost predicate Grown(f: Forest) {
    f.Shape() && f.Roots() == {f.n}
  }

  ghost function Depth(f: Forest, k: int): nat
    requires f.Shape() && 1 <= k <= f.n
    decreases f.n - k
  {
    if f.parent[k] == -1 then 0 else 1 + Depth(f, f.parent[k])
  }

  /** Depths are no larger than the depth the root carries in its weight. */
  lemma {:induction false} DepthInRoot(f: Forest, k: int)
    requires Grown(f) && 1 <= k <= f.n
    ensures Depth(f, k) + f.D(k) <= f.D(f.n)
    ensures k < f.n ==> Depth(f, k) >= 1
    decreases f.n - k
  {
    if f.parent[k] == -1 { assert k in f.Roots(); } else { DepthInRoot(f, f.parent[k]); }
  }

  /** 2^(x - depth) for the nodes among 1 .. m whose parent lies beyond m, and for the root; 0 for the others. */
  ghost function Frontier(f: Forest, m: int, x: nat): (s: seq<int>)
    requires Grown(f) && f.a <= m <= f.n && f.D(f.n) <= x
    ensures |s| == f.n + 1
  {
    seq(f.n + 1, k requires 0 <= k <= f.n =>
      if 1 <= k <= m && (f.parent[k] == -1 || f.parent[k] > m) then Share(f, k, x) else 0)
  }

  ghost function Share(f: Forest, k: int, x: nat): nat
    requires Grown(f) && 1 <= k <= f.n && f.D(f.n) <= x
  {
    DepthInRoot(f, k);
    Pow2(x - Depth(f, k))
  }

  /** Replacing a node by its two children keeps the sum. */
  lemma FrontierStep(f: Forest, m: int, x: nat)
    requires Grown(f) && f.a < m <= f.n && f.D(f.n) <= x
    ensures Sum(Frontier(f, m - 1, x)) == Sum(Frontier(f, m, x))
  {
    var (l, r) := f.kids[m - f.a - 1];
    assert f.parent[l] == m && f.parent[r] == m && 1 <= l < m && 1 <= r < m && l != r;
    var s, v := Frontier(f, m, x), Share(f, l, x);
    DepthInRoot(f, l);
    assert Share(f, r, x) == v && Share(f, m, x) == 2 * v;
    var t := s[m := 0][l := v][r := v];
    SumUpdate(s, m, 0);
    SumUpdate(s[m := 0], l, v);
    SumUpdate(s[m := 0][l := v], r, v);
    FrontierChange(f, m, l, r, x);
  }

  lemma FrontierChange(f: Forest, m: int, l: int, r: int, x: nat)
    requires Grown(f) && f.a < m <= f.n && f.D(f.n) <= x && f.kids[m - f.a - 1] == (l, r)
    ensures 1 <= l < m && 1 <= r < m && Frontier(f, m, x)[l] == Frontier(f, m, x)[r] == 0 && Frontier(f, m, x)[m] == Share(f, m, x)
    ensures Frontier(f, m - 1, x) == Frontier(f, m, x)[m := 0][l := Share(f, l, x)][r := Share(f, r, x)]
  {
    var s, s' := Frontier(f, m, x), Frontier(f, m - 1, x);
    forall k | 0 <= k <= f.n ensures s'[k] == s[m := 0][l := Share(f, l, x)][r := Share(f, r, x)][k] {
      if 1 <= k < m && k != l && k != r { assert f.parent[k] != m; }
    }
  }

  lemma NotRoot(f: Forest, k: int)
    requires Grown(f) && 1 <= k < f.n
    ensures f.parent[k] != -1
  {
    assert k in f.Roots() <==> f.parent[k] == -1;
  }

  /** The leaves' shares make up the whole. */
  lemma {:induction false} LeavesShare(f: Forest, m: int, x: nat)
    requires Grown(f) && f.a <= m <= f.n && f.D(f.n) <= x
    ensures Sum(Frontier(f, m, x)) == Pow2(x)
    decreases f.n - m
  {
    if m == f.n {
      var s := Frontier(f, m, x);
      forall k | 0 <= k < f.n ensures s[k] == 0 { if k >= 1 { NotRoot(f, k); } }
      assert f.n in f.Roots();
      OnlyLast(s);
    } else {
      LeavesShare(f, m + 1, x);
      FrontierStep(f, m + 1, x);
    }
  }

  lemma {:induction false} ZeroSum(s: seq<int>)
    requires forall k :: 0 <= k < |s| ==> s[k] == 0
    ensures Sum(s) == 0
  {
    if s != [] { ZeroSum(s[..|s| - 1]); }
  }

  lemma OnlyLast(s: seq<int>)
    requires |s| > 0 && forall k :: 0 <= k < |s| - 1 ==> s[k] == 0
    ensures Sum(s) == s[|s| - 1]
  {
    ZeroSum(s[..|s| - 1]);
  }

  /** The lengths read off the tree fill the code space exactly. */
  lemma KraftOfTree(f: Forest, len: seq<int>, x: nat)
    requires Grown(f) && |len| == f.a && f.D(f.n) <= x && forall i :: 0 <= i < f.a ==> len[i] == Depth(f, i + 1)
    ensures C.Kraft(len, x, x) == Pow2(x) && forall i :: 0 <= i < f.a ==> 0 <= len[i] <= x
  {
    hide *;
    FrontierEnds(f, x);
    LeavesShare(f, f.a, x);
    var s := Frontier(f, f.a, x);
    forall i | 0 <= i < f.a ensures 0 <= len[i] <= x && s[i + 1] == Pow2(x - len[i]) { LeafShare(f, len, i, x); }
    LeafSum(s, len, f.a, x);
    assert len[..f.a] == len;
    TailSum(s, f.a + 1, |s|);
    assert s[..|s|] == s;
  }

  lemma FrontierEnds(f: Forest, x: nat)
    requires Grown(f) && f.D(f.n) <= x
    ensures 0 <= f.a <= f.n && |Frontier(f, f.a, x)| == f.n + 1 && Frontier(f, f.a, x)[0] == 0
    ensures forall k :: f.a < k <= f.n ==> Frontier(f, f.a, x)[k] == 0
  {
  }

  lemma LeafShare(f: Forest, len: seq<int>, i: int, x: nat)
    requires Grown(f) && |len| == f.a && f.D(f.n) <= x && 0 <= i < f.a && len[i] == Depth(f, i + 1)
    ensures 0 <= len[i] <= x && Frontier(f, f.a, x)[i + 1] == Pow2(x - len[i])
  {
    DepthInRoot(f, i + 1);
  }

  lemma {:induction false} LeafSum(s: seq<int>, len: seq<int>, j: nat, x: nat)
    requires j <= |len| && j < |s| && s[0] == 0 && forall i :: 0 <= i < j ==> 0 <= len[i] <= x && s[i + 1] == Pow2(x - len[i])
    ensures Sum(s[..j + 1]) == C.Kraft(len[..j], x, x)
  {
    if j == 0 {
      assert s[..1] == [0] && [0][..0] == [];
    } else {
      LeafSum(s, len, j - 1, x);
      assert s[..j + 1][..j] == s[..j] && len[..j][..j - 1] == len[..j - 1];
    }
  }

  lemma {:induction false} TailSum(s: seq<int>, i: nat, j: nat)
    requires i <= j <= |s| && forall k :: i <= k < j ==> s[k] == 0
    ensures Sum(s[..j]) == Sum(s[..i])
  {
    if i < j {
      TailSum(s, i, j - 1);
      assert s[..j][..j - 1] == s[..j - 1];
    }
  }

  /** Lengths that fill the space measured finely fill it measured in 2^m. */
  lemma KraftExact(len: seq<int>, m: nat, d: nat)
    requires C.Kraft(len, m + d, m + d) == Pow2(m + d) && forall i :: 0 <= i < |len| ==> 0 <= len[i] <= m
    ensures C.Kraft(len, m, m) == Pow2(m)
  {
    C.KraftScale(len, m, d);
    Pow2Add(m, d);
    C.Cancel(C.Kraft(len, m, m), Pow2(m), Pow2(d));
    C.Cancel(Pow2(m), C.Kraft(len, m, m), Pow2(d));
  }

  // ---- the tree's cost, and that it is the least ----

  /** Weight times depth for the nodes among 1 .. m whose parent lies beyond m, and for the root; 0 for the others. */
  ghost function Spent(f: Forest, m: int): (s: seq<int>)
    requires f.Shape() && f.a <= m <= f.n
    ensures |s| == f.n + 1
  {
    seq(f.n + 1, k requires 0 <= k <= f.n =>
      if 1 <= k <= m && (f.parent[k] == -1 || f.parent[k] > m) then f.W(k) * Depth(f, k) else 0)
  }

  lemma KidsOf(f: Forest, m: int)
    requires f.Shape() && f.Exact() && f.a < m <= f.n
    ensures 0 <= m - f.a - 1 < |f.kids| && 1 <= f.a && f.n < |f.weight|
    ensures var (l, r) := f.kids[m - f.a - 1];
            1 <= l < m && 1 <= r < m && l != r && f.W(m) == f.W(l) + f.W(r) && Depth(f, l) == Depth(f, r) == Depth(f, m) + 1
  {
    var (l, r) := f.kids[m - f.a - 1];
    assert f.parent[l] == m && f.parent[r] == m && 1 <= l < m && 1 <= r < m && l != r;
    assert f.W((m - f.a - 1) + f.a + 1) == f.W(l) + f.W(r);
  }

  /** Replacing a node by its two children costs its weight. */
  lemma SpentStep(f: Forest, m: int)
    requires f.Shape() && f.Exact() && f.a < m <= f.n
    ensures Sum(Spent(f, m - 1)) == Sum(Spent(f, m)) + f.W(m)
  {
    hide *;
    KidsOf(f, m);
    var (l, r) := f.kids[m - f.a - 1];
    var s, d := Spent(f, m), Depth(f, m);
    var x, y := f.W(l) * (d + 1), f.W(r) * (d + 1);
    SpentChange(f, m, l, r);
    SumUpdate(s, m, 0);
    SumUpdate(s[m := 0], l, x);
    SumUpdate(s[m := 0][l := x], r, y);
    OneDeeper(f.W(l), f.W(r), d);
  }

  lemma OneDeeper(a: int, b: int, d: int)
    ensures a * (d + 1) + b * (d + 1) == (a + b) * d + (a + b)
  {
  }

  lemma SpentChange(f: Forest, m: int, l: int, r: int)
    requires f.Shape() && f.a < m <= f.n && f.kids[m - f.a - 1] == (l, r)
    ensures 1 <= l < m && 1 <= r < m && Spent(f, m)[l] == Spent(f, m)[r] == 0 && Spent(f, m)[m] == f.W(m) * Depth(f, m)
    ensures Spent(f, m - 1) == Spent(f, m)[m := 0][l := f.W(l) * Depth(f, l)][r := f.W(r) * Depth(f, r)]
  {
    var s, s' := Spent(f, m), Spent(f, m - 1);
    forall k | 0 <= k <= f.n ensures s'[k] == s[m := 0][l := f.W(l) * Depth(f, l)][r := f.W(r) * Depth(f, r)][k] {
      if 1 <= k < m && k != l && k != r { assert f.parent[k] != m; }
    }
  }

  lemma SpentNothing(f: Forest)
    requires Grown(f)
    ensures |Spent(f, f.n)| == f.n + 1 && forall k :: 0 <= k <= f.n ==> Spent(f, f.n)[k] == 0
  {
    forall k | 0 <= k <= f.n ensures Spent(f, f.n)[k] == 0 {
      if 1 <= k < f.n { NotRoot(f, k); }
      if k == f.n { assert f.n in f.Roots(); }
    }
  }

  /** What the leaves cost is the weight of the inner nodes. */
  lemma {:induction false} SpentInner(f: Forest, m: int)
    requires Grown(f) && f.Exact() && f.a <= m <= f.n
    ensures Sum(Spent(f, m)) == Sum(f.Ws()[m + 1..])
    decreases f.n - m
  {
    hide *;
    GrownShape(f);
    if m == f.n {
      SpentNothing(f);
      ZeroSum(Spent(f, m));
      ZeroSum(f.Ws()[m + 1..]);
    } else {
      SpentInner(f, m + 1);
      SpentStep(f, m + 1);
      assert f.Ws()[m + 1..] == [f.W(m + 1)] + f.Ws()[m + 2..];
      SumPrepend(f.W(m + 1), f.Ws()[m + 2..]);
    }
  }

  lemma {:induction false} LeafCost(s: seq<int>, w: seq<int>, len: seq<int>, j: nat)
    requires j <= |len| == |w| && j < |s| && s[0] == 0 && forall i :: 0 <= i < j ==> len[i] >= 0 && s[i + 1] == w[i] * len[i]
    ensures Sum(s[..j + 1]) == O.Cost(w[..j], len[..j])
  {
    if j == 0 {
      assert s[..1] == [0] && [0][..0] == [];
    } else {
      LeafCost(s, w, len, j - 1);
      assert s[..j + 1][..j] == s[..j] && len[..j][..j - 1] == len[..j - 1] && w[..j][..j - 1] == w[..j - 1];
    }
  }

  lemma GrownShape(f: Forest)
    requires Grown(f)
    ensures f.Shape() && 1 <= f.a <= f.n < |f.weight|
  {
  }

  lemma SpentEnds(f: Forest)
    requires f.Shape()
    ensures 0 <= f.a <= f.n && |Spent(f, f.a)| == f.n + 1 && Spent(f, f.a)[0] == 0 && f.n < |f.weight|
    ensures forall k :: f.a < k <= f.n ==> Spent(f, f.a)[k] == 0
    ensures forall k :: 1 <= k <= f.a ==> Spent(f, f.a)[k] == f.W(k) * Depth(f, k)
  {
  }

  /** The code read off the tree costs what joining cost. */
  lemma CostOfTree(f: Forest, w: seq<int>, len: seq<int>)
    requires Grown(f) && f.Exact() && |w| == |len| == f.a && forall i :: 0 <= i < f.a ==> len[i] == Depth(f, i + 1) && w[i] == f.W(i + 1)
    ensures O.Cost(w, len) == f.Inner()
  {
    hide *;
    GrownShape(f);
    SpentEnds(f);
    SpentInner(f, f.a);
    var s := Spent(f, f.a);
    forall i | 0 <= i < f.a ensures len[i] >= 0 && s[i + 1] == w[i] * len[i] {}
    LeafCost(s, w, len, f.a);
    assert len[..f.a] == len && w[..f.a] == w;
    TailSum(s, f.a + 1, |s|);
    assert s[..|s|] == s;
    InnerIs(f);
  }

  lemma InnerIs(f: Forest)
    requires f.a <= f.n < |f.weight| && 0 <= f.a
    ensures f.Inner() == Sum(f.Ws()[f.a + 1..])
  {
  }

  /** One root left: nothing costs less than nothing, and its tree reaches down as far as it does. */
  lemma RootAlone(f: Forest)
    requires Grown(f)
    ensures !Attains(f, 0, f.D(f.n))
  {
    forall m: seq<int>, l: nat | OverRoots(f, m) && O.Lengths(m, l) ensures !O.Beats(f.Ws(), f.Ds(), m, 0, f.D(f.n)) { NeverBeats(f, m); }
  }

  lemma NeverBeats(f: Forest, m: seq<int>)
    requires Grown(f) && OverRoots(f, m)
    ensures !O.Beats(f.Ws(), f.Ds(), m, 0, f.D(f.n))
  {
    O.CostNonNegative(f.Ws(), m);
    assert f.n in f.Roots() && m[f.n] >= 0 && f.Ds()[f.n] == f.D(f.n);
    hide O.Cost;
  }

  /** The code m costs more than len, or the same and has a length no smaller than the longest of len. */
  ghost predicate NoBetter(w: seq<int>, len: seq<int>, m: seq<int>)
    requires |w| == |len| == |m|
  {
    O.Cost(w, len) < O.Cost(w, m) || (O.Cost(w, len) == O.Cost(w, m) && forall i :: 0 <= i < |len| ==> exists k :: 0 <= k < |m| && len[i] <= m[k])
  }

  /** No code of these weights costs less than len, and of those that cost the same none is shorter throughout than its longest. */
  ghost predicate Best(w: seq<int>, len: seq<int>)
    requires |w| == |len|
  {
    forall m: seq<int>, l: nat :: |m| == |w| && (forall k :: 0 <= k < |m| ==> m[k] >= 0) && O.Lengths(m, l) ==>
      NoBetter(w, len, m)
  }

  /** Leaves 1 .. a, each a root, of these weights. */
  ghost predicate Single(f0: Forest, w: seq<int>) {
    f0.Shape() && f0.n == f0.a == |w| && f0.Roots() == Upto(f0.a) && f0.W(0) == 0
    && forall i :: 0 <= i < |w| ==> w[i] == f0.W(i + 1) && f0.D(i + 1) == 0
  }

  lemma SingleParts(f0: Forest, w: seq<int>)
    requires Single(f0, w)
    ensures f0.Shape() && f0.n < |f0.weight| && f0.Ws() == [0] + w && |f0.Ds()| == |w| + 1 && forall k :: 1 <= k <= |w| ==> f0.Ds()[k] == 0
  {
  }

  lemma OverLeaves(f0: Forest, w: seq<int>, m: seq<int>)
    requires Single(f0, w) && |m| == |w| && forall i :: 0 <= i < |m| ==> m[i] >= 0
    ensures f0.Shape() && OverRoots(f0, [-1] + m)
  {
    hide Forest.Shape;
  }

  /** The forest of single leaves attains what a code of their weights attains. */
  lemma LeavesAttain(f0: Forest, w: seq<int>, m: seq<int>, l: nat, c: int, h: int)
    requires Single(f0, w) && |m| == |w| && (forall i :: 0 <= i < |m| ==> m[i] >= 0) && O.Lengths(m, l)
    requires O.Cost(w, m) < c || (O.Cost(w, m) == c && forall k :: 0 <= k < |m| ==> m[k] < h)
    ensures f0.Shape() && Attains(f0, c, h)
  {
    hide *;
    SingleParts(f0, w);
    OverLeaves(f0, w, m);
    O.LengthsFront(m, l);
    O.BeatsFront(w, f0.Ds(), m, c, h);
    assert |[-1] + m| == |f0.Ws()|;
    AttainsBy(f0, [-1] + m, l, c, h);
  }

  /** The deepest leaf is no deeper than the root says. */
  lemma NoDeeper(f: Forest, len: seq<int>)
    requires Grown(f) && |len| == f.a && forall i :: 0 <= i < f.a ==> len[i] == Depth(f, i + 1)
    ensures forall i :: 0 <= i < f.a ==> 0 <= len[i] <= f.D(f.n)
  {
    forall i | 0 <= i < f.a ensures 0 <= len[i] <= f.D(f.n) { DepthInRoot(f, i + 1); }
  }

  lemma NotAttained(f0: Forest, f: Forest)
    requires Grown(f) && Thrifty(f0, f)
    ensures f0.Shape() && !Attains(f0, f.Inner(), f.D(f.n))
  {
    RootAlone(f);
    hide Attains, Forest.Shape, Forest.Exact;
    assert f.Inner() == 0 + f.Inner();
  }

  /** The code read off a tree grown by joining lightest roots is best. */
  lemma BestOfTree(f0: Forest, f: Forest, w: seq<int>, len: seq<int>)
    requires Grown(f) && Thrifty(f0, f) && Single(f0, w) && |w| == |len| == f.a && forall i :: 0 <= i < f.a ==> len[i] == Depth(f, i + 1)
    ensures Best(w, len)
  {
    hide *;
    LeafWeightsKept(f0, f, w);
    NotAttained(f0, f);
    CostOfTree(f, w, len);
    NoDeeper(f, len);
    forall m: seq<int>, l: nat | |m| == |w| && (forall k :: 0 <= k < |m| ==> m[k] >= 0) && O.Lengths(m, l)
      ensures NoBetter(w, len, m)
    {
      NoneBetter(f0, f, w, len, m, l);
    }
    BestIs(w, len);
  }

  lemma BestIs(w: seq<int>, len: seq<int>)
    requires |w| == |len|
    requires forall m: seq<int>, l: nat :: |m| == |w| && (forall k :: 0 <= k < |m| ==> m[k] >= 0) && O.Lengths(m, l) ==>
               NoBetter(w, len, m)
    ensures Best(w, len)
  {
  }

  lemma LeafWeightsKept(f0: Forest, f: Forest, w: seq<int>)
    requires Thrifty(f0, f) && Single(f0, w)
    ensures f.Shape() && f.Exact() && f.a == f0.a == |w| && 1 <= f.a <= f.n < |f.weight| && forall i :: 0 <= i < f.a ==> w[i] == f.W(i + 1)
  {
    hide Reduced;
  }

  lemma NoneBetter(f0: Forest, f: Forest, w: seq<int>, len: seq<int>, m: seq<int>, l: nat)
    requires f0.Shape() && Single(f0, w) && |m| == |w| == |len| && (forall k :: 0 <= k < |m| ==> m[k] >= 0) && O.Lengths(m, l)
    requires 0 <= f.n < |f.weight| && !Attains(f0, O.Cost(w, len), f.D(f.n)) && forall i :: 0 <= i < |len| ==> len[i] <= f.D(f.n)
    ensures NoBetter(w, len, m)
  {
    var c, h := O.Cost(w, len), f.D(f.n);
    hide Attains, Single, O.Cost, O.Lengths;
    if O.Cost(w, m) < c || (O.Cost(w, m) == c && forall k :: 0 <= k < |m| ==> m[k] < h) { LeavesAttain(f0, w, m, l, c, h); }
  }

  ghost function Upto(n: int): (s: set<int>)
    ensures forall k :: k in s <==> 1 <= k <= n
    decreases if n > 0 then n else 0
  {
    if n <= 0 then {} else Upto(n - 1) + {n}
  }

  // ---- leaf weights and their scaling ----

  function LeafWeights(weight: seq<int>, a: nat): (s: seq<int>)
    requires a < |weight|
    ensures |s| == a
  {
    seq(a, i requires 0 <= i < a => weight[i + 1] / UNIT)
  }

  /** Leaves carry no depth and weigh at least one; total is their weight. */
  ghost predicate Leaves(weight: seq<int>, a: nat, total: int) {
    |weight| == NODES && a < NODES && (forall k :: 1 <= k <= a ==> weight[k] % UNIT == 0 && weight[k] / UNIT >= 1)
    && Sum(LeafWeights(weight, a)) == total < 0x80_0000
  }

  /** The forest before any joining. */
  lemma Planted(heap: seq<int>, weight: seq<int>, parent: seq<int>, a: nat, total: int)
    requires Leaves(weight, a, total) && 1 <= a && 2 * a <= NODES && |parent| == NODES && forall k :: 1 <= k <= a ==> parent[k] == -1
    requires Ordered(heap, weight, a) && Contents(heap, a) == multiset(Upto(a))
    ensures Growing(heap, a, weight, parent, Forest(weight, parent, [], a, a), 1, total) && Forest(weight, parent, [], a, a).Roots() == Upto(a)
  {
    var f := Forest(weight, parent, [], a, a);
    assert f.Shape();
    assert f.Roots() == Upto(a);
    assert f.RootWeights() == [0] + LeafWeights(weight, a);
    SumPrepend(0, LeafWeights(weight, a));
    assert Fib(2) == 1 && Fib(1) == 1;
  }

  lemma {:induction false} SumPrepend(v: int, s: seq<int>)
    ensures Sum([v] + s) == v + Sum(s)
  {
    if s == [] {
      assert [v] + s == [v] && [v][..0] == [];
    } else {
      SumPrepend(v, s[..|s| - 1]);
      assert ([v] + s)[..|s|] == [v] + s[..|s| - 1];
    }
  }

  /** One node on the heap: the tree is complete. */
  lemma Complete(heap: seq<int>, weight: seq<int>, parent: seq<int>, f: Forest, floor: int, total: int)
    requires Growing(heap, 1, weight, parent, f, floor, total)
    ensures Grown(f) && Fib(f.D(f.n) + 2) <= total && f.D(f.n) < 34
  {
    assert heap[1..2] == [heap[1]];
    assert multiset(f.Roots())[heap[1]] == 1;
    assert f.n in f.Roots();
    forall k | k in f.Roots() ensures k == f.n {
      assert k in multiset(f.Roots()) && f.n in multiset(f.Roots());
    }
    DepthBounded(f, f.n, floor, total);
    Shallow(f.D(f.n));
  }

  /** A code that comes out too long has a leaf weight of three or more: weights of one and two make shallow trees. */
  lemma TooLongIsHeavy(f: Forest, weight: seq<int>, a: nat, total: int, maxLen: nat, k: int)
    requires Grown(f) && f.a == a && Leaves(weight, a, total) && Fib(f.D(f.n) + 2) <= total
    requires 1 <= k <= a && Depth(f, k) > maxLen && Fib(maxLen + 3) > 2 * a
    ensures exists i :: 0 <= i < a && LeafWeights(weight, a)[i] >= 3
  {
    DepthInRoot(f, k);
    FibMonotone(maxLen + 3, f.D(f.n) + 2);
    if forall i :: 0 <= i < a ==> LeafWeights(weight, a)[i] <= 2 { SumBounded(LeafWeights(weight, a), 2); }
  }

  function Halved(w: int): int {
    (1 + w / UNIT / 2) * UNIT
  }

  lemma HalvedWeight(w: int)
    requires w / UNIT >= 1
    ensures Halved(w) / UNIT == 1 + w / UNIT / 2 && Halved(w) % UNIT == 0 && 1 <= Halved(w) / UNIT <= w / UNIT
    ensures w / UNIT >= 3 ==> Halved(w) / UNIT < w / UNIT
  {
    DivModUnique(Halved(w), UNIT, 1 + w / UNIT / 2, 0);
  }

  /** All frequencies halved, and kept at one or more. */
  function HalvedAll(w: seq<int>): (v: seq<int>)
    ensures |v| == |w|
  {
    seq(|w|, i requires 0 <= i < |w| => 1 + w[i] / 2)
  }

  function Halvings(w: seq<int>, k: nat): (v: seq<int>)
    ensures |v| == |w|
  {
    if k == 0 then w else HalvedAll(Halvings(w, k - 1))
  }

  /** A best code of these weights has a length beyond the limit. */
  ghost predicate TooDeep(w: seq<int>, maxLen: nat) {
    exists len: seq<int>, l: nat :: |len| == |w| && O.Lengths(len, l) && (forall i :: 0 <= i < |len| ==> len[i] >= 0) && Best(w, len)
                                    && exists i :: 0 <= i < |len| && len[i] > maxLen
  }

  /** The weights were halved as often as a best code was too deep, and len is a best code of what they came to. */
  ghost predicate Kept(w: seq<int>, len: seq<int>, maxLen: nat)
    requires |w| == |len|
  {
    exists k: nat :: Best(Halvings(w, k), len) && forall j: nat :: j < k ==> TooDeep(Halvings(w, j), maxLen)
  }

  /** Scaling keeps every leaf at one or more and lowers the total. */
  lemma Scaled(weight: seq<int>, weight': seq<int>, a: nat, total: int)
    requires Leaves(weight, a, total) && |weight'| == NODES && forall k :: 1 <= k <= a ==> weight'[k] == Halved(weight[k])
    requires exists i :: 0 <= i < a && LeafWeights(weight, a)[i] >= 3
    ensures Leaves(weight', a, Sum(LeafWeights(weight', a))) && Sum(LeafWeights(weight', a)) < total
  {
    forall k | 1 <= k <= a ensures weight'[k] % UNIT == 0 && 1 <= weight'[k] / UNIT <= weight[k] / UNIT { HalvedWeight(weight[k]); }
    var i :| 0 <= i < a && LeafWeights(weight, a)[i] >= 3;
    HalvedWeight(weight[i + 1]);
    assert LeafWeights(weight', a)[i] < LeafWeights(weight, a)[i];
    SumCompare(LeafWeights(weight', a), LeafWeights(weight, a));
  }

  // ---- the method ----

  /** Frequencies, with zero counted as one. */
  function Filled(freq: seq<int>): (s: seq<int>)
    ensures |s| == |freq|
  {
    seq(|freq|, i requires 0 <= i < |freq| => if freq[i] == 0 then 1 else freq[i])
  }

  method SetWeights(weight: array<int>, freq: array<int>, alphaSize: nat)
    requires weight != freq && weight.Length == NODES && alphaSize <= BZ_MAX_ALPHA_SIZE && alphaSize <= freq.Length
    requires (forall i :: 0 <= i < alphaSize ==> freq[i] >= 0) && Sum(Filled(freq[..alphaSize])) < 0x80_0000
    modifies weight
    ensures Leaves(weight[..], alphaSize, Sum(Filled(freq[..alphaSize]))) && LeafWeights(weight[..], alphaSize) == Filled(freq[..alphaSize])
  {
    var i := 0;
    while i < alphaSize
      invariant 0 <= i <= alphaSize && forall k :: 1 <= k <= i ==> weight[k] == Filled(freq[..alphaSize])[k - 1] * UNIT
    {
      weight[i + 1] := (if freq[i] == 0 then 1 else freq[i]) * UNIT;
      i := i + 1;
    }
    ghost var s := Filled(freq[..alphaSize]);
    forall k | 1 <= k <= alphaSize ensures weight[k] % UNIT == 0 && weight[k] / UNIT == s[k - 1] { DivModUnique(weight[k], UNIT, s[k - 1], 0); }
    assert LeafWeights(weight[..], alphaSize) == s;
  }

  method BuildTree(heap: array<int>, weight: array<int>, parent: array<int>, alphaSize: nat, ghost total: int) returns (ghost f: Forest)
    requires heap != weight && heap != parent && weight != parent && heap.Length == HEAP_SIZE && parent.Length == NODES
    requires 1 <= alphaSize <= BZ_MAX_ALPHA_SIZE && Leaves(weight[..], alphaSize, total)
    modifies heap, weight, parent
    ensures Grown(f) && f.a == alphaSize && f.parent == parent[..] && Fib(f.D(f.n) + 2) <= total && f.D(f.n) < 34
    ensures Cheapest(f, LeafWeights(old(weight[..]), alphaSize))
    ensures weight.Length == NODES && forall k :: 1 <= k <= alphaSize ==> weight[k] == old(weight[k])
  {
    hide *;
    var nNodes, nHeap := alphaSize, 0;
    ghost var w := weight[..];
    LeavesSize(w, alphaSize, total);
    Plant(heap, weight, parent, alphaSize, total);
    nHeap := alphaSize;
    f := Forest(weight[..], parent[..], [], alphaSize, alphaSize);
    ghost var f0, floor := f, 1;
    HoldsRoots(heap[..], nHeap, weight[..], parent[..], f, floor, total);
    StartThrifty(f, w, weight[..], total);
    while nHeap > 1
      invariant nHeap >= 1 && nNodes == f.n && f.a == alphaSize && Growing(heap[..], nHeap, weight[..], parent[..], f, floor, total)
      invariant nNodes >= alphaSize && weight.Length == NODES && forall k :: 1 <= k <= alphaSize ==> weight[k] == old(weight[k])
      invariant Thrifty(f0, f)
      decreases nHeap
    {
      nHeap, nNodes, f, floor := JoinTwo(heap, nHeap, weight, parent, nNodes, f0, f, floor, total);
    }
    CheapestIs(f0, f, LeafWeights(w, alphaSize));
    Complete(heap[..], weight[..], parent[..], f, floor, total);
    SameParents(heap[..], weight[..], parent[..], f, floor, total);
  }

  /** f was grown from leaves of these weights by joining lightest roots. */
  ghost predicate Cheapest(f: Forest, w: seq<int>) {
    exists f0 :: Thrifty(f0, f) && Single(f0, w)
  }

  lemma CheapestIs(f0: Forest, f: Forest, w: seq<int>)
    requires Thrifty(f0, f) && Single(f0, w)
    ensures Cheapest(f, w)
  {
    hide Thrifty, Single;
  }

  lemma CheapestIsBest(f: Forest, w: seq<int>, len: seq<int>)
    requires Grown(f) && Cheapest(f, w) && |w| == |len| == f.a && forall i :: 0 <= i < f.a ==> len[i] == Depth(f, i + 1)
    ensures Best(w, len)
  {
    hide Thrifty, Single, Best, Grown;
    var f0 :| Thrifty(f0, f) && Single(f0, w);
    BestOfTree(f0, f, w, len);
  }

  /** Before any joining. */
  lemma StartThrifty(f: Forest, was: seq<int>, weight: seq<int>, total: int)
    requires f.Shape() && f.n == f.a && f.kids == [] && f.weight == weight && f.Roots() == Upto(f.a) && Leaves(was, f.a, total)
    requires |weight| == NODES && weight[0] == 0 && forall k :: 1 <= k < NODES ==> weight[k] == was[k]
    ensures Thrifty(f, f) && Single(f, LeafWeights(was, f.a))
  {
    assert f.Ws()[f.a + 1..] == [];
    hide Attains;
    forall c, h | Attains(f, c + f.Inner(), h) ensures Attains(f, c, h) {}
  }

  lemma SameParents(heap: seq<int>, weight: seq<int>, parent: seq<int>, f: Forest, floor: int, total: int)
    requires Growing(heap, 1, weight, parent, f, floor, total)
    ensures f.parent == parent
  {
  }

  /** Every leaf becomes a tree of its own on the heap. */
  method Plant(heap: array<int>, weight: array<int>, parent: array<int>, alphaSize: nat, ghost total: int)
    requires heap != weight && heap != parent && weight != parent && heap.Length == HEAP_SIZE && parent.Length == NODES
    requires 1 <= alphaSize <= BZ_MAX_ALPHA_SIZE && Leaves(weight[..], alphaSize, total)
    modifies heap, weight, parent
    ensures weight.Length == NODES && forall k :: 1 <= k < NODES ==> weight[k] == old(weight[k])
    ensures Growing(heap[..], alphaSize, weight[..], parent[..], Forest(weight[..], parent[..], [], alphaSize, alphaSize), 1, total)
    ensures weight[0] == 0 && parent.Length == NODES && Forest(weight[..], parent[..], [], alphaSize, alphaSize).Roots() == Upto(alphaSize)
  {
    ghost var w := weight[..];
    heap[0] := 0;
    weight[0] := 0;
    parent[0] := -2;
    SameLeaves(w, weight[..], alphaSize, total);
    PushLeaves(heap, weight, parent, alphaSize, total);
    Planted(heap[..], weight[..], parent[..], alphaSize, total);
  }

  /** Leaves 1 .. n are trees of their own and on the heap. */
  ghost predicate Planting(heap: seq<int>, weight: seq<int>, parent: seq<int>, n: int) {
    Ordered(heap, weight, n) && Contents(heap, n) == multiset(Upto(n)) && |parent| == NODES && n < NODES && forall k :: 1 <= k <= n ==> parent[k] == -1
  }

  method PushLeaves(heap: array<int>, weight: array<int>, parent: array<int>, alphaSize: nat, ghost total: int)
    requires heap != weight && heap != parent && weight != parent && heap.Length == HEAP_SIZE && parent.Length == NODES
    requires 1 <= alphaSize <= BZ_MAX_ALPHA_SIZE && Leaves(weight[..], alphaSize, total) && heap[0] == 0 && weight[0] == 0
    modifies heap, parent
    ensures Planting(heap[..], weight[..], parent[..], alphaSize)
  {
    var i, nHeap := 1, 0;
    assert heap[..][1..1] == [];
    assert Planting(heap[..], weight[..], parent[..], 0);
    ghost var w := weight[..];
    assert |w| == NODES && forall k :: 1 <= k <= alphaSize ==> w[k] >= 0;
    hide *;
    while i <= alphaSize
      invariant 1 <= i == nHeap + 1 <= alphaSize + 1 && weight[..] == w
      invariant Planting(heap[..], w, parent[..], nHeap)
    {
      nHeap := PushLeaf(heap, weight, parent, nHeap, i);
      i := i + 1;
    }
  }

  method PushLeaf(heap: array<int>, weight: array<int>, parent: array<int>, nHeap0: nat, i: nat) returns (nHeap: nat)
    requires heap != weight && heap != parent && weight != parent && i == nHeap0 + 1 <= BZ_MAX_ALPHA_SIZE
    requires Planting(heap[..], weight[..], parent[..], nHeap0) && |weight[..]| == NODES && weight[..][i] >= 0
    modifies heap, parent
    ensures nHeap == nHeap0 + 1 && Planting(heap[..], weight[..], parent[..], nHeap)
  {
    parent[i] := -1;
    hide Ordered, Contents, Upto;
    nHeap := Push(heap, weight, nHeap0, i);
    UptoNext(i);
  }

  lemma UptoNext(n: int)
    requires n >= 1
    ensures multiset(Upto(n)) == multiset(Upto(n - 1)) + multiset{n}
  {
  }

  /** Walks from every leaf to the root. */
  method Measure(len: array<Byte>, parent: array<int>, alphaSize: nat, maxLen: nat, ghost f: Forest) returns (tooLong: bool)
    requires Grown(f) && f.a == alphaSize <= len.Length && f.parent == parent[..] && f.D(f.n) < 34
    modifies len
    ensures forall i :: 0 <= i < alphaSize ==> len[i] == Depth(f, i + 1)
    ensures tooLong <==> exists i :: 0 <= i < alphaSize && len[i] > maxLen
  {
    tooLong := false;
    ghost var long := 0;
    var i := 1;
    while i <= alphaSize
      invariant 1 <= i <= alphaSize + 1 && (forall k :: 0 <= k < i - 1 ==> len[k] == Depth(f, k + 1))
      invariant (tooLong ==> 0 <= long < i - 1 && len[long] > maxLen) && (!tooLong ==> forall k :: 0 <= k < i - 1 ==> len[k] <= maxLen)
    {
      var j, k := 0, i;
      while parent[k] >= 0
        invariant 1 <= k <= f.n && 0 <= j && j + Depth(f, k) == Depth(f, i)
        decreases f.n - k
      {
        k := parent[k];
        j := j + 1;
      }
      DepthInRoot(f, i);
      len[i - 1] := j;
      if j > maxLen {
        tooLong := true;
        long := i - 1;
      }
      i := i + 1;
    }
  }

  lemma SameLeafWeights(weight: seq<int>, weight': seq<int>, a: nat)
    requires a < |weight| && a < |weight'| && forall k :: 1 <= k <= a ==> weight'[k] == weight[k]
    ensures LeafWeights(weight', a) == LeafWeights(weight, a)
  {
  }

  /** The tree that was too deep is a best code. */
  lemma DeepTree(f: Forest, w: seq<int>, len: seq<int>, maxLen: nat)
    requires Grown(f) && |w| == |len| == f.a && f.D(f.n) < 34 && Best(w, len) && (forall i :: 0 <= i < f.a ==> len[i] == Depth(f, i + 1))
    requires exists i :: 0 <= i < |len| && len[i] > maxLen
    ensures TooDeep(w, maxLen)
  {
    hide Best, Grown, C.Kraft;
    KraftOfTree(f, len, 34);
    assert O.Lengths(len, 34);
  }

  lemma LengthsGood(f: Forest, len: seq<int>, maxLen: nat)
    requires Grown(f) && |len| == f.a && f.D(f.n) < 34
    requires forall i :: 0 <= i < f.a ==> len[i] == Depth(f, i + 1) && len[i] <= maxLen
    ensures forall i :: 0 <= i < f.a ==> 0 <= len[i] && (f.a >= 2 ==> len[i] >= 1)
    ensures C.Kraft(len, maxLen, maxLen) == Pow2(maxLen)
  {
    hide *;
    KraftOfTree(f, len, maxLen + 34);
    KraftExact(len, maxLen, 34);
    if f.a >= 2 {
      LastIsInner(f);
      forall i | 0 <= i < f.a ensures len[i] >= 1 { DepthInRoot(f, i + 1); }
    }
  }

  /** With two leaves or more the root is not a leaf. */
  lemma LastIsInner(f: Forest)
    requires Grown(f) && f.a >= 2
    ensures f.n > f.a
  {
    assert 1 in f.Roots() <==> f.parent[1] == -1;
  }

  lemma LeavesSize(weight: seq<int>, a: nat, total: int)
    requires Leaves(weight, a, total)
    ensures a < |weight| == NODES
  {
  }

  lemma LeavesPositive(weight: seq<int>, a: nat, total: int)
    requires Leaves(weight, a, total)
    ensures total >= 0
  {
    if a > 0 { SumAtLeast(LeafWeights(weight, a), 0); }
  }

  lemma SameLeaves(weight: seq<int>, weight': seq<int>, a: nat, total: int)
    requires Leaves(weight, a, total) && |weight'| == NODES && forall k :: 1 <= k <= a ==> weight'[k] == weight[k]
    ensures Leaves(weight', a, total)
  {
    assert LeafWeights(weight', a) == LeafWeights(weight, a);
  }

  /** Scales the leaf weights down; only called when the code is too long, and then the total shrinks. */
  method Rescale(weight: array<int>, len: array<Byte>, alphaSize: nat, ghost maxLen: nat, ghost f: Forest, ghost total: int) returns (ghost total': int)
    requires Grown(f) && f.a == alphaSize <= len.Length && Leaves(weight[..], alphaSize, total) && Fib(f.D(f.n) + 2) <= total
    requires (forall i :: 0 <= i < alphaSize ==> len[i] == Depth(f, i + 1)) && exists i :: 0 <= i < alphaSize && len[i] > maxLen
    requires Fib(maxLen + 3) > 2 * alphaSize
    modifies weight
    ensures Leaves(weight[..], alphaSize, total') && total' < total
    ensures LeafWeights(weight[..], alphaSize) == HalvedAll(LeafWeights(old(weight[..]), alphaSize))
  {
    ghost var was := weight[..];
    ghost var long :| 0 <= long < alphaSize && len[long] > maxLen;
    TooLongIsHeavy(f, was, alphaSize, total, maxLen, long + 1);
    var i := 1;
    while i <= alphaSize
      invariant 1 <= i <= alphaSize + 1 && forall k :: 1 <= k <= alphaSize ==> weight[k] == if k < i then Halved(was[k]) else was[k]
    {
      var j := weight[i] / UNIT;
      j := 1 + (j / 2);
      weight[i] := j * UNIT;
      i := i + 1;
    }
    Scaled(was, weight[..], alphaSize, total);
    HalvedLeaves(was, weight[..], alphaSize, total);
    total' := Sum(LeafWeights(weight[..], alphaSize));
  }

  lemma HalvedLeaves(was: seq<int>, weight: seq<int>, a: nat, total: int)
    requires Leaves(was, a, total) && |weight| == NODES && forall k :: 1 <= k <= a ==> weight[k] == Halved(was[k])
    ensures LeafWeights(weight, a) == HalvedAll(LeafWeights(was, a))
  {
    forall i | 0 <= i < a ensures LeafWeights(weight, a)[i] == HalvedAll(LeafWeights(was, a))[i] { HalvedWeight(was[i + 1]); }
  }

  /** The lengths of a best code, for the frequencies or, where its longest code would be too long, for frequencies halved as
      often as needed. */
  method MakeCodeLengths(len: array<Byte>, freq: array<int>, alphaSize: nat, maxLen: nat)
    requires 1 <= alphaSize <= BZ_MAX_ALPHA_SIZE && alphaSize <= len.Length && alphaSize <= freq.Length
    requires (forall i :: 0 <= i < alphaSize ==> freq[i] >= 0) && Sum(Filled(freq[..alphaSize])) < 0x80_0000
    requires Fib(maxLen + 3) > 2 * alphaSize
    modifies len
    ensures forall i :: 0 <= i < alphaSize ==> len[i] <= maxLen && (alphaSize >= 2 ==> len[i] >= 1)
    ensures C.Kraft(len[..alphaSize], maxLen, maxLen) == Pow2(maxLen)
    ensures Kept(Filled(freq[..alphaSize]), len[..alphaSize], maxLen)
  {
    hide *;
    var heap := new int[HEAP_SIZE](_ => 0);
    var weight := new int[NODES](_ => 0);
    var parent := new int[NODES](_ => 0);
    SetWeights(weight, freq, alphaSize);
    Attempts(len, heap, weight, parent, alphaSize, maxLen, Filled(freq[..alphaSize]), Sum(Filled(freq[..alphaSize])));
    LimitedIs(len[..], alphaSize, maxLen);
  }

  /** The outer loop. */
  method Attempts(len: array<Byte>, heap: array<int>, weight: array<int>, parent: array<int>, alphaSize: nat, maxLen: nat, ghost w: seq<int>, ghost total0: int)
    requires heap != weight && heap != parent && weight != parent && heap.Length == HEAP_SIZE && parent.Length == NODES
    requires 1 <= alphaSize <= BZ_MAX_ALPHA_SIZE && alphaSize <= len.Length && Leaves(weight[..], alphaSize, total0)
    requires alphaSize < |weight[..]| && LeafWeights(weight[..], alphaSize) == w
    requires Fib(maxLen + 3) > 2 * alphaSize
    modifies heap, weight, parent, len
    ensures Limited(len[..], alphaSize, maxLen) && Kept(w, len[..alphaSize], maxLen)
  {
    hide *;
    ghost var total, k := total0, 0;
    LeavesPositive(weight[..], alphaSize, total);
    NoHalving(w);
    var tooLong := true;
    while tooLong
      invariant Leaves(weight[..], alphaSize, total) && total >= 0 && |w| == alphaSize < |weight[..]|
      invariant if tooLong then LeafWeights(weight[..], alphaSize) == Halvings(w, k)
                else Limited(len[..], alphaSize, maxLen) && |len[..alphaSize]| == |Halvings(w, k)| && Best(Halvings(w, k), len[..alphaSize])
      invariant k >= 0 && forall j: nat :: j < k ==> TooDeep(Halvings(w, j), maxLen)
      decreases tooLong, total
    {
      tooLong, total := Attempt(len, heap, weight, parent, alphaSize, maxLen, total);
      if tooLong {
        OnceMore(w, k);
        k := k + 1;
      }
    }
    KeptIs(w, len[..alphaSize], maxLen, k);
  }

  lemma NoHalving(w: seq<int>)
    ensures Halvings(w, 0) == w
  {
  }

  lemma OnceMore(w: seq<int>, k: nat)
    ensures HalvedAll(Halvings(w, k)) == Halvings(w, k + 1)
  {
  }

  lemma KeptIs(w: seq<int>, len: seq<int>, maxLen: nat, k: nat)
    requires |w| == |len| && Best(Halvings(w, k), len) && forall j: nat :: j < k ==> TooDeep(Halvings(w, j), maxLen)
    ensures Kept(w, len, maxLen)
  {
  }

  /** The lengths meet the limit and make a complete code. */
  ghost predicate Limited(len: seq<Byte>, alphaSize: nat, maxLen: nat) {
    alphaSize <= |len| && (forall i :: 0 <= i < alphaSize ==> len[i] <= maxLen && (alphaSize >= 2 ==> len[i] >= 1))
    && C.Kraft(len[..alphaSize], maxLen, maxLen) == Pow2(maxLen)
  }

  lemma LimitedIs(len: seq<Byte>, alphaSize: nat, maxLen: nat)
    requires Limited(len, alphaSize, maxLen)
    ensures alphaSize <= |len| && forall i :: 0 <= i < alphaSize ==> len[i] <= maxLen && (alphaSize >= 2 ==> len[i] >= 1)
    ensures C.Kraft(len[..alphaSize], maxLen, maxLen) == Pow2(maxLen)
  {
  }

  /** Builds the tree and measures it; if a code is too long the weights are scaled down. */
  method Attempt(len: array<Byte>, heap: array<int>, weight: array<int>, parent: array<int>, alphaSize: nat, maxLen: nat, ghost total0: int)
    returns (tooLong: bool, ghost total: int)
    requires heap != weight && heap != parent && weight != parent && heap.Length == HEAP_SIZE && parent.Length == NODES
    requires 1 <= alphaSize <= BZ_MAX_ALPHA_SIZE && alphaSize <= len.Length && Leaves(weight[..], alphaSize, total0) && total0 >= 0
    requires Fib(maxLen + 3) > 2 * alphaSize
    modifies heap, weight, parent, len
    ensures Leaves(weight[..], alphaSize, total) && total >= 0
    ensures if tooLong then total < total0 else Limited(len[..], alphaSize, maxLen)
    ensures alphaSize < |weight[..]|
    ensures var w := LeafWeights(old(weight[..]), alphaSize);
            if tooLong then LeafWeights(weight[..], alphaSize) == HalvedAll(w) && TooDeep(w, maxLen) else Best(w, len[..alphaSize])
  {
    ghost var w := weight[..];
    total := total0;
    assert |w| == NODES && alphaSize < NODES;
    hide Leaves, Grown, Fib, Depth, Sum, Filled, LeafWeights, Best, TooDeep, Cheapest, HalvedAll;
    ghost var v := LeafWeights(w, alphaSize);
    ghost var f := BuildTree(heap, weight, parent, alphaSize, total);
    SameLeaves(w, weight[..], alphaSize, total);
    tooLong := Measure(len, parent, alphaSize, maxLen, f);
    SameLeafWeights(w, weight[..], alphaSize);
    CheapestIsBest(f, v, len[..alphaSize]);
    if tooLong {
      DeepTree(f, v, len[..alphaSize], maxLen);
      total := Rescale(weight, len, alphaSize, maxLen, f, total);
      LeavesPositive(weight[..], alphaSize, total);
    } else {
      LengthsGood(f, len[..alphaSize], maxLen);
    }
  }
}
