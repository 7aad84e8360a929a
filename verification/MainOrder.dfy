/** mainGtU of blocksort.c: comparing two rotations through the overshoot area, with the quadrant values as a cache. */
module MainOrder {
  import opened Common
  import opened Rotations

  const N_RADIX := 2
  const N_QSORT := 12
  const N_SHELL := 18
  const N_OVERSHOOT := N_RADIX + N_QSORT + N_SHELL + 2

  /** How many letters agree when the first unit of the budget is spent. */
  const PAID: nat := N_QSORT + 8

  /** No block is longer. */
  const MAX_BLOCK := 900_000

  /** Depths that mainQSort3 may hand on. */
  const MAX_DEPTH := N_RADIX + N_QSORT + 1

  /** The block with its first N_OVERSHOOT letters again behind it. */
  ghost predicate Extended(s: seq<int>, block: seq<int>) {
    N_OVERSHOOT < |s| && |s| + N_OVERSHOOT <= |block| && block[..|s|] == s && forall i :: 0 <= i < N_OVERSHOOT ==> block[|s| + i] == s[i]
  }

  /** Equal letters with quadrant values that differ: the order is known. Equal rotations may have any values. */
  ghost predicate Quadrants(s: seq<int>, q: seq<int>) {
    N_OVERSHOOT < |s| && |s| + N_OVERSHOOT <= |q| && (forall i :: 0 <= i < N_OVERSHOOT ==> q[|s| + i] == q[i])
    && forall i, j :: 0 <= i < |s| && 0 <= j < |s| && s[i] == s[j] && q[i] < q[j] ==> Cmp(s, i, j, |s|) <= 0
  }

  /** A difference at any depth is the difference. */
  lemma Decided(s: seq<int>, i: nat, j: nat, h: nat)
    requires s != [] && Cmp(s, i, j, h) != 0
    ensures Cmp(s, i, j, |s|) == Cmp(s, i, j, h)
  {
    if h <= |s| { CmpPrefix(s, i, j, h, |s|); } else { CmpBeyondPeriod(s, i, j, h); }
  }

  /** Where a cursor that started at i stands after m letters. */
  ghost predicate Stands(n: int, i: nat, m: nat, x: int) {
    n > 0 && 0 <= x < n + N_OVERSHOOT && x % n == (i + m) % n
  }

  lemma StandsNext(n: int, i: nat, m: nat, x: int)
    requires Stands(n, i, m, x) && x + 1 < n + N_OVERSHOOT
    ensures Stands(n, i, m + 1, x + 1)
  {
    ModAdd(x, 1, n);
    ModAdd(i + m, 1, n);
  }

  /** if (i1 >= nblock) i1 -= nblock, after the last of the letters. */
  lemma StandsWrapped(n: int, i: nat, m: nat, x: int)
    requires N_OVERSHOOT < n && Stands(n, i, m, x) && 0 <= x < n + N_OVERSHOOT
    ensures Stands(n, i, m + 1, if x + 1 >= n then x + 1 - n else x + 1) && (x + 1 >= n ==> x + 1 - n <= N_OVERSHOOT)
  {
    if x + 1 < n {
      StandsNext(n, i, m, x);
    } else {
      ModAdd(x, 1, n);
      ModAdd(i + m, 1, n);
      var y := x + 1 - n;
      DivModUnique(x + 1, n, 1, y);
      DivModUnique(y, n, 0, y);
      assert (i + m + 1) % n == (i + (m + 1)) % n;
    }
  }

  /** The letter and the quadrant value there. */
  lemma LetterThere(s: seq<int>, block: seq<int>, i: nat, m: nat, x: int)
    requires Extended(s, block) && Stands(|s|, i, m, x)
    ensures block[x] == Ch(s, i, m) && Ch(s, i, m) == s[(i + m) % |s|]
  {
    if x >= |s| {
      DivModUnique(x, |s|, 1, x - |s|);
    } else {
      DivModUnique(x, |s|, 0, x);
      assert block[x] == block[..|s|][x];
    }
  }

  lemma QuadrantThere(s: seq<int>, q: seq<int>, i: nat, m: nat, x: int)
    requires Quadrants(s, q) && Stands(|s|, i, m, x)
    ensures 0 <= (i + m) % |s| < |s| && q[x] == q[(i + m) % |s|]
  {
    if x >= |s| { DivModUnique(x, |s|, 1, x - |s|); } else { DivModUnique(x, |s|, 0, x); }
    hide Cmp;
  }

  /** Agreement so far, and what one more letter says. */
  lemma OneMoreLetter(s: seq<int>, i: nat, j: nat, m: nat)
    requires s != [] && Cmp(s, i, j, m) == 0
    ensures Ch(s, i, m) == Ch(s, j, m) ==> Cmp(s, i, j, m + 1) == 0
    ensures Ch(s, i, m) > Ch(s, j, m) ==> Cmp(s, i, j, |s|) > 0
    ensures Ch(s, i, m) < Ch(s, j, m) ==> Cmp(s, i, j, |s|) < 0
  {
    hide Ch;
    if Ch(s, i, m) != Ch(s, j, m) { Decided(s, i, j, m + 1); }
  }

  /** What different quadrant values say. */
  lemma QuadrantSays(s: seq<int>, q: seq<int>, i: nat, j: nat, m: nat)
    requires Quadrants(s, q) && Cmp(s, i, j, m) == 0 && Ch(s, i, m) == Ch(s, j, m)
    ensures 0 <= (i + m) % |s| < |s| && 0 <= (j + m) % |s| < |s|
    ensures q[(i + m) % |s|] < q[(j + m) % |s|] ==> Cmp(s, i, j, |s|) <= 0
    ensures q[(i + m) % |s|] > q[(j + m) % |s|] ==> Cmp(s, i, j, |s|) >= 0
  {
    var n, u, v := |s|, (i + m) % |s|, (j + m) % |s|;
    assert Ch(s, i, m) == s[u] && Ch(s, j, m) == s[v];
    CmpSplit(s, i, j, m, n);
    CmpBeyondPeriod(s, i, j, m + n);
    CmpAntisymmetric(s, u, v, n);
    hide Cmp, Ch;
    assert Cmp(s, i, j, n) == Cmp(s, u, v, n);
  }

  /** Agreement over a whole period. */
  lemma AllAgree(s: seq<int>, i: nat, j: nat, m: nat)
    requires s != [] && Cmp(s, i, j, m) == 0 && |s| <= m
    ensures Cmp(s, i, j, |s|) == 0
  {
    CmpBeyondPeriod(s, i, j, m);
  }

  /** The outcome of a comparison so far. */
  datatype Verdict = Open | Greater | NotGreater

  ghost predicate Right(s: seq<int>, i: nat, j: nat, v: Verdict) {
    s != [] && (v == Greater ==> Cmp(s, i, j, |s|) >= 0) && (v == NotGreater ==> Cmp(s, i, j, |s|) <= 0)
  }

  /** The first N_QSORT letters, without quadrants. */
  method CompareLetters(i: int, j: int, block: array<int>, ghost s: seq<int>) returns (v: Verdict)
    requires Extended(s, block[..]) && 0 <= i < |s| + MAX_DEPTH && 0 <= j < |s| + MAX_DEPTH
    ensures Right(s, i, j, v) && (v == Open ==> Cmp(s, i, j, N_QSORT) == 0)
  {
    var i1, i2, m := i, j, 0;
    assert s != [];
    hide Extended, Cmp, Ch;
    Nothing(s, i, j);
    ghost var b := block[..];
    while m < N_QSORT
      invariant 0 <= m <= N_QSORT && i1 == i + m && i2 == j + m && Cmp(s, i, j, m) == 0
    {
      Reaches(s, b, i, m);
      Reaches(s, b, j, m);
      OneMoreLetter(s, i, j, m);
      var c1, c2 := block[i1], block[i2];
      assert c1 == b[i1] && c2 == b[i2];
      if c1 != c2 { return if c1 > c2 then Greater else NotGreater; }
      i1, i2, m := i1 + 1, i2 + 1, m + 1;
    }
    return Open;
  }

  lemma Nothing(s: seq<int>, i: nat, j: nat)
    requires s != []
    ensures Cmp(s, i, j, 0) == 0
  {
  }

  /** Reading straight on from a start that is not too deep stays in the overshoot area. */
  lemma Reaches(s: seq<int>, block: seq<int>, i: nat, m: nat)
    requires Extended(s, block) && i < |s| + MAX_DEPTH && m < N_QSORT + 8
    ensures s != [] && i + m < |block| && block[i + m] == Ch(s, i, m) && Stands(|s|, i, m, i + m)
  {
    LetterThere(s, block, i, m, i + m);
  }

  /** Eight letters with their quadrants. */
  method CompareEight(i: int, j: int, m: nat, x: int, y: int, block: array<int>, quadrant: array<int>, nblock: int, ghost s: seq<int>)
    returns (v: Verdict, x': int, y': int)
    requires nblock == |s| && Extended(s, block[..]) && Quadrants(s, quadrant[..]) && 0 <= i && 0 <= j && Cmp(s, i, j, m) == 0
    requires Stands(|s|, i, m, x) && Stands(|s|, j, m, y) && x + 8 <= |s| + N_OVERSHOOT && y + 8 <= |s| + N_OVERSHOOT
    ensures Right(s, i, j, v)
    ensures v == Open ==> Cmp(s, i, j, m + 8) == 0 && Stands(|s|, i, m + 8, x') && Stands(|s|, j, m + 8, y') && x' < |s| && y' < |s|
  {
    x', y' := x, y;
    ghost var b, q := block[..], quadrant[..];
    Sizes(s, b, q);
    hide Extended, Quadrants, Cmp, Ch, Stands;
    var k := 0;
    while true
      invariant 0 <= k < 8 && Cmp(s, i, j, m + k) == 0 && Stands(|s|, i, m + k, x') && Stands(|s|, j, m + k, y')
      invariant 0 <= x' == x + k && 0 <= y' == y + k
      decreases 8 - k
    {
      v := CompareOne(i, j, m + k, x', y', block, quadrant, s);
      if v != Open { return; }
      k := k + 1;
      if k == 8 { break; }
      StandsNext(|s|, i, m + k - 1, x');
      StandsNext(|s|, j, m + k - 1, y');
      x', y' := x' + 1, y' + 1;
    }
    StandsWrapped(|s|, i, m + 7, x');
    StandsWrapped(|s|, j, m + 7, y');
    x', y' := x' + 1, y' + 1;
    if x' >= nblock { x' := x' - nblock; }
    if y' >= nblock { y' := y' - nblock; }
  }

  lemma Sizes(s: seq<int>, block: seq<int>, q: seq<int>)
    requires Extended(s, block) && Quadrants(s, q)
    ensures N_OVERSHOOT < |s| && |s| + N_OVERSHOOT <= |block| && |s| + N_OVERSHOOT <= |q|
  {
  }

  /** One letter and its quadrant. */
  method CompareOne(i: int, j: int, ghost m: nat, x: int, y: int, block: array<int>, quadrant: array<int>, ghost s: seq<int>) returns (v: Verdict)
    requires Extended(s, block[..]) && Quadrants(s, quadrant[..]) && 0 <= i && 0 <= j && Cmp(s, i, j, m) == 0
    requires Stands(|s|, i, m, x) && Stands(|s|, j, m, y)
    ensures Right(s, i, j, v) && (v == Open ==> Cmp(s, i, j, m + 1) == 0)
  {
    ghost var b, q := block[..], quadrant[..];
    Sizes(s, b, q);
    LetterThere(s, b, i, m, x);
    LetterThere(s, b, j, m, y);
    QuadrantThere(s, q, i, m, x);
    QuadrantThere(s, q, j, m, y);
    assert b[x] == block[x] && b[y] == block[y] && q[x] == quadrant[x] && q[y] == quadrant[y];
    OneMoreLetter(s, i, j, m);
    hide Extended, Cmp, Ch;
    var c1, c2 := block[x], block[y];
    if c1 != c2 { return if c1 > c2 then Greater else NotGreater; }
    QuadrantSays(s, q, i, j, m);
    var s1, s2 := quadrant[x], quadrant[y];
    if s1 != s2 { return if s1 > s2 then Greater else NotGreater; }
    return Open;
  }

  /** mainGtU: whether the rotation at i sorts after the one at j; equal rotations may go either way. The budget pays for every eight
      letters that agree, after the first N_QSORT. */
  method GtU(i: int, j: int, block: array<int>, quadrant: array<int>, nblock: int, budget0: int, ghost s: seq<int>) returns (r: bool, budget: int)
    requires nblock == |s| && Extended(s, block[..]) && Quadrants(s, quadrant[..]) && 0 <= i < |s| + MAX_DEPTH && 0 <= j < |s| + MAX_DEPTH
    ensures (r ==> Cmp(s, i, j, |s|) >= 0) && (!r ==> Cmp(s, i, j, |s|) <= 0)
    ensures budget <= budget0 && (budget == budget0 || Cmp(s, i, j, N_QSORT + 8 * (budget0 - budget)) == 0)
  {
    budget := budget0;
    hide *;
    Sizes(s, block[..], quadrant[..]);
    Lengths();
    var v := CompareLetters(i, j, block, s);
    Meaning(s, i, j, v);
    if v != Open { return v == Greater, budget; }
    var i1, i2, k, m := i + N_QSORT, j + N_QSORT, nblock + 8, N_QSORT;
    Reaches(s, block[..], i, N_QSORT);
    Reaches(s, block[..], j, N_QSORT);
    while true
      invariant 0 <= k <= nblock + 8 && m == N_QSORT + (nblock + 8 - k) == N_QSORT + 8 * (budget0 - budget) && budget <= budget0
      invariant Cmp(s, i, j, m) == 0 && Stands(|s|, i, m, i1) && Stands(|s|, j, m, i2) && i1 + 8 <= |s| + N_OVERSHOOT && i2 + 8 <= |s| + N_OVERSHOOT
      decreases k
    {
      v, i1, i2 := CompareEight(i, j, m, i1, i2, block, quadrant, nblock, s);
      Meaning(s, i, j, v);
      if v != Open { return v == Greater, budget; }
      m := m + 8;
      k := k - 8;
      budget := budget - 1;
      if k < 0 { break; }
    }
    AllAgree(s, i, j, m);
    return false, budget;
  }

  lemma Lengths()
    ensures N_QSORT == 12 && N_OVERSHOOT == 34 && MAX_DEPTH == 15 && PAID == 20
  {
  }

  lemma Meaning(s: seq<int>, i: nat, j: nat, v: Verdict)
    requires Right(s, i, j, v)
    ensures s != [] && (v == Greater ==> Cmp(s, i, j, |s|) >= 0) && (v == NotGreater ==> Cmp(s, i, j, |s|) <= 0)
  {
  }
}
