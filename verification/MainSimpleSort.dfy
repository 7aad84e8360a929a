/** mainSimpleSort of blocksort.c: a Shell sort of rotations that agree on their first d letters. */
module MainSimpleSort {
  import opened Common
  import opened Rotations
  import opened MainOrder
  import Q = FallbackQSort

  /** The rotations of [lo, hi] agree on their first d letters. */
  ghost predicate SameTo(s: seq<int>, f: seq<int>, lo: int, hi: int, d: int) {
    0 <= lo && hi < |f| && 0 <= d && s != [] && InRange(f, |s|)
    && forall x, y :: lo <= x <= hi && lo <= y <= hi ==> Cmp(s, f[x], f[y], d) == 0
  }

  lemma {:induction false} CmpMod(s: seq<int>, i: nat, j: nat, h: nat)
    requires s != []
    ensures Cmp(s, i % |s|, j % |s|, h) == Cmp(s, i, j, h)
  {
    if h > 0 {
      CmpMod(s, i, j, h - 1);
      ChShift(s, i, 0, h - 1);
      ChShift(s, j, 0, h - 1);
    }
  }

  /** What the first d letters agree on need not be compared. */
  lemma FromDepth(s: seq<int>, i: nat, j: nat, d: nat)
    requires s != [] && Cmp(s, i, j, d) == 0
    ensures Cmp(s, i + d, j + d, |s|) == Cmp(s, i, j, |s|)
  {
    CmpSplit(s, i, j, d, |s|);
    CmpBeyondPeriod(s, i, j, d + |s|);
    CmpMod(s, i + d, j + d, |s|);
  }

  /** Ranks turn the order of rotations into an order of numbers. */
  lemma RankOrder(s: seq<int>, e: seq<int>, i: int, j: int)
    requires s != [] && Ranks(s, e, |s|) && 0 <= i < |s| && 0 <= j < |s|
    ensures e[i] <= e[j] <==> Cmp(s, i, j, |s|) <= 0
    ensures e[i] >= e[j] <==> Cmp(s, i, j, |s|) >= 0
  {
    RanksEqual(s, e, |s|, i, j);
  }

  ghost predicate AllBelow(s: seq<int>, i: int, t: set<int>)
    requires 0 <= i < |s|
  {
    forall j :: j in t <==> 0 <= j < |s| && Cmp(s, j, i, |s|) < 0
  }

  function Smaller(s: seq<int>, i: int): (t: set<int>)
    requires 0 <= i < |s|
    ensures AllBelow(s, i, t)
  {
    set j | 0 <= j < |s| && Cmp(s, j, i, |s|) < 0
  }

  /** There are ranks: the number of smaller rotations. */
  lemma RanksExist(s: seq<int>) returns (e: seq<int>)
    requires s != []
    ensures Ranks(s, e, |s|)
  {
    e := seq(|s|, i requires 0 <= i < |s| => |Smaller(s, i)|);
    forall a, b | 0 <= a < |s| && 0 <= b < |s| ensures e[a] < e[b] <==> Cmp(s, a, b, |s|) < 0 {
      if Cmp(s, a, b, |s|) < 0 { SmallerGrows(s, a, b); } else { CmpAntisymmetric(s, a, b, |s|); SmallerSubset(s, b, a); }
    }
  }

  lemma SmallerSubset(s: seq<int>, a: int, b: int)
    requires 0 <= a < |s| && 0 <= b < |s| && Cmp(s, a, b, |s|) <= 0
    ensures Smaller(s, a) <= Smaller(s, b) && |Smaller(s, a)| <= |Smaller(s, b)|
  {
    forall j | j in Smaller(s, a) ensures j in Smaller(s, b) { CmpTransitive(s, j, a, b, |s|); }
    Cardinality(Smaller(s, a), Smaller(s, b));
  }

  lemma SmallerGrows(s: seq<int>, a: int, b: int)
    requires 0 <= a < |s| && 0 <= b < |s| && Cmp(s, a, b, |s|) < 0
    ensures |Smaller(s, a)| < |Smaller(s, b)|
  {
    SmallerSubset(s, a, b);
    CmpAntisymmetric(s, a, a, |s|);
    assert a in Smaller(s, b) && a !in Smaller(s, a);
    Cardinality(Smaller(s, a), Smaller(s, b) - {a});
  }

  lemma {:induction false} Cardinality(a: set<int>, b: set<int>)
    requires a <= b
    ensures |a| <= |b|
  {
    if x :| x in a {
      Cardinality(a - {x}, b - {x});
      assert a == a - {x} + {x} && b == b - {x} + {x};
    } else {
      assert forall x :: x !in a;
      assert a == {};
    }
  }

  // ---- insertion to the left ----

  /** The insertion loop: the entry being moved stands at h; all neighbours in [lo, i] not involving h are in order. */
  ghost predicate Sinking(f: seq<int>, e: seq<int>, lo: int, i: int, gap: int, h: int) {
    0 <= lo <= h <= i < |f| && gap > 0 && InRange(f, |e|)
    && (forall x, y :: lo <= x && y == x + gap && y <= i && x != h && y != h ==> e[f[x]] <= e[f[y]])
    && (h < i ==> h + gap <= i && e[f[h]] <= e[f[h + gap]])
    && (h < i && lo <= h - gap ==> e[f[h - gap]] <= e[f[h + gap]])
  }

  lemma SinkStart(f: seq<int>, e: seq<int>, lo: int, i: int, gap: int)
    requires 0 <= lo <= i < |f| && gap > 0 && InRange(f, |e|) && Q.GapSorted(f, e, lo, i - 1, gap)
    ensures Sinking(f, e, lo, i, gap, i) && Q.Rearranges(f, f, lo, i)
  {
  }

  lemma SinkStep(f: seq<int>, e: seq<int>, lo: int, i: int, gap: int, h: int, h': int)
    requires Sinking(f, e, lo, i, gap, h) && h' == h - gap >= lo && e[f[h']] >= e[f[h]]
    ensures Sinking(f[h := f[h']][h' := f[h]], e, lo, i, gap, h')
  {
    var g := f[h := f[h']][h' := f[h]];
    assert g[h] == f[h'] && g[h'] == f[h] && forall x :: 0 <= x < |f| && x != h && x != h' ==> g[x] == f[x];
    assert InRange(g, |e|);
    hide InRange;
    forall x, y | lo <= x && y == x + gap && y <= i && x != h' && y != h' ensures e[g[x]] <= e[g[y]] {
      if x == h { assert y == h + gap; }
    }
    if lo <= h' - gap { assert e[f[h' - gap]] <= e[f[h']]; }
  }

  lemma SinkDone(f: seq<int>, e: seq<int>, lo: int, i: int, gap: int, h: int)
    requires Sinking(f, e, lo, i, gap, h) && (lo <= h - gap ==> e[f[h - gap]] <= e[f[h]])
    ensures InRange(f, |e|) && Q.GapSorted(f, e, lo, i, gap)
  {
  }

  // ---- the sort ----

  /** The block, its overshoot, its quadrants and the ranks that say what sorted means. */
  ghost predicate Sources(s: seq<int>, e: seq<int>, block: seq<int>, quadrant: seq<int>) {
    Extended(s, block) && Quadrants(s, quadrant) && Ranks(s, e, |s|)
  }

  /** No two rotations agree on as many letters as one unit of the budget pays for. */
  ghost predicate Differing(s: seq<int>) {
    s != [] && forall a, b :: 0 <= a < |s| && 0 <= b < |s| && a != b ==> Cmp(s, a, b, PAID) != 0
  }

  /** The budget is spent on such rotations only. */
  ghost predicate Frugal(s: seq<int>, p: seq<int>, budget0: int, budget: int) {
    budget <= budget0 && (Distinct(p) && Differing(s) ==> budget == budget0)
  }

  lemma FrugalStart(s: seq<int>, p: seq<int>, budget: int)
    ensures Frugal(s, p, budget, budget)
  {
  }

  /** Rearranging does not matter. */
  lemma FrugalNext(s: seq<int>, was: seq<int>, p: seq<int>, lo: int, hi: int, b0: int, b1: int, b2: int)
    requires Frugal(s, was, b0, b1) && Frugal(s, p, b1, b2) && Q.Rearranges(was, p, lo, hi)
    ensures Frugal(s, was, b0, b2)
  {
    if Distinct(was) { StillDistinct(was, p); }
    hide Differing, Distinct;
  }

  lemma StillDistinct(p: seq<int>, q: seq<int>)
    requires Distinct(p) && multiset(p) == multiset(q)
    ensures Distinct(q)
  {
    forall i, j | 0 <= i < j < |q| ensures q[i] != q[j] {
      if q[i] == q[j] { CountTwice(q, i, j); CountOnce(p, q[i]); }
    }
  }

  /** Agreement from depth d on, on top of that up to d. */
  lemma AgreeFromDepth(s: seq<int>, a: nat, v: nat, d: nat, h: nat)
    requires s != [] && a < |s| && v < |s| && Cmp(s, a, v, d) == 0 && Cmp(s, a + d, v + d, h) == 0 && h >= PAID
    ensures Cmp(s, a, v, PAID) == 0
  {
    CmpSplit(s, a, v, d, h);
    CmpMod(s, a + d, v + d, h);
    if Cmp(s, a, v, PAID) != 0 { CmpPrefix(s, a, v, PAID, d + h); }
  }

  /** mainGtU on two rotations that agree on d letters. */
  method Sorts(a: int, v: int, d: int, block: array<int>, quadrant: array<int>, nblock: int, budget0: int, ghost s: seq<int>, ghost e: seq<int>)
    returns (r: bool, budget: int)
    requires nblock == |s| && Sources(s, e, block[..], quadrant[..]) && 0 <= a < |s| && 0 <= v < |s| && 0 <= d <= MAX_DEPTH && Cmp(s, a, v, d) == 0
    ensures (r ==> e[a] >= e[v]) && (!r ==> e[a] <= e[v]) && budget <= budget0 && (budget == budget0 || Cmp(s, a, v, PAID) == 0)
  {
    hide *;
    SourcesAre(s, e, block[..], quadrant[..]);
    Lengths();
    r, budget := GtU(a + d, v + d, block, quadrant, nblock, budget0, s);
    if budget < budget0 { AgreeFromDepth(s, a, v, d, N_QSORT + 8 * (budget0 - budget)); }
    FromDepth(s, a, v, d);
    RankOrder(s, e, a, v);
  }

  lemma SourcesAre(s: seq<int>, e: seq<int>, block: seq<int>, quadrant: seq<int>)
    requires Sources(s, e, block, quadrant)
    ensures s != [] && |e| == |s| && Extended(s, block) && Quadrants(s, quadrant) && Ranks(s, e, |s|)
  {
  }

  /** p is f but for the hole k, where f has the entry that is being moved. */
  ghost predicate Hole(was: seq<int>, p: seq<int>, f: seq<int>, e: seq<int>, lo: int, i: int, h: int, k: int, v: int) {
    Q.Rearranges(was, f, lo, i) && Sinking(f, e, lo, i, h, k) && |p| == |f| && f[k] == v && p == f[k := p[k]]
  }

  lemma HoleStart(was: seq<int>, e: seq<int>, lo: int, i: int, h: int)
    requires 0 <= lo <= i < |was| && h > 0 && InRange(was, |e|) && Q.GapSorted(was, e, lo, i - 1, h)
    ensures Hole(was, was, was, e, lo, i, h, i, was[i])
  {
    SinkStart(was, e, lo, i, h);
  }

  lemma HoleStep(was: seq<int>, p: seq<int>, f: seq<int>, e: seq<int>, lo: int, i: int, h: int, k: int, v: int) returns (f': seq<int>)
    requires Hole(was, p, f, e, lo, i, h, k, v) && InRange(f, |e|) && lo <= k - h && 0 <= v < |e| && e[f[k - h]] >= e[v]
    ensures 0 <= k < |p| && Hole(was, p[k := p[k - h]], f', e, lo, i, h, k - h, v)
  {
    var j := k - h;
    f' := f[k := f[j]][j := f[k]];
    SinkStep(f, e, lo, i, h, k, j);
    hide Sinking, InRange;
    Q.SwapInside(was, f, lo, i, j, k);
    hide Q.Rearranges;
    Q.HoleMoves(f, p, k, j);
    assert f' == f[j := f[k]][k := f[j]];
  }

  lemma HoleAt(was: seq<int>, p: seq<int>, f: seq<int>, e: seq<int>, lo: int, i: int, h: int, k: int, v: int)
    requires Hole(was, p, f, e, lo, i, h, k, v) && lo <= k - h
    ensures 0 <= k - h < |p| && p[k - h] == f[k - h] && Q.Rearranges(was, f, lo, i) && InRange(f, |e|) && k <= i && f[k] == v
  {
  }

  /** The entry h below the hole, if there is one, does not exceed the entry to be placed. */
  ghost predicate Placeable(f: seq<int>, e: seq<int>, lo: int, h: int, k: int, v: int) {
    InRange(f, |e|) && 0 <= v < |e| && (lo <= k - h ==> 0 <= k - h < |f| && e[f[k - h]] <= e[v])
  }

  lemma AtBottom(was: seq<int>, p: seq<int>, f: seq<int>, e: seq<int>, lo: int, i: int, h: int, k: int, v: int)
    requires Hole(was, p, f, e, lo, i, h, k, v) && k - h < lo
    ensures Placeable(f, e, lo, h, k, v)
  {
    HoleRange(was, p, f, e, lo, i, h, k, v);
  }

  lemma NotLarger(f: seq<int>, e: seq<int>, lo: int, h: int, k: int, v: int)
    requires InRange(f, |e|) && 0 <= v < |e| && 0 <= k - h < |f| && e[f[k - h]] <= e[v]
    ensures Placeable(f, e, lo, h, k, v)
  {
  }

  lemma HoleFilled(was: seq<int>, p: seq<int>, f: seq<int>, e: seq<int>, lo: int, i: int, h: int, k: int, v: int)
    requires Hole(was, p, f, e, lo, i, h, k, v) && Placeable(f, e, lo, h, k, v)
    ensures 0 <= k < |p| && p[k := v] == f && Q.Rearranges(was, f, lo, i) && Q.GapSorted(f, e, lo, i, h)
  {
    SinkDone(f, e, lo, i, h, k);
  }

  lemma HoleRange(was: seq<int>, p: seq<int>, f: seq<int>, e: seq<int>, lo: int, i: int, h: int, k: int, v: int)
    requires Hole(was, p, f, e, lo, i, h, k, v)
    ensures |f| == |p| && InRange(f, |e|) && 0 <= k < |f| && f[k] == v && 0 <= v < |e|
  {
  }

  lemma SameRange(s: seq<int>, f: seq<int>, lo: int, hi: int, d: int)
    requires SameTo(s, f, lo, hi, d)
    ensures InRange(f, |s|)
  {
  }

  lemma FrugalOnce(s: seq<int>, was: seq<int>, f: seq<int>, lo: int, hi: int, x: int, y: int, budget0: int, budget: int)
    requires Q.Rearranges(was, f, lo, hi) && 0 <= x < y < |f| && 0 <= f[x] < |s| && 0 <= f[y] < |s|
    requires budget <= budget0 && (budget == budget0 || Cmp(s, f[x], f[y], PAID) == 0)
    ensures Frugal(s, was, budget0, budget)
  {
    if Distinct(was) { StillDistinct(was, f); }
    hide Cmp;
  }

  /** One comparison of the insertion loop, and the move if it asks for one. */
  method SinkOnce(ptr: array<int>, block: array<int>, quadrant: array<int>, nblock: int, lo: int, h: int, d: int, v: int, j: int, budget0: int,
                  ghost was: seq<int>, ghost f0: seq<int>, ghost i: int, ghost s: seq<int>, ghost e: seq<int>)
    returns (more: bool, budget: int, ghost f: seq<int>)
    requires ptr != block && ptr != quadrant && nblock == |s| && Sources(s, e, block[..], quadrant[..]) && 0 <= d <= MAX_DEPTH && |e| == |s|
    requires 0 <= lo && h > 0 && lo + h <= j <= i && SameTo(s, was, lo, i, d) && Hole(was, ptr[..], f0, e, lo, i, h, j, v)
    modifies ptr
    ensures Frugal(s, was, budget0, budget)
    ensures more ==> Hole(was, ptr[..], f, e, lo, i, h, j - h, v)
    ensures !more ==> f == f0 && ptr[..] == old(ptr[..]) && Placeable(f, e, lo, h, j, v)
  {
    f := f0;
    ghost var p := ptr[..];
    hide *;
    HoleAt(was, p, f, e, lo, i, h, j, v);
    HoleRange(was, p, f, e, lo, i, h, j, v);
    Alike(s, was, f, lo, i, d, j - h, j);
    more, budget := Sorts(ptr[j - h], v, d, block, quadrant, nblock, budget0, s, e);
    FrugalOnce(s, was, f, lo, i, j - h, j, budget0, budget);
    if more {
      f := HoleStep(was, p, f, e, lo, i, h, j, v);
      ptr[j] := ptr[j - h];
    } else {
      NotLarger(f, e, lo, h, j, v);
    }
  }

  /** Moves ptr[i] down to its place among the entries h, 2h, ... below it. */
  method InsertDown(ptr: array<int>, block: array<int>, quadrant: array<int>, nblock: int, lo: int, i: int, h: int, d: int, budget0: int,
                    ghost s: seq<int>, ghost e: seq<int>) returns (budget: int)
    requires ptr != block && ptr != quadrant && nblock == |s| && Sources(s, e, block[..], quadrant[..]) && 0 <= d <= MAX_DEPTH
    requires 0 <= lo && h > 0 && lo + h <= i < ptr.Length && SameTo(s, ptr[..], lo, i, d) && |e| == |s| && Q.GapSorted(ptr[..], e, lo, i - 1, h)
    modifies ptr
    ensures Q.Rearranges(old(ptr[..]), ptr[..], lo, i) && InRange(ptr[..], |e|) && Q.GapSorted(ptr[..], e, lo, i, h)
    ensures Frugal(s, old(ptr[..]), budget0, budget)
  {
    ghost var was := ptr[..];
    hide *;
    SameRange(s, was, lo, i, d);
    HoleStart(was, e, lo, i, h);
    var v, j := ptr[i], i;
    ghost var f;
    budget, j, f := SinkHole(ptr, block, quadrant, nblock, lo, h, d, v, i, budget0, was, s, e);
    FillHole(ptr, lo, i, h, j, v, was, f, e);
  }

  /** Moves the hole left at i down until v may be placed; f is ptr with v written into the hole j. */
  method SinkHole(ptr: array<int>, block: array<int>, quadrant: array<int>, nblock: int, lo: int, h: int, d: int, v: int, i: int, budget0: int,
                  ghost was: seq<int>, ghost s: seq<int>, ghost e: seq<int>)
    returns (budget: int, j: int, ghost f: seq<int>)
    requires ptr != block && ptr != quadrant && nblock == |s| && Sources(s, e, block[..], quadrant[..]) && 0 <= d <= MAX_DEPTH && |e| == |s|
    requires 0 <= lo && h > 0 && lo + h <= i && SameTo(s, was, lo, i, d) && Hole(was, ptr[..], was, e, lo, i, h, i, v)
    modifies ptr
    ensures Frugal(s, was, budget0, budget) && Hole(was, ptr[..], f, e, lo, i, h, j, v) && Placeable(f, e, lo, h, j, v)
  {
    hide *;
    budget, j, f := budget0, i, was;
    FrugalStart(s, was, budget0);
    while true
      invariant lo + h <= j <= i && Frugal(s, was, budget0, budget) && Hole(was, ptr[..], f, e, lo, i, h, j, v)
      decreases j
    {
      var more;
      ghost var b := budget;
      more, budget, f := SinkOnce(ptr, block, quadrant, nblock, lo, h, d, v, j, budget, was, f, i, s, e);
      FrugalMore(s, was, budget0, b, budget);
      if !more { break; }
      j := j - h;
      if j <= lo + h - 1 {
        AtBottom(was, ptr[..], f, e, lo, i, h, j, v);
        break;
      }
    }
  }

  lemma FrugalMore(s: seq<int>, was: seq<int>, b0: int, b1: int, b2: int)
    requires Frugal(s, was, b0, b1) && Frugal(s, was, b1, b2)
    ensures Frugal(s, was, b0, b2)
  {
  }

  /** Writes the moved entry into the hole it has reached. */
  method FillHole(ptr: array<int>, ghost lo: int, ghost i: int, ghost h: int, j: int, v: int, ghost was: seq<int>, ghost f: seq<int>, ghost e: seq<int>)
    requires Hole(was, ptr[..], f, e, lo, i, h, j, v) && Placeable(f, e, lo, h, j, v)
    modifies ptr
    ensures ptr[..] == f && Q.Rearranges(was, ptr[..], lo, i) && InRange(ptr[..], |e|) && Q.GapSorted(ptr[..], e, lo, i, h)
  {
    hide *;
    HoleRange(was, ptr[..], f, e, lo, i, h, j, v);
    HoleFilled(was, ptr[..], f, e, lo, i, h, j, v);
    ptr[j] := v;
    assert ptr[..] == f;
  }

  /** Entries of a rearranged range still agree on d letters. */
  lemma Alike(s: seq<int>, was: seq<int>, f: seq<int>, lo: int, hi: int, d: int, x: int, y: int)
    requires SameTo(s, was, lo, hi, d) && Q.Rearranges(was, f, lo, hi) && lo <= x <= hi && lo <= y <= hi
    ensures 0 <= f[x] < |s| && 0 <= f[y] < |s| && Cmp(s, f[x], f[y], d) == 0
  {
    Q.FromRange(was, f, lo, hi, x);
    Q.FromRange(was, f, lo, hi, y);
    var u :| lo <= u <= hi && was[u] == f[x];
    var w :| lo <= w <= hi && was[w] == f[y];
    assert Cmp(s, was[u], was[w], d) == 0;
  }

  lemma SameKept(s: seq<int>, was: seq<int>, f: seq<int>, lo: int, hi: int, d: int)
    requires SameTo(s, was, lo, hi, d) && Q.Rearranges(was, f, lo, hi)
    ensures SameTo(s, f, lo, hi, d)
  {
    Q.RearrangesRange(was, f, |s|);
    forall x, y | lo <= x <= hi && lo <= y <= hi ensures Cmp(s, f[x], f[y], d) == 0 { Alike(s, was, f, lo, hi, d, x, y); }
  }

  lemma SamePart(s: seq<int>, f: seq<int>, lo: int, hi: int, d: int, lo': int, hi': int)
    requires SameTo(s, f, lo, hi, d) && lo <= lo' && hi' <= hi
    ensures SameTo(s, f, lo', hi', d)
  {
  }

  /** incs: Knuth's increments. */
  function Inc(hp: nat): (h: nat)
    ensures h > 0 && (hp == 0 ==> h == 1)
  {
    if hp == 0 then 1 else 3 * Inc(hp - 1) + 1
  }

  lemma IncLarge()
    ensures Inc(13) == 2391484
  {
    assert Inc(4) == 121;
    assert Inc(8) == 9841;
    assert Inc(12) == 797161;
  }

  /** One entry of a pass. */
  method PassStep(ptr: array<int>, block: array<int>, quadrant: array<int>, nblock: int, lo: int, hi: int, i: int, h: int, d: int, budget0: int,
                  ghost was: seq<int>, ghost s: seq<int>, ghost e: seq<int>) returns (budget: int)
    requires ptr != block && ptr != quadrant && nblock == |s| && Sources(s, e, block[..], quadrant[..]) && 0 <= d <= MAX_DEPTH
    requires 0 <= lo && h > 0 && lo + h <= i <= hi < ptr.Length && SameTo(s, ptr[..], lo, hi, d) && |e| == |s|
    requires Q.Rearranges(was, ptr[..], lo, hi) && Q.GapSorted(ptr[..], e, lo, i - 1, h)
    modifies ptr
    ensures Q.Rearranges(was, ptr[..], lo, hi) && SameTo(s, ptr[..], lo, hi, d) && InRange(ptr[..], |e|) && Q.GapSorted(ptr[..], e, lo, i, h)
    ensures Frugal(s, was, budget0, budget)
  {
    ghost var p := ptr[..];
    SamePart(s, p, lo, hi, d, lo, i);
    hide Q.GapSorted, Sources, Cmp, Frugal;
    budget := InsertDown(ptr, block, quadrant, nblock, lo, i, h, d, budget0, s, e);
    Q.InPlace(p, lo, hi);
    Q.RearrangesTwice(p, p, ptr[..], lo, hi, lo, i);
    SameKept(s, p, ptr[..], lo, hi, d);
    Q.RearrangesTwice(was, p, ptr[..], lo, hi, lo, hi);
    FrugalStart(s, was, budget0);
    FrugalNext(s, was, p, lo, hi, budget0, budget0, budget);
  }

  /** One pass with stride h; it stops early only when the budget is gone. The source writes its body out three times and looks at the budget once. */
  method Pass(ptr: array<int>, block: array<int>, quadrant: array<int>, nblock: int, lo: int, hi: int, h: int, d: int, budget0: int,
              ghost was: seq<int>, ghost s: seq<int>, ghost e: seq<int>) returns (budget: int)
    requires ptr != block && ptr != quadrant && nblock == |s| && Sources(s, e, block[..], quadrant[..]) && 0 <= d <= MAX_DEPTH
    requires 0 <= lo <= hi < ptr.Length && h > 0 && SameTo(s, ptr[..], lo, hi, d) && |e| == |s| && Q.Rearranges(was, ptr[..], lo, hi)
    modifies ptr
    ensures Q.Rearranges(was, ptr[..], lo, hi) && SameTo(s, ptr[..], lo, hi, d) && InRange(ptr[..], |e|)
    ensures Frugal(s, was, budget0, budget) && (budget < 0 || Q.GapSorted(ptr[..], e, lo, hi, h))
  {
    budget := budget0;
    FrugalStart(s, was, budget0);
    var i, copy := lo + h, 1;
    GapNone(ptr[..], e, lo, h);
    GapBeyond(ptr[..], e, lo, hi, h);
    hide Q.Rearranges, Q.GapSorted, SameTo, Sources, InRange, Frugal;
    while i <= hi
      invariant lo + h <= i && Frugal(s, was, budget0, budget) && 1 <= copy <= 3
      invariant Q.Rearranges(was, ptr[..], lo, hi) && SameTo(s, ptr[..], lo, hi, d) && InRange(ptr[..], |e|)
      invariant i <= hi + 1 ==> Q.GapSorted(ptr[..], e, lo, i - 1, h)
      invariant i > hi + 1 ==> Q.GapSorted(ptr[..], e, lo, hi, h)
    {
      ghost var b := budget;
      budget := PassStep(ptr, block, quadrant, nblock, lo, hi, i, h, d, budget, was, s, e);
      FrugalMore(s, was, budget0, b, budget);
      i := i + 1;
      if copy == 3 {
        if budget < 0 { return; }
        copy := 1;
      } else {
        copy := copy + 1;
      }
    }
  }

  lemma GapNone(p: seq<int>, e: seq<int>, lo: int, h: int)
    requires 0 <= lo && h > 0 && InRange(p, |e|)
    ensures lo + h - 1 < |p| ==> Q.GapSorted(p, e, lo, lo + h - 1, h)
  {
  }

  lemma GapBeyond(p: seq<int>, e: seq<int>, lo: int, hi: int, h: int)
    requires 0 <= lo && h > 0 && InRange(p, |e|) && hi < |p|
    ensures lo + h > hi ==> Q.GapSorted(p, e, lo, hi, h)
  {
  }

  /** mainSimpleSort: sorts the range, unless the budget runs out; it is spent on rotations that agree for long only. */
  method SimpleSort(ptr: array<int>, block: array<int>, quadrant: array<int>, nblock: int, lo: int, hi: int, d: int, budget0: int,
                    ghost s: seq<int>, ghost e: seq<int>) returns (budget: int)
    requires ptr != block && ptr != quadrant && nblock == |s| && Sources(s, e, block[..], quadrant[..]) && 0 <= d <= MAX_DEPTH && |e| == |s|
    requires 0 <= lo <= hi + 1 <= ptr.Length <= MAX_BLOCK && SameTo(s, ptr[..], lo, hi, d)
    modifies ptr
    ensures Q.Rearranges(old(ptr[..]), ptr[..], lo, hi) && InRange(ptr[..], |e|) && Frugal(s, old(ptr[..]), budget0, budget)
    ensures budget < 0 || Q.SortedByKey(ptr[..], e, lo, hi)
  {
    budget := budget0;
    FrugalStart(s, ptr[..], budget0);
    var bigN := hi - lo + 1;
    ghost var was := ptr[..];
    Q.InPlace(was, lo, hi);
    if bigN < 2 { return; }
    var hp := 0;
    IncLarge();
    hide Inc;
    while Inc(hp) < bigN
      invariant 0 <= hp <= 13
      decreases 13 - hp
    {
      hp := hp + 1;
    }
    hp := hp - 1;
    hide Q.Rearranges, SameTo, Sources, Q.GapSorted, Q.SortedByKey, Frugal;
    while hp >= 0
      invariant -1 <= hp && Frugal(s, was, budget0, budget)
      invariant Q.Rearranges(was, ptr[..], lo, hi) && SameTo(s, ptr[..], lo, hi, d) && InRange(ptr[..], |e|)
      invariant hp == -1 ==> Q.GapSorted(ptr[..], e, lo, hi, 1)
    {
      ghost var b := budget;
      budget := Pass(ptr, block, quadrant, nblock, lo, hi, Inc(hp), d, budget, was, s, e);
      FrugalMore(s, was, budget0, b, budget);
      if budget < 0 { return; }
      hp := hp - 1;
    }
    Q.AdjacentSorted(ptr[..], e, lo, hi);
  }
}
