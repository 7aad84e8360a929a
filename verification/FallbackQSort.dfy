/** The key sorts of blocksort.c: a gapped insertion sort and a three-way quicksort with an explicit stack.
    Both sort fmap[lo..hi] (inclusive bounds, as in the source) by the key eclass[fmap[x]]. */
module FallbackQSort {
  import opened Common

  const SMALL_THRESH := 10
  const STACK_SIZE := 100

  ghost predicate SortedByKey(f: seq<int>, e: seq<int>, lo: int, hi: int)
    requires 0 <= lo && hi < |f| && InRange(f, |e|)
  {
    forall x, y :: lo <= x <= y <= hi ==> e[f[x]] <= e[f[y]]
  }

  /** g is f with the entries of [lo, hi] rearranged. */
  ghost predicate Rearranges(f: seq<int>, g: seq<int>, lo: int, hi: int) {
    0 <= lo && hi < |f| && |g| == |f| && multiset(f) == multiset(g)
    && forall x :: 0 <= x < |f| && (x < lo || hi < x) ==> f[x] == g[x]
  }

  lemma RearrangesRange(f: seq<int>, g: seq<int>, n: int)
    requires InRange(f, n) && multiset(f) == multiset(g)
    ensures InRange(g, n)
  {
    forall x | 0 <= x < |g| ensures 0 <= g[x] < n { assert g[x] in multiset(f); }
  }

  lemma SwapRearranges(f: seq<int>, i: int, j: int)
    requires 0 <= i < |f| && 0 <= j < |f|
    ensures multiset(f[i := f[j]][j := f[i]]) == multiset(f)
  {
  }

  lemma SameMiddle(a: multiset<int>, b: multiset<int>, b': multiset<int>, c: multiset<int>)
    requires a + b + c == a + b' + c
    ensures b == b'
  {
    forall v: int ensures b[v] == b'[v] { assert (a + b + c)[v] == (a + b' + c)[v]; }
  }

  /** Rearranging twice, each time inside [lo, hi]. */
  lemma RearrangesTwice(f: seq<int>, g: seq<int>, h: seq<int>, lo: int, hi: int, lo': int, hi': int)
    requires Rearranges(f, g, lo, hi) && Rearranges(g, h, lo', hi') && lo <= lo' && hi' <= hi
    ensures Rearranges(f, h, lo, hi)
  {
  }

  /** Whatever a rearranged range holds, it held before. */
  lemma FromRange(f: seq<int>, g: seq<int>, lo: int, hi: int, y: int)
    requires Rearranges(f, g, lo, hi) && lo <= y <= hi
    ensures exists x :: lo <= x <= hi && f[x] == g[y]
  {
    assert f == f[..lo] + f[lo..hi + 1] + f[hi + 1..];
    assert g == g[..lo] + g[lo..hi + 1] + g[hi + 1..];
    assert f[..lo] == g[..lo] && f[hi + 1..] == g[hi + 1..];
    SameMiddle(multiset(f[..lo]), multiset(f[lo..hi + 1]), multiset(g[lo..hi + 1]), multiset(f[hi + 1..]));
    assert g[y] == g[lo..hi + 1][y - lo];
    assert g[y] in multiset(f[lo..hi + 1]);
    var k :| 0 <= k < hi + 1 - lo && f[lo..hi + 1][k] == g[y];
    assert f[lo + k] == g[y];
  }

  ghost predicate GapSorted(f: seq<int>, e: seq<int>, i: int, hi: int, gap: int)
    requires 0 <= i && hi < |f| && gap > 0 && InRange(f, |e|)
  {
    forall x, y :: i <= x && y == x + gap && y <= hi ==> e[f[x]] <= e[f[y]]
  }

  /** The insertion loop: the entry being moved stands at h; all neighbours not involving h are in order. */
  ghost predicate Sifting(f: seq<int>, e: seq<int>, i: int, hi: int, gap: int, h: int) {
    0 <= i <= h <= hi < |f| && gap > 0 && InRange(f, |e|)
    && (forall x, y :: i <= x && y == x + gap && y <= hi && x != h && y != h ==> e[f[x]] <= e[f[y]])
    && (h > i ==> i <= h - gap && e[f[h - gap]] < e[f[h]])
    && (h > i && h + gap <= hi ==> e[f[h - gap]] <= e[f[h + gap]])
  }

  lemma SiftStep(f: seq<int>, e: seq<int>, i: int, hi: int, gap: int, h: int, h': int)
    requires Sifting(f, e, i, hi, gap, h) && h' == h + gap <= hi && e[f[h]] > e[f[h']]
    ensures Sifting(f[h := f[h']][h' := f[h]], e, i, hi, gap, h')
  {
    var g := f[h := f[h']][h' := f[h]];
    assert g[h] == f[h'] && g[h'] == f[h] && forall x :: 0 <= x < |f| && x != h && x != h' ==> g[x] == f[x];
    assert InRange(g, |e|);
    hide InRange;
    forall x, y | i <= x && y == x + gap && y <= hi && x != h' && y != h' ensures e[g[x]] <= e[g[y]] {
      if y == h { assert x == h - gap; }
    }
    if h' + gap <= hi { assert e[f[h']] <= e[f[h' + gap]]; }
  }

  lemma SiftStart(f: seq<int>, e: seq<int>, i: int, hi: int, gap: int)
    requires 0 <= i <= hi < |f| && gap > 0 && InRange(f, |e|) && GapSorted(f, e, i + 1, hi, gap)
    ensures Sifting(f, e, i, hi, gap, i) && Rearranges(f, f, i, hi)
  {
  }

  lemma SiftDone(f: seq<int>, e: seq<int>, i: int, hi: int, gap: int, h: int)
    requires Sifting(f, e, i, hi, gap, h) && (h + gap <= hi ==> e[f[h]] <= e[f[h + gap]])
    ensures InRange(f, |e|) && GapSorted(f, e, i, hi, gap)
  {
  }

  lemma SwapInside(f: seq<int>, g: seq<int>, lo: int, hi: int, i: int, j: int)
    requires 0 <= lo <= i <= j <= hi < |g| && Rearranges(f, g, lo, hi)
    ensures Rearranges(f, g[i := g[j]][j := g[i]], lo, hi)
  {
  }

  /** Moves fmap[i] up to its place in the stride-sorted run above it. */
  method Insert(fmap: array<int>, eclass: array<int>, i: int, hi: int, gap: int)
    requires fmap != eclass && 0 <= i && gap > 0 && i + gap <= hi < fmap.Length
    requires InRange(fmap[..], eclass.Length)
    requires GapSorted(fmap[..], eclass[..], i + 1, hi, gap)
    modifies fmap
    ensures Rearranges(old(fmap[..]), fmap[..], i, hi) && InRange(fmap[..], eclass.Length)
    ensures GapSorted(fmap[..], eclass[..], i, hi, gap)
    ensures AllSame(eclass[..]) ==> fmap[..] == old(fmap[..])
  {
    hide *;
    ghost var was, e := fmap[..], eclass[..];
    RangeAt(was, |e|, i);
    var tmp := fmap[i];
    var ecTmp := eclass[tmp];
    var j := i + gap;
    ghost var f, h := was, i; // f is fmap with tmp written into the hole h
    RisingStart(was, e, i, hi, gap);
    var more := true;
    while more
      invariant i <= h <= hi && j == h + gap && eclass[..] == e && Rising(was, fmap[..], f, e, i, hi, gap, h, tmp)
      invariant !more ==> Settles(f, e, hi, h, gap, tmp)
      invariant AllSame(e) ==> h == i && f == was
      decreases hi - h, more
    {
      more, f := SiftOnce(fmap, eclass, i, hi, gap, tmp, ecTmp, j, was, f, h);
      if more { h, j := j, j + gap; }
    }
    RisingDone(was, fmap[..], f, e, i, hi, gap, h, tmp);
    fmap[j - gap] := tmp;
    assert fmap[..] == f;
  }

  /** p is f but for the hole h, where f has the entry that is being moved. */
  ghost predicate Rising(was: seq<int>, p: seq<int>, f: seq<int>, e: seq<int>, i: int, hi: int, gap: int, h: int, v: int) {
    Rearranges(was, f, i, hi) && Sifting(f, e, i, hi, gap, h) && |p| == |f| && f[h] == v && p == f[h := p[h]]
  }

  /** The entry above the hole, if there is one, is no smaller than the entry to be placed. */
  ghost predicate Settles(f: seq<int>, e: seq<int>, hi: int, h: int, gap: int, v: int) {
    hi < |f| && InRange(f, |e|) && 0 <= v < |e| && (0 <= h + gap <= hi ==> e[v] <= e[f[h + gap]])
  }

  lemma RangeAt(f: seq<int>, n: int, x: int)
    requires InRange(f, n) && 0 <= x < |f|
    ensures 0 <= f[x] < n
  {
  }

  lemma RisingStart(was: seq<int>, e: seq<int>, i: int, hi: int, gap: int)
    requires 0 <= i <= hi < |was| && gap > 0 && InRange(was, |e|) && GapSorted(was, e, i + 1, hi, gap)
    ensures Rising(was, was, was, e, i, hi, gap, i, was[i])
  {
    SiftStart(was, e, i, hi, gap);
  }

  lemma RisingFacts(was: seq<int>, p: seq<int>, f: seq<int>, e: seq<int>, i: int, hi: int, gap: int, h: int, v: int)
    requires Rising(was, p, f, e, i, hi, gap, h, v)
    ensures |p| == |f| && InRange(f, |e|) && 0 <= i <= h <= hi < |f| && gap > 0 && f[h] == v && 0 <= v < |e|
    ensures h + gap <= hi ==> p[h + gap] == f[h + gap] && 0 <= f[h + gap] < |e|
  {
  }

  lemma RisingStep(was: seq<int>, p: seq<int>, f: seq<int>, e: seq<int>, i: int, hi: int, gap: int, h: int, v: int) returns (f': seq<int>)
    requires Rising(was, p, f, e, i, hi, gap, h, v) && InRange(f, |e|) && 0 <= v < |e| && 0 <= h && gap > 0 && h + gap <= hi < |f| && e[v] > e[f[h + gap]]
    ensures 0 <= h < |p| && h + gap < |p| && Rising(was, p[h := p[h + gap]], f', e, i, hi, gap, h + gap, v)
  {
    var j := h + gap;
    f' := f[h := f[j]][j := f[h]];
    SiftStep(f, e, i, hi, gap, h, j);
    hide Sifting, InRange;
    SwapInside(was, f, i, hi, h, j);
    hide Rearranges;
    HoleMoves(f, p, h, j);
  }

  lemma RisingDone(was: seq<int>, p: seq<int>, f: seq<int>, e: seq<int>, i: int, hi: int, gap: int, h: int, v: int)
    requires Rising(was, p, f, e, i, hi, gap, h, v) && Settles(f, e, hi, h, gap, v)
    ensures 0 <= h < |p| && p[h := v] == f && Rearranges(was, f, i, hi) && InRange(f, |e|) && 0 <= i && hi < |f| && gap > 0 && GapSorted(f, e, i, hi, gap)
  {
    SiftDone(f, e, i, hi, gap, h);
  }

  lemma SettlesIf(f: seq<int>, e: seq<int>, hi: int, h: int, gap: int, v: int)
    requires hi < |f| && InRange(f, |e|) && 0 <= v < |e| && 0 <= h && gap > 0 && (h + gap <= hi ==> 0 <= f[h + gap] < |e| && e[v] <= e[f[h + gap]])
    ensures Settles(f, e, hi, h, gap, v)
  {
  }

  /** One comparison of the insertion loop, and the move if it asks for one. */
  method SiftOnce(fmap: array<int>, eclass: array<int>, ghost i: int, hi: int, gap: int, tmp: int, ecTmp: int, j: int,
                  ghost was: seq<int>, ghost f0: seq<int>, ghost h: int) returns (more: bool, ghost f: seq<int>)
    requires fmap != eclass && 0 <= tmp < eclass.Length && ecTmp == eclass[tmp] && j == h + gap
    requires Rising(was, fmap[..], f0, eclass[..], i, hi, gap, h, tmp)
    modifies fmap
    ensures if more then j <= hi && Rising(was, fmap[..], f, eclass[..], i, hi, gap, j, tmp)
            else fmap[..] == old(fmap[..]) && f == f0 && Settles(f, eclass[..], hi, h, gap, tmp)
    ensures AllSame(eclass[..]) ==> !more
  {
    hide *;
    f := f0;
    ghost var p, e := fmap[..], eclass[..];
    RisingFacts(was, p, f, e, i, hi, gap, h, tmp);
    more := false;
    if j <= hi {
      assert fmap[j] == p[j];
      SameKeys(e, tmp, p[j]);
      more := ecTmp > eclass[fmap[j]];
    }
    if more {
      f := RisingStep(was, p, f, e, i, hi, gap, h, tmp);
      fmap[j - gap] := fmap[j];
    } else {
      SettlesIf(f, e, hi, h, gap, tmp);
    }
  }

  lemma SameKeys(e: seq<int>, x: int, y: int)
    requires 0 <= x < |e| && 0 <= y < |e|
    ensures AllSame(e) ==> e[x] == e[y]
  {
  }

  lemma HoleMoves(f: seq<int>, g: seq<int>, h: int, j: int)
    requires 0 <= h < |f| == |g| && 0 <= j < |f| && h != j && g == f[h := g[h]]
    ensures g[h := g[j]] == f[h := f[j]][j := f[h]][j := g[j]]
  {
  }

  /** One pass of fallbackSimpleSort with the given stride (the source runs it with 4, then 1). */
  method InsertionPass(fmap: array<int>, eclass: array<int>, lo: int, hi: int, gap: int)
    requires fmap != eclass && 0 <= lo <= hi + 1 <= fmap.Length && gap > 0
    requires InRange(fmap[..], eclass.Length)
    modifies fmap
    ensures Rearranges(old(fmap[..]), fmap[..], lo, hi) && InRange(fmap[..], eclass.Length)
    ensures GapSorted(fmap[..], eclass[..], lo, hi, gap)
    ensures AllSame(eclass[..]) ==> fmap[..] == old(fmap[..])
  {
    hide AllSame;
    ghost var was := fmap[..];
    var i := hi - gap;
    while i >= lo
      invariant lo - 1 <= i <= hi - gap || i == hi - gap
      invariant Rearranges(was, fmap[..], lo, hi) && InRange(fmap[..], eclass.Length)
      invariant GapSorted(fmap[..], eclass[..], if i < lo then lo else i + 1, hi, gap)
      invariant AllSame(eclass[..]) ==> fmap[..] == was
    {
      ghost var f := fmap[..];
      Insert(fmap, eclass, i, hi, gap);
      RearrangesTwice(was, f, fmap[..], lo, hi, i, hi);
      i := i - 1;
    }
  }

  /** fallbackSimpleSort. Where all keys are the same nothing moves. */
  method SimpleSort(fmap: array<int>, eclass: array<int>, lo: int, hi: int)
    requires fmap != eclass && 0 <= lo <= hi + 1 <= fmap.Length
    requires InRange(fmap[..], eclass.Length)
    modifies fmap
    ensures Rearranges(old(fmap[..]), fmap[..], lo, hi) && InRange(fmap[..], eclass.Length)
    ensures SortedByKey(fmap[..], eclass[..], lo, hi)
    ensures AllSame(eclass[..]) ==> fmap[..] == old(fmap[..])
  {
    hide AllSame;
    if lo == hi { return; }
    ghost var was := fmap[..];
    if hi - lo > 3 { InsertionPass(fmap, eclass, lo, hi, 4); }
    ghost var f := fmap[..];
    InsertionPass(fmap, eclass, lo, hi, 1);
    RearrangesTwice(was, f, fmap[..], lo, hi, lo, hi);
    AdjacentSorted(fmap[..], eclass[..], lo, hi);
  }

  lemma {:induction false} AdjacentSorted(f: seq<int>, e: seq<int>, lo: int, hi: int)
    requires 0 <= lo && hi < |f| && InRange(f, |e|)
    requires GapSorted(f, e, lo, hi, 1)
    ensures SortedByKey(f, e, lo, hi)
    decreases hi - lo
  {
    if lo < hi {
      AdjacentSorted(f, e, lo, hi - 1);
      forall x | lo <= x <= hi ensures e[f[x]] <= e[f[hi]] {
        assert e[f[hi - 1]] <= e[f[hi]];
      }
    }
  }

  /** The keys of [a, b] are all below (-1), equal to (0) or above (1) med. */
  ghost predicate Side(f: seq<int>, e: seq<int>, a: int, b: int, med: int, side: int)
    requires 0 <= a && b < |f| && InRange(f, |e|)
  {
    forall x :: a <= x <= b ==>
      (side < 0 ==> e[f[x]] < med) && (side == 0 ==> e[f[x]] == med) && (side > 0 ==> e[f[x]] > med)
  }

  /** The partition in progress: equal | smaller | untouched [unLo, unHi] | larger | equal. */
  ghost predicate Parts(f: seq<int>, e: seq<int>, lo: int, ltLo: int, unLo: int, unHi: int, gtHi: int, hi: int, med: int) {
    0 <= lo <= ltLo <= unLo <= unHi + 1 && unHi <= gtHi <= hi < |f| && InRange(f, |e|)
    && Side(f, e, lo, ltLo - 1, med, 0) && Side(f, e, ltLo, unLo - 1, med, -1)
    && Side(f, e, unHi + 1, gtHi, med, 1) && Side(f, e, gtHi + 1, hi, med, 0)
  }

  function Min(a: int, b: int): int { if a < b then a else b }

  function Max(a: int, b: int): int { if a < b then b else a }

  method Swap(fmap: array<int>, i: int, j: int)
    requires 0 <= i < fmap.Length && 0 <= j < fmap.Length
    modifies fmap
    ensures fmap[..] == old(fmap[..][i := fmap[j]][j := fmap[i]])
    ensures Rearranges(old(fmap[..]), fmap[..], Min(i, j), Max(i, j)) && multiset(fmap[..]) == old(multiset(fmap[..]))
  {
    SwapRearranges(fmap[..], i, j);
    fmap[i], fmap[j] := fmap[j], fmap[i];
    assert fmap[..] == old(fmap[..][i := fmap[j]][j := fmap[i]]);
  }

  /** The partition loop: equal keys collect at both ends, smaller and larger ones meet in the middle. */
  method Partition(fmap: array<int>, eclass: array<int>, lo: int, hi: int, med: int)
    returns (unLo: int, ltLo: int, gtHi: int)
    requires fmap != eclass && 0 <= lo <= hi < fmap.Length && InRange(fmap[..], eclass.Length)
    modifies fmap
    ensures Rearranges(old(fmap[..]), fmap[..], lo, hi)
    ensures Parts(fmap[..], eclass[..], lo, ltLo, unLo, unLo - 1, gtHi, hi, med)
    ensures AllAre(eclass[..], med) ==> gtHi < ltLo && fmap[..] == old(fmap[..])
  {
    unLo, ltLo, gtHi := lo, lo, hi;
    var unHi := hi;
    ghost var was, e := fmap[..], eclass[..];
    PartsStart(was, e, lo, hi, med);
    hide *;
    var met := false;
    while !met
      invariant Rearranges(was, fmap[..], lo, hi) && Parts(fmap[..], e, lo, ltLo, unLo, unHi, gtHi, hi, med) && eclass[..] == e
      invariant met ==> unHi == unLo - 1
      invariant AllAre(e, med) ==> fmap[..] == was && if met then gtHi < ltLo else unLo == ltLo && unHi == gtHi
      decreases unHi - unLo, !met
    {
      met, unLo, ltLo, unHi, gtHi := PartitionTurn(fmap, eclass, lo, hi, unLo, ltLo, unHi, gtHi, med, was);
    }
  }

  /** Scans from both sides and exchanges the two entries on which the scans stopped, unless they met. */
  method PartitionTurn(fmap: array<int>, eclass: array<int>, lo: int, hi: int, unLo0: int, ltLo0: int, unHi0: int, gtHi0: int, med: int, ghost was: seq<int>)
    returns (met: bool, unLo: int, ltLo: int, unHi: int, gtHi: int)
    requires fmap != eclass
    requires Rearranges(was, fmap[..], lo, hi) && Parts(fmap[..], eclass[..], lo, ltLo0, unLo0, unHi0, gtHi0, hi, med)
    modifies fmap
    ensures Rearranges(was, fmap[..], lo, hi) && Parts(fmap[..], eclass[..], lo, ltLo, unLo, unHi, gtHi, hi, med)
    ensures if met then unHi == unLo - 1 && unHi - unLo <= unHi0 - unLo0 else unHi - unLo < unHi0 - unLo0 && unLo0 <= unHi0
    ensures AllAre(eclass[..], med) && unLo0 == ltLo0 ==> met && unLo == ltLo && unHi == unHi0 && gtHi == gtHi0 && fmap[..] == old(fmap[..])
  {
    hide *;
    ghost var f, e := fmap[..], eclass[..];
    PartsShape(f, e, lo, ltLo0, unLo0, unHi0, gtHi0, hi, med);
    unLo, ltLo := ScanUp(fmap, eclass, lo, hi, unLo0, ltLo0, unHi0, gtHi0, med);
    ghost var g := fmap[..];
    PartsShape(g, e, lo, ltLo, unLo, unHi0, gtHi0, hi, med);
    RearrangesTwice(was, f, g, lo, hi, lo, unHi0);
    unHi, gtHi := ScanDown(fmap, eclass, lo, hi, unLo, ltLo, unHi0, gtHi0, med);
    ghost var h := fmap[..];
    PartsShape(h, e, lo, ltLo, unLo, unHi, gtHi, hi, med);
    RearrangesTwice(was, g, h, lo, hi, unLo, hi);
    met := unLo > unHi;
    if !met {
      Swap(fmap, unLo, unHi);
      PartsSwapBoth(was, h, fmap[..], e, lo, ltLo, unLo, unHi, gtHi, hi, med);
      unLo, unHi := unLo + 1, unHi - 1;
    }
  }

  lemma PartsStart(f: seq<int>, e: seq<int>, lo: int, hi: int, med: int)
    requires 0 <= lo <= hi < |f| && InRange(f, |e|)
    ensures Rearranges(f, f, lo, hi) && Parts(f, e, lo, lo, lo, hi, hi, hi, med)
  {
  }

  lemma PartsShape(f: seq<int>, e: seq<int>, lo: int, ltLo: int, unLo: int, unHi: int, gtHi: int, hi: int, med: int)
    requires Parts(f, e, lo, ltLo, unLo, unHi, gtHi, hi, med)
    ensures 0 <= lo <= ltLo <= unLo <= unHi + 1 && unHi <= gtHi <= hi < |f| && InRange(f, |e|)
    ensures forall x :: 0 <= x < |f| ==> 0 <= f[x] < |e|
  {
  }

  /** Exchanging a larger entry at unLo with a smaller one at unHi extends both middle groups. */
  lemma PartsSwapBoth(was: seq<int>, f: seq<int>, g: seq<int>, e: seq<int>, lo: int, ltLo: int, unLo: int, unHi: int, gtHi: int, hi: int, med: int)
    requires Parts(f, e, lo, ltLo, unLo, unHi, gtHi, hi, med) && unLo < unHi && 0 <= f[unLo] < |e| && 0 <= f[unHi] < |e|
    requires e[f[unHi]] < med < e[f[unLo]] && lo <= unLo && unHi <= hi
    requires Rearranges(was, f, lo, hi) && Rearranges(f, g, Min(unLo, unHi), Max(unLo, unHi)) && g == f[unLo := f[unHi]][unHi := f[unLo]]
    ensures Rearranges(was, g, lo, hi) && Parts(g, e, lo, ltLo, unLo + 1, unHi - 1, gtHi, hi, med)
  {
    assert Rearranges(was, g, lo, hi) by { hide Rearranges, Parts; RearrangesTwice(was, f, g, lo, hi, unLo, unHi); }
    hide Rearranges;
  }

  /** The key of entry x is larger than med. */
  ghost predicate Beyond(f: seq<int>, e: seq<int>, x: int, med: int) {
    0 <= x < |f| && 0 <= f[x] < |e| && e[f[x]] > med
  }

  lemma BeyondIs(f: seq<int>, e: seq<int>, x: int, med: int)
    requires Beyond(f, e, x, med)
    ensures 0 <= x < |f| && 0 <= f[x] < |e| && e[f[x]] > med
  {
  }

  lemma BeyondIf(f: seq<int>, e: seq<int>, x: int, med: int)
    requires 0 <= x < |f| && 0 <= f[x] < |e| && e[f[x]] > med
    ensures Beyond(f, e, x, med)
  {
  }

  /** The key of entry x is smaller than med. */
  ghost predicate Short(f: seq<int>, e: seq<int>, x: int, med: int) {
    0 <= x < |f| && 0 <= f[x] < |e| && e[f[x]] < med
  }

  lemma ShortIs(f: seq<int>, e: seq<int>, x: int, med: int)
    requires Short(f, e, x, med)
    ensures 0 <= x < |f| && 0 <= f[x] < |e| && e[f[x]] < med
  {
  }

  lemma ShortIf(f: seq<int>, e: seq<int>, x: int, med: int)
    requires 0 <= x < |f| && 0 <= f[x] < |e| && e[f[x]] < med
    ensures Short(f, e, x, med)
  {
  }

  /** Exchanging an equal entry at unLo with the first of the smaller ones extends the left equal group. */
  lemma PartsSwapLo(was: seq<int>, f: seq<int>, g: seq<int>, e: seq<int>, lo: int, ltLo: int, unLo: int, unHi: int, gtHi: int, hi: int, med: int)
    requires Parts(f, e, lo, ltLo, unLo, unHi, gtHi, hi, med) && unLo <= unHi && 0 <= f[unLo] < |e| && e[f[unLo]] == med
    requires Rearranges(was, f, lo, unHi) && Rearranges(f, g, Min(unLo, ltLo), Max(unLo, ltLo)) && g == f[unLo := f[ltLo]][ltLo := f[unLo]]
    ensures Rearranges(was, g, lo, unHi) && Parts(g, e, lo, ltLo + 1, unLo + 1, unHi, gtHi, hi, med)
  {
    assert Rearranges(was, g, lo, unHi) by { hide Rearranges; RearrangesTwice(was, f, g, lo, unHi, ltLo, unLo); }
    hide Rearranges;
  }

  /** Exchanging an equal entry at unHi with the last of the larger ones extends the right equal group. */
  lemma PartsSwapHi(was: seq<int>, f: seq<int>, g: seq<int>, e: seq<int>, lo: int, ltLo: int, unLo: int, unHi: int, gtHi: int, hi: int, med: int)
    requires Parts(f, e, lo, ltLo, unLo, unHi, gtHi, hi, med) && unLo < unHi && 0 <= f[unHi] < |e| && e[f[unHi]] == med
    requires Rearranges(was, f, unLo, hi) && Rearranges(f, g, Min(unHi, gtHi), Max(unHi, gtHi)) && g == f[unHi := f[gtHi]][gtHi := f[unHi]]
    ensures Rearranges(was, g, unLo, hi) && Parts(g, e, lo, ltLo, unLo, unHi - 1, gtHi - 1, hi, med)
    ensures g[unLo] == f[unLo]
  {
    assert Rearranges(was, g, unLo, hi) by { hide Rearranges; RearrangesTwice(was, f, g, unLo, hi, unHi, gtHi); }
    hide Rearranges;
  }

  lemma PartsPassLo(f: seq<int>, e: seq<int>, lo: int, ltLo: int, unLo: int, unHi: int, gtHi: int, hi: int, med: int)
    requires Parts(f, e, lo, ltLo, unLo, unHi, gtHi, hi, med) && unLo <= unHi && e[f[unLo]] < med
    ensures Parts(f, e, lo, ltLo, unLo + 1, unHi, gtHi, hi, med)
  {
  }

  lemma PartsPassHi(f: seq<int>, e: seq<int>, lo: int, ltLo: int, unLo: int, unHi: int, gtHi: int, hi: int, med: int)
    requires Parts(f, e, lo, ltLo, unLo, unHi, gtHi, hi, med) && unLo <= unHi && e[f[unHi]] > med
    ensures Parts(f, e, lo, ltLo, unLo, unHi - 1, gtHi, hi, med)
  {
  }

  method ScanUp(fmap: array<int>, eclass: array<int>, lo: int, hi: int, unLo0: int, ltLo0: int, unHi: int, gtHi: int, med: int)
    returns (unLo: int, ltLo: int)
    requires fmap != eclass && Parts(fmap[..], eclass[..], lo, ltLo0, unLo0, unHi, gtHi, hi, med)
    modifies fmap
    ensures Parts(fmap[..], eclass[..], lo, ltLo, unLo, unHi, gtHi, hi, med) && unLo0 <= unLo
    ensures Rearranges(old(fmap[..]), fmap[..], lo, unHi)
    ensures unLo <= unHi ==> 0 <= unLo < fmap.Length && 0 <= fmap[unLo] < eclass.Length && eclass[fmap[unLo]] > med
    ensures AllAre(eclass[..], med) && unLo0 == ltLo0 ==> unLo == ltLo && unLo > unHi && fmap[..] == old(fmap[..])
  {
    unLo, ltLo := unLo0, ltLo0;
    ghost var was, e := fmap[..], eclass[..];
    PartsShape(was, e, lo, ltLo, unLo, unHi, gtHi, hi, med);
    InPlace(was, lo, unHi);
    hide *;
    var stop := false;
    while !stop && unLo <= unHi
      invariant Rearranges(was, fmap[..], lo, unHi) && Parts(fmap[..], e, lo, ltLo, unLo, unHi, gtHi, hi, med) && unLo0 <= unLo && eclass[..] == e
      invariant stop ==> unLo <= unHi && Beyond(fmap[..], e, unLo, med)
      invariant AllAre(e, med) && unLo0 == ltLo0 ==> !stop && unLo == ltLo && fmap[..] == was
      decreases unHi - unLo, !stop
    {
      stop, ltLo := UpTurn(fmap, eclass, lo, ltLo, unLo, unHi, gtHi, hi, med, was);
      if !stop { unLo := unLo + 1; }
    }
    if stop { BeyondIs(fmap[..], e, unLo, med); }
  }

  lemma TheKey(e: seq<int>, med: int, x: int)
    requires 0 <= x < |e|
    ensures (AllAre(e, med) ==> e[x] == med) && (AllSame(e) ==> AllAre(e, e[x]))
  {
  }

  /** One entry from below: larger ones stop the scan, equal ones go to the left end. */
  method UpTurn(fmap: array<int>, eclass: array<int>, lo: int, ltLo: int, unLo: int, unHi: int, gtHi: int, hi: int, med: int, ghost was: seq<int>)
    returns (stop: bool, ltLo': int)
    requires fmap != eclass && unLo <= unHi
    requires Rearranges(was, fmap[..], lo, unHi) && Parts(fmap[..], eclass[..], lo, ltLo, unLo, unHi, gtHi, hi, med)
    modifies fmap
    ensures Rearranges(was, fmap[..], lo, unHi)
    ensures Parts(fmap[..], eclass[..], lo, ltLo', if stop then unLo else unLo + 1, unHi, gtHi, hi, med) && (stop ==> Beyond(fmap[..], eclass[..], unLo, med))
    ensures AllAre(eclass[..], med) && unLo == ltLo ==> !stop && ltLo' == unLo + 1 && fmap[..] == old(fmap[..])
  {
    ghost var f, e := fmap[..], eclass[..];
    PartsShape(f, e, lo, ltLo, unLo, unHi, gtHi, hi, med);
    hide *;
    assert 0 <= f[unLo] < |e|;
    var c := eclass[fmap[unLo]];
    assert c == e[f[unLo]];
    TheKey(e, med, f[unLo]);
    stop, ltLo' := false, ltLo;
    if c > med {
      stop := true;
      BeyondIf(f, e, unLo, med);
    } else if c == med {
      Swap(fmap, unLo, ltLo);
      PartsSwapLo(was, f, fmap[..], e, lo, ltLo, unLo, unHi, gtHi, hi, med);
      ltLo' := ltLo + 1;
    } else {
      PartsPassLo(f, e, lo, ltLo, unLo, unHi, gtHi, hi, med);
    }
  }

  method ScanDown(fmap: array<int>, eclass: array<int>, lo: int, hi: int, unLo: int, ltLo: int, unHi0: int, gtHi0: int, med: int)
    returns (unHi: int, gtHi: int)
    requires fmap != eclass && Parts(fmap[..], eclass[..], lo, ltLo, unLo, unHi0, gtHi0, hi, med)
    requires unLo <= unHi0 ==> 0 <= unLo < fmap.Length && 0 <= fmap[unLo] < eclass.Length && eclass[fmap[unLo]] > med
    modifies fmap
    ensures Parts(fmap[..], eclass[..], lo, ltLo, unLo, unHi, gtHi, hi, med) && unHi <= unHi0
    ensures Rearranges(old(fmap[..]), fmap[..], unLo, hi)
    ensures unLo <= unHi ==> 0 <= unLo < unHi < fmap.Length && 0 <= fmap[unLo] < eclass.Length && 0 <= fmap[unHi] < eclass.Length
                             && eclass[fmap[unHi]] < med < eclass[fmap[unLo]]
    ensures unLo > unHi0 ==> unHi == unHi0 && gtHi == gtHi0 && fmap[..] == old(fmap[..])
  {
    unHi, gtHi := unHi0, gtHi0;
    ghost var was, e := fmap[..], eclass[..];
    PartsShape(was, e, lo, ltLo, unLo, unHi, gtHi, hi, med);
    InPlace(was, unLo, hi);
    if unLo <= unHi { BeyondIf(was, e, unLo, med); }
    hide *;
    var stop := false;
    while !stop && unLo <= unHi
      invariant Rearranges(was, fmap[..], unLo, hi) && Parts(fmap[..], e, lo, ltLo, unLo, unHi, gtHi, hi, med) && unHi <= unHi0 && eclass[..] == e
      invariant unLo <= unHi ==> Beyond(fmap[..], e, unLo, med)
      invariant stop ==> unLo < unHi && Short(fmap[..], e, unHi, med)
      invariant unLo > unHi0 ==> unHi == unHi0 && gtHi == gtHi0 && fmap[..] == was
      decreases unHi - unLo, !stop
    {
      stop, gtHi := DownTurn(fmap, eclass, lo, ltLo, unLo, unHi, gtHi, hi, med, was);
      if !stop { unHi := unHi - 1; }
    }
    if stop {
      BeyondIs(fmap[..], e, unLo, med);
      ShortIs(fmap[..], e, unHi, med);
    }
  }

  /** One entry from above: smaller ones stop the scan, equal ones go to the right end. */
  method DownTurn(fmap: array<int>, eclass: array<int>, lo: int, ltLo: int, unLo: int, unHi: int, gtHi: int, hi: int, med: int, ghost was: seq<int>)
    returns (stop: bool, gtHi': int)
    requires fmap != eclass && unLo <= unHi
    requires Rearranges(was, fmap[..], unLo, hi) && Parts(fmap[..], eclass[..], lo, ltLo, unLo, unHi, gtHi, hi, med) && Beyond(fmap[..], eclass[..], unLo, med)
    modifies fmap
    ensures Rearranges(was, fmap[..], unLo, hi)
    ensures Parts(fmap[..], eclass[..], lo, ltLo, unLo, if stop then unHi else unHi - 1, gtHi', hi, med)
    ensures stop ==> unLo < unHi && Short(fmap[..], eclass[..], unHi, med) && Beyond(fmap[..], eclass[..], unLo, med)
    ensures !stop && unLo < unHi ==> Beyond(fmap[..], eclass[..], unLo, med)
  {
    ghost var f, e := fmap[..], eclass[..];
    PartsShape(f, e, lo, ltLo, unLo, unHi, gtHi, hi, med);
    BeyondIs(f, e, unLo, med);
    hide *;
    assert 0 <= f[unHi] < |e|;
    var c := eclass[fmap[unHi]];
    assert c == e[f[unHi]];
    stop, gtHi' := false, gtHi;
    if c < med {
      stop := true;
      ShortIf(f, e, unHi, med);
    } else if c == med {
      Swap(fmap, unHi, gtHi);
      PartsSwapHi(was, f, fmap[..], e, lo, ltLo, unLo, unHi, gtHi, hi, med);
      BeyondIf(fmap[..], e, unLo, med);
      gtHi' := gtHi - 1;
    } else {
      PartsPassHi(f, e, lo, ltLo, unLo, unHi, gtHi, hi, med);
    }
  }

  lemma InPlace(p: seq<int>, lo: int, hi: int)
    requires 0 <= lo && hi < |p|
    ensures Rearranges(p, p, lo, hi)
  {
  }

  /** g is f with the n entries from p1 and the n entries from p2 exchanged. */
  ghost predicate Exchanged(f: seq<int>, g: seq<int>, p1: int, p2: int, n: int)
    requires 0 <= n && 0 <= p1 && (n > 0 ==> p1 + n <= p2 && p2 + n <= |f|)
  {
    |g| == |f| && multiset(g) == multiset(f) && Crossed(f, g, p1, p2, n)
  }

  ghost predicate Crossed(f: seq<int>, g: seq<int>, p1: int, p2: int, n: int)
    requires 0 <= n && 0 <= p1 && |g| == |f| && (n > 0 ==> p1 + n <= p2 && p2 + n <= |f|)
  {
    && (forall x, y :: p1 <= x < p1 + n && y == x + p2 - p1 ==> g[x] == f[y] && g[y] == f[x])
    && forall x :: 0 <= x < |f| && !(p1 <= x < p1 + n) && !(p2 <= x < p2 + n) ==> g[x] == f[x]
  }

  /** fvswap. */
  method VSwap(fmap: array<int>, p1: int, p2: int, n: int)
    requires 0 <= n && 0 <= p1 && (n > 0 ==> p1 + n <= p2 && p2 + n <= fmap.Length)
    modifies fmap
    ensures Exchanged(old(fmap[..]), fmap[..], p1, p2, n)
  {
    var yyp1, yyp2, yyn := p1, p2, n;
    ghost var was := fmap[..];
    ExchangedNone(was, p1, p2);
    hide *;
    while yyn > 0
      invariant 0 <= yyn <= n && yyp1 == p1 + n - yyn && yyp2 == p2 + n - yyn
      invariant |was| == fmap.Length && Exchanged(was, fmap[..], p1, p2, n - yyn)
    {
      VSwapOne(fmap, yyp1, yyp2, was, p1, p2, n - yyn);
      yyp1, yyp2, yyn := yyp1 + 1, yyp2 + 1, yyn - 1;
    }
  }

  method VSwapOne(fmap: array<int>, yyp1: int, yyp2: int, ghost was: seq<int>, ghost p1: int, ghost p2: int, ghost k: int)
    requires 0 <= k && 0 <= p1 && yyp1 == p1 + k < p2 && yyp2 == p2 + k < fmap.Length == |was| && Exchanged(was, fmap[..], p1, p2, k)
    modifies fmap
    ensures Exchanged(was, fmap[..], p1, p2, k + 1)
  {
    hide *;
    ghost var f := fmap[..];
    Swap(fmap, yyp1, yyp2);
    ExchangedMore(was, f, p1, p2, k);
  }

  lemma ExchangedNone(f: seq<int>, p1: int, p2: int)
    requires 0 <= p1
    ensures Exchanged(f, f, p1, p2, 0)
  {
  }

  lemma ExchangedMore(f: seq<int>, g: seq<int>, p1: int, p2: int, n: int)
    requires 0 <= n && 0 <= p1 && p1 + n + 1 <= p2 && p2 + n + 1 <= |f| && Exchanged(f, g, p1, p2, n)
    ensures |g| == |f| && Exchanged(f, g[p1 + n := g[p2 + n]][p2 + n := g[p1 + n]], p1, p2, n + 1)
  {
    SwapRearranges(g, p1 + n, p2 + n);
    CrossedMore(f, g, p1, p2, n);
    hide Crossed;
  }

  lemma CrossedMore(f: seq<int>, g: seq<int>, p1: int, p2: int, n: int)
    requires 0 <= n && 0 <= p1 && |g| == |f| && p1 + n + 1 <= p2 && p2 + n + 1 <= |f| && Crossed(f, g, p1, p2, n)
    ensures Crossed(f, g[p1 + n := g[p2 + n]][p2 + n := g[p1 + n]], p1, p2, n + 1)
  {
  }

  /** Exchanging the ends of two adjacent groups, as far as the shorter one reaches, exchanges the groups. */
  lemma ExchangedSides(f: seq<int>, g: seq<int>, e: seq<int>, a: int, b: int, c: int, n: int, med: int, left: int, right: int)
    requires 0 <= a <= b <= c <= |f| && InRange(f, |e|) && n == Min(b - a, c - b)
    requires Side(f, e, a, b - 1, med, left) && Side(f, e, b, c - 1, med, right)
    requires Exchanged(f, g, a, c - n, n)
    ensures InRange(g, |e|) && Side(g, e, a, a + (c - b) - 1, med, right) && Side(g, e, a + (c - b), c - 1, med, left)
    ensures Rearranges(f, g, a, c - 1)
  {
    RearrangesRange(f, g, |e|);
    forall x | a <= x < c ensures exists y :: a <= y < c && g[x] == f[y] && (x < a + (c - b) <==> b <= y) {
      if x < a + n { assert g[x] == f[x + c - n - a]; }
      else if c - n <= x { assert g[x] == f[x - (c - n) + a]; }
      else { assert g[x] == f[x]; }
    }
  }

  lemma SideKept(f: seq<int>, g: seq<int>, e: seq<int>, a: int, b: int, med: int, side: int)
    requires 0 <= a && b < |f| == |g| && InRange(f, |e|) && InRange(g, |e|)
    requires Side(f, e, a, b, med, side) && forall x :: a <= x <= b ==> g[x] == f[x]
    ensures Side(g, e, a, b, med, side)
  {
  }

  lemma SideJoin(f: seq<int>, e: seq<int>, a: int, b: int, c: int, med: int, side: int)
    requires 0 <= a <= b <= c + 1 <= |f| && InRange(f, |e|)
    requires Side(f, e, a, b - 1, med, side) && Side(f, e, b, c, med, side)
    ensures Side(f, e, a, c, med, side)
  {
  }

  /** Moves the equal keys from both ends to the middle; [lo, n] is below, [m, hi] above, the rest equal. */
  method Gather(fmap: array<int>, ghost e: seq<int>, lo: int, hi: int, unLo: int, ltLo: int, gtHi: int, ghost med: int)
    returns (n: int, m: int)
    requires Parts(fmap[..], e, lo, ltLo, unLo, unLo - 1, gtHi, hi, med)
    modifies fmap
    ensures n == lo + unLo - ltLo - 1 && m == hi - (gtHi - (unLo - 1)) + 1
    ensures Rearranges(old(fmap[..]), fmap[..], lo, hi) && InRange(fmap[..], |e|)
    ensures Side(fmap[..], e, lo, n, med, -1) && Side(fmap[..], e, n + 1, m - 1, med, 0)
    ensures Side(fmap[..], e, m, hi, med, 1)
  {
    hide Side, Rearranges, Exchanged;
    ghost var f := fmap[..];
    n := Min(ltLo - lo, unLo - ltLo);
    VSwap(fmap, lo, unLo - n, n);
    ghost var g := fmap[..];
    ExchangedSides(f, g, e, lo, ltLo, unLo, n, med, 0, -1);
    SideKept(f, g, e, unLo, gtHi, med, 1);
    SideKept(f, g, e, gtHi + 1, hi, med, 0);
    m := Min(hi - gtHi, gtHi - (unLo - 1));
    VSwap(fmap, unLo, hi - m + 1, m);
    ghost var h := fmap[..];
    ExchangedSides(g, h, e, unLo, gtHi + 1, hi + 1, m, med, 1, 0);
    SideKept(g, h, e, lo, lo + unLo - ltLo - 1, med, -1);
    SideKept(g, h, e, lo + unLo - ltLo, unLo - 1, med, 0);
    RearrangesTwice(f, g, h, lo, hi, lo, hi);
    SideJoin(h, e, lo + unLo - ltLo, unLo, unLo + hi - gtHi - 1, med, 0);
    n := lo + unLo - ltLo - 1;
    m := hi - (gtHi - (unLo - 1)) + 1;
  }

  /** A pending range of the quicksort stack. */
  datatype Range = Range(lo: int, hi: int) {
    function Size(): int { hi - lo + 1 }
  }

  /** A size that is at most n / 2^k. */
  ghost predicate Fits(size: int, k: nat, n: int) {
    0 <= size && size * Pow2(k) <= n
  }

  /** Entry k of the stack has at most n / 2^k entries: the larger part is pushed first. */
  ghost predicate Shrinking(ranges: seq<Range>, n: int) {
    forall k :: 0 <= k < |ranges| ==> Fits(ranges[k].Size(), k, n)
  }

  lemma FitsSmaller(size: int, size': int, k: nat, n: int)
    requires Fits(size, k, n) && 0 <= size' <= size
    ensures Fits(size', k, n) && 0 <= size
  {
    ScaleUp(size', size, Pow2(k));
  }

  lemma FitsHalf(size: int, size': int, k: nat, n: int)
    requires Fits(size, k, n) && 0 <= 2 * size' <= size
    ensures Fits(size', k + 1, n) && 0 <= size
  {
    var q := Pow2(k);
    ScaleUp(2 * size', size, q);
    assert size' * (2 * q) == (2 * size') * q;
  }

  lemma ScaleUp(x: int, y: int, k: int)
    requires x <= y && k >= 0
    ensures x * k <= y * k
  {
  }

  /** Ranges lie inside [loSt, hiSt] and no position belongs to two of them. */
  ghost predicate Apart(ranges: seq<Range>, loSt: int, hiSt: int) {
    && (forall k :: 0 <= k < |ranges| ==> loSt <= ranges[k].lo && ranges[k].hi <= hiSt)
    && forall j, k :: 0 <= j < k < |ranges| ==>
      (ranges[j].hi < ranges[k].lo || ranges[k].hi < ranges[j].lo || ranges[j].Size() <= 0 || ranges[k].Size() <= 0)
  }

  ghost predicate Together(ranges: seq<Range>, x: int, y: int) {
    exists k :: 0 <= k < |ranges| && ranges[k].lo <= x && y <= ranges[k].hi
  }

  /** Every pair of positions is in order already or waits inside one stacked range. */
  ghost predicate SortedButFor(f: seq<int>, e: seq<int>, loSt: int, hiSt: int, ranges: seq<Range>)
    requires 0 <= loSt && hiSt < |f| && InRange(f, |e|)
  {
    forall x, y :: loSt <= x <= y <= hiSt ==> e[f[x]] <= e[f[y]] || Together(ranges, x, y)
  }

  function Work(ranges: seq<Range>): int {
    if ranges == [] then 0 else Work(ranges[..|ranges| - 1]) + 2 * ranges[|ranges| - 1].Size() + 1
  }

  lemma {:induction false} WorkNonNegative(ranges: seq<Range>)
    requires forall k :: 0 <= k < |ranges| ==> 0 <= ranges[k].Size()
    ensures Work(ranges) >= 0
  {
    if ranges != [] { WorkNonNegative(ranges[..|ranges| - 1]); }
  }

  lemma WorkPush(rest: seq<Range>, r: Range)
    ensures Work(rest + [r]) == Work(rest) + 2 * r.Size() + 1
  {
    assert (rest + [r])[..|rest|] == rest;
  }

  lemma PushShrinking(rest: seq<Range>, top: Range, a: Range, b: Range, n: int)
    requires Shrinking(rest + [top], n) && 0 <= a.Size() <= top.Size() && 0 <= 2 * b.Size() <= top.Size()
    ensures Shrinking(rest + [a, b], n) && forall j :: 0 <= j < |rest| ==> 0 <= rest[j].Size()
  {
    var s, s', k := rest + [top], rest + [a, b], |rest|;
    assert s[k] == top && s'[k] == a && s'[k + 1] == b && forall j :: 0 <= j < k ==> s'[j] == s[j] == rest[j];
    FitsHalf(top.Size(), b.Size(), k, n);
    FitsSmaller(top.Size(), a.Size(), k, n);
    forall j | 0 <= j < |s'| ensures Fits(s'[j].Size(), j, n) {
      if j < k { assert Fits(s[j].Size(), j, n); }
    }
    forall j | 0 <= j < k ensures 0 <= rest[j].Size() { assert Fits(s[j].Size(), j, n); }
  }

  lemma PushApart(rest: seq<Range>, top: Range, a: Range, b: Range, loSt: int, hiSt: int)
    requires Apart(rest + [top], loSt, hiSt) && IsSplit(top.lo, top.hi, a, b)
    ensures Apart(rest + [a, b], loSt, hiSt)
  {
    var s, s', k := rest + [top], rest + [a, b], |rest|;
    assert s[k] == top && s'[k] == a && s'[k + 1] == b && forall j :: 0 <= j < k ==> s'[j] == s[j];
    forall j | 0 <= j < k ensures s[j].hi < top.lo || top.hi < s[j].lo || s[j].Size() <= 0 {}
  }

  /** Pushing the two parts, larger first, keeps every stack invariant. */
  lemma PushParts(rest: seq<Range>, top: Range, a: Range, b: Range, loSt: int, hiSt: int, n: int)
    requires Shrinking(rest + [top], n) && Apart(rest + [top], loSt, hiSt)
    requires IsSplit(top.lo, top.hi, a, b)
    ensures Shrinking(rest + [a, b], n) && Apart(rest + [a, b], loSt, hiSt)
    ensures 0 <= Work(rest + [a, b]) < Work(rest + [top])
  {
    PushShrinking(rest, top, a, b, n);
    PushApart(rest, top, a, b, loSt, hiSt);
    hide Shrinking, Apart, Work;
    WorkPush(rest, top);
    WorkPush(rest, a);
    WorkPush(rest + [a], b);
    WorkNonNegative(rest);
    assert rest + [a] + [b] == rest + [a, b];
  }

  /** Sorting a popped range, or splitting it into below | equal | above, keeps all pairs accounted for. */
  lemma RangeSettled(f: seq<int>, g: seq<int>, e: seq<int>, loSt: int, hiSt: int, rest: seq<Range>, top: Range, parts: seq<Range>)
    requires 0 <= loSt <= top.lo && top.hi <= hiSt < |f| && InRange(f, |e|) && InRange(g, |e|)
    requires SortedButFor(f, e, loSt, hiSt, rest + [top]) && Apart(rest + [top], loSt, hiSt)
    requires Rearranges(f, g, top.lo, top.hi)
    requires forall x, y :: top.lo <= x <= y <= top.hi ==> e[g[x]] <= e[g[y]] || Together(parts, x, y)
    ensures SortedButFor(g, e, loSt, hiSt, rest + parts)
  {
    var s, s' := rest + [top], rest + parts;
    assert s[|rest|] == top && forall k :: 0 <= k < |rest| ==> s[k] == rest[k] == s'[k];
    assert forall k :: 0 <= k < |parts| ==> s'[|rest| + k] == parts[k];
    forall x, y | loSt <= x <= y <= hiSt ensures e[g[x]] <= e[g[y]] || Together(s', x, y) {
      if top.lo <= x && y <= top.hi {
        if Together(parts, x, y) {
          var k :| 0 <= k < |parts| && parts[k].lo <= x && y <= parts[k].hi;
          assert s'[|rest| + k].lo <= x;
        }
      } else {
        var x' := Source(f, g, top, x);
        var y' := Source(f, g, top, y);
        assert x' <= y';
        if Together(s, x', y') {
          var k :| 0 <= k < |s| && s[k].lo <= x' && y' <= s[k].hi;
          assert k < |rest|;
          assert s[k].hi < top.lo || top.hi < s[k].lo || top.Size() <= 0;
          assert s'[k].lo <= x && y <= s'[k].hi;
        }
      }
    }
  }

  /** Where the entry g[x] stood before the rearrangement of top. */
  lemma Source(f: seq<int>, g: seq<int>, top: Range, x: int) returns (x': int)
    requires Rearranges(f, g, top.lo, top.hi) && 0 <= x < |f|
    ensures 0 <= x' < |f| && f[x'] == g[x]
    ensures if top.lo <= x <= top.hi then top.lo <= x' <= top.hi else x' == x
  {
    if top.lo <= x <= top.hi {
      FromRange(f, g, top.lo, top.hi, x);
      x' :| top.lo <= x' <= top.hi && f[x'] == g[x];
    } else {
      x' := x;
    }
  }

  /** Chooses the pivot and partitions [lo, hi]. Afterwards [lo, n] is below and [m, hi] above the keys between
      them; when allEqual, the whole range has one key. */
  method SplitRange(fmap: array<int>, eclass: array<int>, lo: int, hi: int, r0: int)
    returns (r: int, allEqual: bool, n: int, m: int)
    requires fmap != eclass && 0 <= lo <= hi < fmap.Length && InRange(fmap[..], eclass.Length)
    modifies fmap
    ensures Rearranges(old(fmap[..]), fmap[..], lo, hi) && InRange(fmap[..], eclass.Length)
    ensures r == (r0 * 7621 + 1) % 32768
    ensures allEqual ==> forall x, y :: lo <= x <= y <= hi ==> eclass[fmap[x]] <= eclass[fmap[y]]
    ensures !allEqual ==> lo - 1 <= n && m <= hi + 1 && n + 1 < m
    ensures !allEqual ==> forall x, y :: lo <= x <= y <= hi ==> eclass[fmap[x]] <= eclass[fmap[y]] || y <= n || m <= x
    ensures AllSame(eclass[..]) ==> allEqual && fmap[..] == old(fmap[..])
  {
    hide AllSame, AllAre;
    ghost var was, e := fmap[..], eclass[..];
    r := (r0 * 7621 + 1) % 32768;
    var r3 := r % 3;
    var p := if r3 == 0 then lo else if r3 == 1 then (lo + hi) / 2 else hi;
    var med := eclass[fmap[p]];
    TheKey(e, med, was[p]);
    var unLo, ltLo, gtHi := Partition(fmap, eclass, lo, hi, med);
    ghost var f := fmap[..];
    allEqual, n, m := gtHi < ltLo, lo, hi;
    if allEqual { return; }
    n, m := Gather(fmap, eclass[..], lo, hi, unLo, ltLo, gtHi, med);
    RearrangesTwice(was, f, fmap[..], lo, hi, lo, hi);
    PivotStays(was, f, e, lo, hi, p);
    assert exists y :: lo <= y <= hi && e[f[y]] == med;
    SidesOrdered(fmap[..], e, lo, n, m, hi, med);
  }

  lemma PivotStays(f: seq<int>, g: seq<int>, e: seq<int>, lo: int, hi: int, p: int)
    requires Rearranges(f, g, lo, hi) && InRange(f, |e|) && lo <= p <= hi
    ensures InRange(g, |e|) && exists y :: lo <= y <= hi && e[g[y]] == e[f[p]]
  {
    RearrangesRange(f, g, |e|);
    FromRange(g, f, lo, hi, p);
  }

  lemma SidesOrdered(f: seq<int>, e: seq<int>, lo: int, n: int, m: int, hi: int, med: int)
    requires 0 <= lo <= n + 1 <= m <= hi + 1 <= |f| && InRange(f, |e|)
    requires Side(f, e, lo, n, med, -1) && Side(f, e, n + 1, m - 1, med, 0) && Side(f, e, m, hi, med, 1)
    ensures forall x, y :: lo <= x <= y <= hi ==> e[f[x]] <= e[f[y]] || y <= n || m <= x
  {
  }

  /** A range that is still worth splitting cannot sit high on the stack. */
  lemma StackBound(k: nat, size: int, n: int)
    requires size > SMALL_THRESH && Fits(size, k, n) && n <= 0x8000_0000
    ensures k <= 27
  {
    var q := Pow2(k);
    ScaleUp(11, size, q);
    Pow2Of28();
    if k >= 28 { Pow2Monotone(28, k); }
  }

  lemma Pow2Of28()
    ensures Pow2(28) == 0x1000_0000
  {
    assert Pow2(7) == 128;
    Pow2Add(7, 7);
    Pow2Add(14, 14);
  }

  /** What the stack invariants say about its top entry. */
  lemma TopEntry(rest: seq<Range>, top: Range, loSt: int, hiSt: int, n: int)
    requires Shrinking(rest + [top], n) && Apart(rest + [top], loSt, hiSt)
    ensures Fits(top.Size(), |rest|, n) && 0 <= top.Size() && loSt <= top.lo && top.hi <= hiSt
    ensures Shrinking(rest, n) && Apart(rest, loSt, hiSt) && 0 <= Work(rest) < Work(rest + [top])
  {
    var s := rest + [top];
    assert s[|rest|] == top && forall k :: 0 <= k < |rest| ==> s[k] == rest[k];
    WorkPush(rest, top);
    assert forall k :: 0 <= k < |rest| ==> Fits(s[k].Size(), k, n);
    WorkNonNegative(rest);
  }

  /** One turn of the main loop on a popped range: small ranges are sorted, others are split; parts is what to push. */
  method SortOrSplit(fmap: array<int>, eclass: array<int>, lo: int, hi: int, r0: int) returns (r: int, parts: seq<Range>)
    requires fmap != eclass && 0 <= lo <= hi + 1 <= fmap.Length && InRange(fmap[..], eclass.Length)
    modifies fmap
    ensures Rearranges(old(fmap[..]), fmap[..], lo, hi) && InRange(fmap[..], eclass.Length)
    ensures forall x, y :: lo <= x <= y <= hi ==> eclass[fmap[x]] <= eclass[fmap[y]] || Together(parts, x, y)
    ensures parts == [] || (|parts| == 2 && hi - lo >= SMALL_THRESH && IsSplit(lo, hi, parts[0], parts[1]))
    ensures AllSame(eclass[..]) ==> parts == [] && fmap[..] == old(fmap[..])
  {
    hide AllSame;
    r, parts := r0, [];
    if hi - lo < SMALL_THRESH {
      SimpleSort(fmap, eclass, lo, hi);
      KeyOrder(fmap[..], eclass[..], lo, hi);
    } else {
      var allEqual, n, m;
      r, allEqual, n, m := SplitRange(fmap, eclass, lo, hi, r);
      if !allEqual {
        if n - lo > hi - m {
          parts := [Range(lo, n), Range(m, hi)];
        } else {
          parts := [Range(m, hi), Range(lo, n)];
        }
        PartsCover(fmap[..], eclass[..], lo, n, m, hi, parts);
      }
    }
  }

  /** Two separate parts of [lo, hi], the larger first, that leave at least one position out. */
  predicate IsSplit(lo: int, hi: int, a: Range, b: Range) {
    lo <= a.lo && a.hi <= hi && lo <= b.lo && b.hi <= hi && (a.hi < b.lo || b.hi < a.lo)
    && a.Size() >= b.Size() >= 0 && a.Size() + b.Size() < hi - lo + 1
  }

  /** fpush. */
  method Push(stack: array<Range>, sp0: int, r: Range) returns (sp: int)
    requires 0 <= sp0 < stack.Length
    modifies stack
    ensures sp == sp0 + 1 && stack[..sp] == old(stack[..sp0]) + [r]
  {
    stack[sp0] := r;
    sp := sp0 + 1;
  }

  lemma SizeIs(r: Range)
    ensures r.Size() == r.hi - r.lo + 1
  {
  }

  /** The state of the main loop. */
  ghost predicate Sorting(e: seq<int>, was: seq<int>, f: seq<int>, loSt: int, hiSt: int, ranges: seq<Range>) {
    0 <= loSt <= hiSt < |f| && InRange(f, |e|) && Rearranges(was, f, loSt, hiSt)
    && Shrinking(ranges, hiSt - loSt + 1) && Apart(ranges, loSt, hiSt) && SortedButFor(f, e, loSt, hiSt, ranges)
  }

  lemma SortingParts(e: seq<int>, was: seq<int>, f: seq<int>, loSt: int, hiSt: int, ranges: seq<Range>)
    requires Sorting(e, was, f, loSt, hiSt, ranges)
    ensures 0 <= loSt <= hiSt < |f| && InRange(f, |e|) && Rearranges(was, f, loSt, hiSt)
    ensures Shrinking(ranges, hiSt - loSt + 1) && Apart(ranges, loSt, hiSt) && SortedButFor(f, e, loSt, hiSt, ranges)
  {
  }

  lemma SortingIs(e: seq<int>, was: seq<int>, f: seq<int>, loSt: int, hiSt: int, ranges: seq<Range>)
    requires 0 <= loSt <= hiSt < |f| && InRange(f, |e|) && Rearranges(was, f, loSt, hiSt)
    requires Shrinking(ranges, hiSt - loSt + 1) && Apart(ranges, loSt, hiSt) && SortedButFor(f, e, loSt, hiSt, ranges)
    ensures Sorting(e, was, f, loSt, hiSt, ranges)
  {
  }

  /** A turn of the main loop: the top range is sorted, or split and its parts pushed. */
  method StackTurn(fmap: array<int>, eclass: array<int>, stack: array<Range>, sp0: int, r0: int, ghost was: seq<int>, ghost loSt: int, ghost hiSt: int)
    returns (r: int, sp: int)
    requires fmap != eclass && stack.Length == STACK_SIZE && 0 < sp0 <= 29 && fmap.Length <= 0x8000_0000
    requires Sorting(eclass[..], was, fmap[..], loSt, hiSt, stack[..sp0])
    modifies fmap, stack
    ensures 0 <= sp <= 29 && Sorting(eclass[..], was, fmap[..], loSt, hiSt, stack[..sp])
    ensures 0 <= Work(stack[..sp]) < Work(old(stack[..sp0]))
    ensures AllSame(eclass[..]) ==> fmap[..] == old(fmap[..])
  {
    assert STACK_SIZE == 100;
    hide *;
    sp := sp0 - 1;
    var top := stack[sp];
    ghost var rest, f, e := stack[..sp], fmap[..], eclass[..];
    assert stack[..sp0] == rest + [top];
    SortingParts(e, was, f, loSt, hiSt, rest + [top]);
    TopEntry(rest, top, loSt, hiSt, hiSt - loSt + 1);
    SizeIs(top);
    var parts;
    r, parts := SortOrSplit(fmap, eclass, top.lo, top.hi, r0);
    RearrangesTwice(was, f, fmap[..], loSt, hiSt, top.lo, top.hi);
    RangeSettled(f, fmap[..], e, loSt, hiSt, rest, top, parts);
    sp := PushAll(stack, sp, parts, top, loSt, hiSt, hiSt - loSt + 1);
    SortingIs(e, was, fmap[..], loSt, hiSt, stack[..sp]);
  }

  /** fallbackQSort3: sorts fmap[loSt..hiSt] by key; the explicit stack never overflows. Where all keys are the same nothing
      moves. */
  method QSort3(fmap: array<int>, eclass: array<int>, loSt: int, hiSt: int)
    requires fmap != eclass && 0 <= loSt <= hiSt < fmap.Length <= 0x8000_0000 && InRange(fmap[..], eclass.Length)
    modifies fmap
    ensures Rearranges(old(fmap[..]), fmap[..], loSt, hiSt) && InRange(fmap[..], eclass.Length)
    ensures SortedByKey(fmap[..], eclass[..], loSt, hiSt)
    ensures AllSame(eclass[..]) ==> fmap[..] == old(fmap[..])
  {
    var stack := new Range[STACK_SIZE]; // stackLo and stackHi side by side
    var r, sp := 0, 0;
    sp := Push(stack, sp, Range(loSt, hiSt));
    ghost var was, e := fmap[..], eclass[..];
    StackStart(was, e, loSt, hiSt);
    assert stack[..sp] == [Range(loSt, hiSt)] && STACK_SIZE == 100;
    hide *;
    SortingIs(e, was, was, loSt, hiSt, stack[..sp]);
    while sp > 0
      invariant 0 <= sp <= 29 && eclass[..] == e && Sorting(e, was, fmap[..], loSt, hiSt, stack[..sp])
      invariant AllSame(e) ==> fmap[..] == was
      decreases Work(stack[..sp])
    {
      assert sp < STACK_SIZE - 1; // assertion 1004
      r, sp := StackTurn(fmap, eclass, stack, sp, r, was, loSt, hiSt);
    }
    SortingParts(e, was, fmap[..], loSt, hiSt, stack[..sp]);
    StackEmpty(fmap[..], e, loSt, hiSt);
  }

  method PushAll(stack: array<Range>, sp0: int, parts: seq<Range>, ghost top: Range, ghost loSt: int, ghost hiSt: int, ghost n: int)
    returns (sp: int)
    requires stack.Length == STACK_SIZE && 0 <= sp0 <= 28 && n <= 0x8000_0000
    requires Shrinking(stack[..sp0] + [top], n) && Apart(stack[..sp0] + [top], loSt, hiSt)
    requires parts == [] || (|parts| == 2 && top.Size() > SMALL_THRESH && IsSplit(top.lo, top.hi, parts[0], parts[1]))
    modifies stack
    ensures 0 <= sp <= 29 && stack[..sp] == old(stack[..sp0]) + parts
    ensures Shrinking(stack[..sp], n) && Apart(stack[..sp], loSt, hiSt)
    ensures 0 <= Work(stack[..sp]) < Work(old(stack[..sp0]) + [top])
  {
    hide Shrinking, Apart, Work, Pow2, Fits, IsSplit;
    sp := sp0;
    ghost var rest := stack[..sp];
    TopEntry(rest, top, loSt, hiSt, n);
    if parts == [] {
      assert rest + parts == rest;
    } else {
      StackBound(sp, top.Size(), n);
      PushParts(rest, top, parts[0], parts[1], loSt, hiSt, n);
      sp := Push(stack, sp, parts[0]);
      sp := Push(stack, sp, parts[1]);
      assert rest + parts == rest + [parts[0]] + [parts[1]] == rest + [parts[0], parts[1]];
    }
  }

  lemma StackStart(f: seq<int>, e: seq<int>, loSt: int, hiSt: int)
    requires 0 <= loSt <= hiSt < |f| && InRange(f, |e|)
    ensures var ranges, n := [Range(loSt, hiSt)], hiSt - loSt + 1;
            SortedButFor(f, e, loSt, hiSt, ranges) && Shrinking(ranges, n) && Apart(ranges, loSt, hiSt)
    ensures Rearranges(f, f, loSt, hiSt)
  {
    var ranges := [Range(loSt, hiSt)];
    assert ranges[0].lo == loSt && ranges[0].hi == hiSt;
    assert ranges[0].Size() * Pow2(0) == hiSt - loSt + 1;
  }

  lemma StackEmpty(f: seq<int>, e: seq<int>, loSt: int, hiSt: int)
    requires 0 <= loSt && hiSt < |f| && InRange(f, |e|) && SortedButFor(f, e, loSt, hiSt, [])
    ensures SortedByKey(f, e, loSt, hiSt)
  {
  }

  lemma KeyOrder(f: seq<int>, e: seq<int>, lo: int, hi: int)
    requires 0 <= lo && hi < |f| && InRange(f, |e|) && SortedByKey(f, e, lo, hi)
    ensures forall x, y :: lo <= x <= y <= hi ==> e[f[x]] <= e[f[y]]
  {
  }

  lemma PartsCover(f: seq<int>, e: seq<int>, lo: int, n: int, m: int, hi: int, parts: seq<Range>)
    requires 0 <= lo && hi < |f| && InRange(f, |e|)
    requires forall x, y :: lo <= x <= y <= hi ==> e[f[x]] <= e[f[y]] || y <= n || m <= x
    requires parts == [Range(lo, n), Range(m, hi)] || parts == [Range(m, hi), Range(lo, n)]
    ensures forall x, y :: lo <= x <= y <= hi ==> e[f[x]] <= e[f[y]] || Together(parts, x, y)
  {
    forall x, y | lo <= x <= y <= hi ensures e[f[x]] <= e[f[y]] || Together(parts, x, y) {
      if y <= n || m <= x { assert (parts[0].lo <= x && y <= parts[0].hi) || (parts[1].lo <= x && y <= parts[1].hi); }
    }
  }
}
