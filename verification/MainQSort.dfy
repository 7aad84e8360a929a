/** mainQSort3 of blocksort.c: three-way quicksort of rotations by one letter at a time, with an explicit stack. */
module MainQSort {
  import opened Common
  import opened Rotations
  import opened MainOrder
  import opened MainSimpleSort
  import Q = FallbackQSort

  const SMALL_THRESH := 20
  const DEPTH_THRESH := N_RADIX + N_QSORT
  const STACK_SIZE := 100

  /** Letter d of every rotation. */
  function Keys(s: seq<int>, d: nat): (c: seq<int>)
    requires s != []
    ensures |c| == |s|
  {
    seq(|s|, i requires 0 <= i < |s| => Ch(s, i, d))
  }

  /** block[ptr[x] + d]. */
  method Letter(block: array<int>, i: int, d: int, ghost s: seq<int>) returns (c: int)
    requires Extended(s, block[..]) && 0 <= i < |s| && 0 <= d <= DEPTH_THRESH
    ensures s != [] && c == Keys(s, d)[i]
  {
    Reaches(s, block[..], i, d);
    assert block[i + d] == block[..][i + d];
    c := block[i + d];
  }

  /** mmed3. */
  function Med3(a0: int, b0: int, c: int): (m: int)
    ensures m == a0 || m == b0 || m == c
    ensures (m <= a0 || m <= b0) && (m <= a0 || m <= c) && (m <= b0 || m <= c)
    ensures (m >= a0 || m >= b0) && (m >= a0 || m >= c) && (m >= b0 || m >= c)
  {
    var a, b := if a0 > b0 then b0 else a0, if a0 > b0 then a0 else b0;
    if b > c then if a > c then a else c else b
  }

  /** The partition loop: equal letters collect at both ends, smaller and larger ones meet in the middle. */
  method Partition(ptr: array<int>, block: array<int>, lo: int, hi: int, d: int, med: int, ghost s: seq<int>) returns (unLo: int, ltLo: int, gtHi: int)
    requires ptr != block && Extended(s, block[..]) && 0 <= lo <= hi < ptr.Length && InRange(ptr[..], |s|) && 0 <= d <= DEPTH_THRESH && s != []
    modifies ptr
    ensures Q.Rearranges(old(ptr[..]), ptr[..], lo, hi)
    ensures Q.Parts(ptr[..], Keys(s, d), lo, ltLo, unLo, unLo - 1, gtHi, hi, med)
  {
    unLo, ltLo, gtHi := lo, lo, hi;
    var unHi := hi;
    ghost var was, e := ptr[..], Keys(s, d);
    Q.PartsStart(was, e, lo, hi, med);
    hide *;
    var met := false;
    while !met
      invariant Q.Rearranges(was, ptr[..], lo, hi) && Q.Parts(ptr[..], e, lo, ltLo, unLo, unHi, gtHi, hi, med)
      invariant met ==> unHi == unLo - 1
      decreases unHi - unLo, !met
    {
      met, unLo, ltLo, unHi, gtHi := PartitionTurn(ptr, block, lo, hi, unLo, ltLo, unHi, gtHi, d, med, s, was, e);
    }
  }

  /** Scans from both sides and exchanges the two entries on which the scans stopped, unless they met. */
  method PartitionTurn(ptr: array<int>, block: array<int>, lo: int, hi: int, unLo0: int, ltLo0: int, unHi0: int, gtHi0: int, d: int, med: int,
                       ghost s: seq<int>, ghost was: seq<int>, ghost e: seq<int>)
    returns (met: bool, unLo: int, ltLo: int, unHi: int, gtHi: int)
    requires ptr != block && Extended(s, block[..]) && 0 <= d <= DEPTH_THRESH && s != [] && e == Keys(s, d)
    requires Q.Rearranges(was, ptr[..], lo, hi) && Q.Parts(ptr[..], e, lo, ltLo0, unLo0, unHi0, gtHi0, hi, med)
    modifies ptr
    ensures Q.Rearranges(was, ptr[..], lo, hi) && Q.Parts(ptr[..], e, lo, ltLo, unLo, unHi, gtHi, hi, med)
    ensures if met then unHi == unLo - 1 && unHi - unLo <= unHi0 - unLo0 else unHi - unLo < unHi0 - unLo0 && unLo0 <= unHi0
  {
    hide *;
    Q.PartsShape(ptr[..], e, lo, ltLo0, unLo0, unHi0, gtHi0, hi, med);
    ghost var f := ptr[..];
    unLo, ltLo := ScanUp(ptr, block, lo, hi, unLo0, ltLo0, unHi0, gtHi0, d, med, s);
    ghost var g := ptr[..];
    Q.PartsShape(g, e, lo, ltLo, unLo, unHi0, gtHi0, hi, med);
    Q.RearrangesTwice(was, f, g, lo, hi, lo, unHi0);
    unHi, gtHi := ScanDown(ptr, block, lo, hi, unLo, ltLo, unHi0, gtHi0, d, med, s);
    ghost var h := ptr[..];
    Q.PartsShape(h, e, lo, ltLo, unLo, unHi, gtHi, hi, med);
    Q.RearrangesTwice(was, g, h, lo, hi, unLo, hi);
    met := unLo > unHi;
    if !met {
      Q.Swap(ptr, unLo, unHi);
      Q.PartsSwapBoth(was, h, ptr[..], e, lo, ltLo, unLo, unHi, gtHi, hi, med);
      unLo, unHi := unLo + 1, unHi - 1;
    }
  }

  method ScanUp(ptr: array<int>, block: array<int>, lo: int, hi: int, unLo0: int, ltLo0: int, unHi: int, gtHi: int, d: int, med: int, ghost s: seq<int>)
    returns (unLo: int, ltLo: int)
    requires ptr != block && Extended(s, block[..]) && 0 <= d <= DEPTH_THRESH && s != []
    requires Q.Parts(ptr[..], Keys(s, d), lo, ltLo0, unLo0, unHi, gtHi, hi, med)
    modifies ptr
    ensures Q.Parts(ptr[..], Keys(s, d), lo, ltLo, unLo, unHi, gtHi, hi, med) && unLo0 <= unLo
    ensures Q.Rearranges(old(ptr[..]), ptr[..], lo, unHi)
    ensures unLo <= unHi ==> 0 <= unLo < ptr.Length && 0 <= ptr[unLo] < |s| && Keys(s, d)[ptr[unLo]] > med
  {
    unLo, ltLo := unLo0, ltLo0;
    ghost var was, e := ptr[..], Keys(s, d);
    Q.PartsShape(was, e, lo, ltLo, unLo, unHi, gtHi, hi, med);
    Q.InPlace(was, lo, unHi);
    hide *;
    var stop := false;
    while !stop && unLo <= unHi
      invariant Q.Rearranges(was, ptr[..], lo, unHi) && Q.Parts(ptr[..], e, lo, ltLo, unLo, unHi, gtHi, hi, med) && unLo0 <= unLo
      invariant stop ==> unLo <= unHi && Q.Beyond(ptr[..], e, unLo, med)
      decreases unHi - unLo, !stop
    {
      stop, ltLo := UpTurn(ptr, block, lo, ltLo, unLo, unHi, gtHi, hi, d, med, s, was, e);
      if !stop { unLo := unLo + 1; }
    }
    if stop { Q.BeyondIs(ptr[..], e, unLo, med); }
  }

  /** One entry from below: larger ones stop the scan, equal ones go to the left end. */
  method UpTurn(ptr: array<int>, block: array<int>, lo: int, ltLo: int, unLo: int, unHi: int, gtHi: int, hi: int, d: int, med: int,
                ghost s: seq<int>, ghost was: seq<int>, ghost e: seq<int>)
    returns (stop: bool, ltLo': int)
    requires ptr != block && Extended(s, block[..]) && 0 <= d <= DEPTH_THRESH && s != [] && e == Keys(s, d) && unLo <= unHi
    requires Q.Rearranges(was, ptr[..], lo, unHi) && Q.Parts(ptr[..], e, lo, ltLo, unLo, unHi, gtHi, hi, med)
    modifies ptr
    ensures Q.Rearranges(was, ptr[..], lo, unHi)
    ensures Q.Parts(ptr[..], e, lo, ltLo', if stop then unLo else unLo + 1, unHi, gtHi, hi, med) && (stop ==> Q.Beyond(ptr[..], e, unLo, med))
  {
    ghost var f := ptr[..];
    Q.PartsShape(f, e, lo, ltLo, unLo, unHi, gtHi, hi, med);
    hide *;
    var c := Letter(block, ptr[unLo], d, s);
    stop, ltLo' := false, ltLo;
    if c > med {
      stop := true;
      Q.BeyondIf(f, e, unLo, med);
    } else if c == med {
      Q.Swap(ptr, unLo, ltLo);
      Q.PartsSwapLo(was, f, ptr[..], e, lo, ltLo, unLo, unHi, gtHi, hi, med);
      ltLo' := ltLo + 1;
    } else {
      Q.PartsPassLo(f, e, lo, ltLo, unLo, unHi, gtHi, hi, med);
    }
  }

  method ScanDown(ptr: array<int>, block: array<int>, lo: int, hi: int, unLo: int, ltLo: int, unHi0: int, gtHi0: int, d: int, med: int, ghost s: seq<int>)
    returns (unHi: int, gtHi: int)
    requires ptr != block && Extended(s, block[..]) && 0 <= d <= DEPTH_THRESH && s != []
    requires Q.Parts(ptr[..], Keys(s, d), lo, ltLo, unLo, unHi0, gtHi0, hi, med)
    requires unLo <= unHi0 ==> 0 <= unLo < ptr.Length && 0 <= ptr[unLo] < |s| && Keys(s, d)[ptr[unLo]] > med
    modifies ptr
    ensures Q.Parts(ptr[..], Keys(s, d), lo, ltLo, unLo, unHi, gtHi, hi, med) && unHi <= unHi0
    ensures Q.Rearranges(old(ptr[..]), ptr[..], unLo, hi)
    ensures unLo <= unHi ==> 0 <= unLo < unHi < ptr.Length && 0 <= ptr[unLo] < |s| && 0 <= ptr[unHi] < |s|
                             && Keys(s, d)[ptr[unHi]] < med < Keys(s, d)[ptr[unLo]]
  {
    unHi, gtHi := unHi0, gtHi0;
    ghost var was, e := ptr[..], Keys(s, d);
    Q.PartsShape(was, e, lo, ltLo, unLo, unHi, gtHi, hi, med);
    Q.InPlace(was, unLo, hi);
    if unLo <= unHi { Q.BeyondIf(was, e, unLo, med); }
    hide *;
    var stop := false;
    while !stop && unLo <= unHi
      invariant Q.Rearranges(was, ptr[..], unLo, hi) && Q.Parts(ptr[..], e, lo, ltLo, unLo, unHi, gtHi, hi, med) && unHi <= unHi0
      invariant unLo <= unHi ==> Q.Beyond(ptr[..], e, unLo, med)
      invariant stop ==> unLo < unHi && Q.Short(ptr[..], e, unHi, med)
      decreases unHi - unLo, !stop
    {
      stop, gtHi := DownTurn(ptr, block, lo, ltLo, unLo, unHi, gtHi, hi, d, med, s, was, e);
      if !stop { unHi := unHi - 1; }
    }
    if stop {
      Q.BeyondIs(ptr[..], e, unLo, med);
      Q.ShortIs(ptr[..], e, unHi, med);
    }
  }

  /** One entry from above: smaller ones stop the scan, equal ones go to the right end. */
  method DownTurn(ptr: array<int>, block: array<int>, lo: int, ltLo: int, unLo: int, unHi: int, gtHi: int, hi: int, d: int, med: int,
                  ghost s: seq<int>, ghost was: seq<int>, ghost e: seq<int>)
    returns (stop: bool, gtHi': int)
    requires ptr != block && Extended(s, block[..]) && 0 <= d <= DEPTH_THRESH && s != [] && e == Keys(s, d) && unLo <= unHi
    requires Q.Rearranges(was, ptr[..], unLo, hi) && Q.Parts(ptr[..], e, lo, ltLo, unLo, unHi, gtHi, hi, med) && Q.Beyond(ptr[..], e, unLo, med)
    modifies ptr
    ensures Q.Rearranges(was, ptr[..], unLo, hi)
    ensures Q.Parts(ptr[..], e, lo, ltLo, unLo, if stop then unHi else unHi - 1, gtHi', hi, med)
    ensures stop ==> unLo < unHi && Q.Short(ptr[..], e, unHi, med) && Q.Beyond(ptr[..], e, unLo, med)
    ensures !stop && unLo < unHi ==> Q.Beyond(ptr[..], e, unLo, med)
  {
    ghost var f := ptr[..];
    Q.PartsShape(f, e, lo, ltLo, unLo, unHi, gtHi, hi, med);
    Q.BeyondIs(f, e, unLo, med);
    hide *;
    var c := Letter(block, ptr[unHi], d, s);
    stop, gtHi' := false, gtHi;
    if c < med {
      stop := true;
      Q.ShortIf(f, e, unHi, med);
    } else if c == med {
      Q.Swap(ptr, unHi, gtHi);
      Q.PartsSwapHi(was, f, ptr[..], e, lo, ltLo, unLo, unHi, gtHi, hi, med);
      Q.BeyondIf(ptr[..], e, unLo, med);
      gtHi' := gtHi - 1;
    } else {
      Q.PartsPassHi(f, e, lo, ltLo, unLo, unHi, gtHi, hi, med);
    }
  }

  // ---- splitting a range ----

  /** One more common letter. */
  lemma Deeper(s: seq<int>, f: seq<int>, lo: int, hi: int, d: nat, med: int)
    requires SameTo(s, f, lo, hi, d) && Q.Side(f, Keys(s, d), lo, hi, med, 0)
    ensures SameTo(s, f, lo, hi, d + 1)
  {
    forall x, y | lo <= x <= hi && lo <= y <= hi ensures Cmp(s, f[x], f[y], d + 1) == 0 {
      OneMoreLetter(s, f[x], f[y], d);
      assert Keys(s, d)[f[x]] == med == Keys(s, d)[f[y]];
    }
  }

  /** A smaller letter after d common ones. */
  lemma SmallerFirst(s: seq<int>, e: seq<int>, i: int, j: int, d: nat)
    requires s != [] && Ranks(s, e, |s|) && 0 <= i < |s| && 0 <= j < |s| && Cmp(s, i, j, d) == 0 && Keys(s, d)[i] < Keys(s, d)[j]
    ensures e[i] <= e[j]
  {
    OneMoreLetter(s, i, j, d);
    RankOrder(s, e, i, j);
  }

  /** Every pair is in order or lies in one of the three parts. */
  ghost predicate Ordered3(f: seq<int>, e: seq<int>, lo: int, n: int, m: int, hi: int)
    requires 0 <= lo && hi < |f| && InRange(f, |e|)
  {
    forall x, y :: lo <= x <= y <= hi ==> e[f[x]] <= e[f[y]] || y <= n || m <= x || (n < x && y < m)
  }

  lemma SidesOrdered(s: seq<int>, f: seq<int>, e: seq<int>, lo: int, n: int, m: int, hi: int, d: nat, med: int)
    requires s != [] && Ranks(s, e, |s|) && SameTo(s, f, lo, hi, d) && lo <= n + 1 <= m <= hi + 1 && InRange(f, |e|)
    requires Q.Side(f, Keys(s, d), lo, n, med, -1) && Q.Side(f, Keys(s, d), n + 1, m - 1, med, 0) && Q.Side(f, Keys(s, d), m, hi, med, 1)
    ensures Ordered3(f, e, lo, n, m, hi)
  {
    var c := Keys(s, d);
    forall x, y | lo <= x <= y <= hi && !(y <= n || m <= x || (n < x && y < m)) ensures e[f[x]] <= e[f[y]] {
      assert c[f[x]] < c[f[y]];
      SmallerFirst(s, e, f[x], f[y], d);
    }
  }

  /** Chooses the letter to split by and splits [lo, hi] into smaller, equal and larger; allEqual when there is nothing to split. */
  method SplitRange(ptr: array<int>, block: array<int>, lo: int, hi: int, d: int, ghost s: seq<int>, ghost e: seq<int>)
    returns (allEqual: bool, n: int, m: int)
    requires ptr != block && Extended(s, block[..]) && s != [] && Ranks(s, e, |s|) && 0 <= lo <= hi < ptr.Length && 0 <= d <= DEPTH_THRESH
    requires SameTo(s, ptr[..], lo, hi, d) && InRange(ptr[..], |e|)
    modifies ptr
    ensures Q.Rearranges(old(ptr[..]), ptr[..], lo, hi) && SameTo(s, ptr[..], lo, hi, d) && InRange(ptr[..], |e|)
    ensures allEqual ==> SameTo(s, ptr[..], lo, hi, d + 1)
    ensures !allEqual ==> lo - 1 <= n && m <= hi + 1 && n + 1 < m && SameTo(s, ptr[..], n + 1, m - 1, d + 1) && Ordered3(ptr[..], e, lo, n, m, hi)
  {
    hide *;
    ghost var was, c := ptr[..], Keys(s, d);
    RankCount(s, e);
    ghost var p;
    var med;
    med, p := PickLetter(ptr, block, lo, hi, d, s);
    var unLo, ltLo, gtHi := Partition(ptr, block, lo, hi, d, med, s);
    ghost var f := ptr[..];
    SameKept(s, was, f, lo, hi, d);
    Q.PartsShape(f, c, lo, ltLo, unLo, unLo - 1, gtHi, hi, med);
    KeyCount(s, d);
    allEqual, n, m := gtHi < ltLo, lo, hi;
    if allEqual {
      AllOne(f, c, lo, ltLo, unLo, gtHi, hi, med);
      Deeper(s, f, lo, hi, d, med);
      return;
    }
    n, m := Q.Gather(ptr, c, lo, hi, unLo, ltLo, gtHi, med);
    ghost var g := ptr[..];
    Q.RearrangesTwice(was, f, g, lo, hi, lo, hi);
    SidesSplit(s, was, f, g, e, lo, n, m, hi, d, med, p);
  }

  lemma RankCount(s: seq<int>, e: seq<int>)
    requires s != [] && Ranks(s, e, |s|)
    ensures |e| == |s|
  {
  }

  lemma KeyCount(s: seq<int>, d: nat)
    requires s != []
    ensures |Keys(s, d)| == |s|
  {
  }

  /** The letter to split by: the median of the first, the last and the middle one. */
  method PickLetter(ptr: array<int>, block: array<int>, lo: int, hi: int, d: int, ghost s: seq<int>) returns (med: int, ghost p: int)
    requires Extended(s, block[..]) && s != [] && 0 <= lo <= hi < ptr.Length && 0 <= d <= DEPTH_THRESH && InRange(ptr[..], |s|)
    ensures lo <= p <= hi && 0 <= ptr[p] < |s| && Keys(s, d)[ptr[p]] == med
  {
    assert 0 <= ptr[lo] < |s| && 0 <= ptr[hi] < |s| && 0 <= ptr[(lo + hi) / 2] < |s|;
    hide *;
    KeyCount(s, d);
    var c1 := Letter(block, ptr[lo], d, s);
    var c2 := Letter(block, ptr[hi], d, s);
    var c3 := Letter(block, ptr[(lo + hi) / 2], d, s);
    med := Med3(c1, c2, c3);
    p := if med == c1 then lo else if med == c2 then hi else (lo + hi) / 2;
  }

  /** What gathering the parts gives: a middle that is not empty and agrees on one more letter. */
  lemma SidesSplit(s: seq<int>, was: seq<int>, f: seq<int>, g: seq<int>, e: seq<int>, lo: int, n: int, m: int, hi: int, d: nat, med: int, p: int)
    requires s != [] && Ranks(s, e, |s|) && |e| == |s| && 0 <= lo <= n + 1 <= m <= hi + 1 && hi < |g| && InRange(g, |e|)
    requires SameTo(s, f, lo, hi, d) && Q.Rearranges(f, g, lo, hi) && Q.Rearranges(was, g, lo, hi) && InRange(was, |s|)
    requires Q.Side(g, Keys(s, d), lo, n, med, -1) && Q.Side(g, Keys(s, d), n + 1, m - 1, med, 0) && Q.Side(g, Keys(s, d), m, hi, med, 1)
    requires lo <= p <= hi < |was| && 0 <= was[p] < |s| && Keys(s, d)[was[p]] == med
    ensures SameTo(s, g, lo, hi, d) && n + 1 < m && SameTo(s, g, n + 1, m - 1, d + 1) && Ordered3(g, e, lo, n, m, hi)
  {
    hide *;
    var c := Keys(s, d);
    KeyCount(s, d);
    SameKept(s, f, g, lo, hi, d);
    Q.PivotStays(was, g, c, lo, hi, p);
    MiddleThere(g, c, lo, n, m, hi, med);
    SidesOrdered(s, g, e, lo, n, m, hi, d, med);
    SamePart(s, g, lo, hi, d, n + 1, m - 1);
    Deeper(s, g, n + 1, m - 1, d, med);
  }

  lemma AllOne(f: seq<int>, e: seq<int>, lo: int, ltLo: int, unLo: int, gtHi: int, hi: int, med: int)
    requires Q.Parts(f, e, lo, ltLo, unLo, unLo - 1, gtHi, hi, med) && gtHi < ltLo
    ensures Q.Side(f, e, lo, hi, med, 0)
  {
  }

  /** The letter to split by was taken from the range, so the middle part is not empty. */
  lemma MiddleThere(f: seq<int>, e: seq<int>, lo: int, n: int, m: int, hi: int, med: int)
    requires 0 <= lo <= n + 1 && m <= hi + 1 && hi < |f| && InRange(f, |e|) && lo <= m && n <= hi
    requires Q.Side(f, e, lo, n, med, -1) && Q.Side(f, e, m, hi, med, 1) && exists y :: lo <= y <= hi && e[f[y]] == med
    ensures n + 1 < m
  {
  }

  // ---- the stack ----

  /** A pending range and the depth its rotations agree to. */
  datatype Span = Span(lo: int, hi: int, d: int) {
    function Size(): int { hi - lo + 1 }

    function Weight(): int { 4 * (Size() * (MAX_DEPTH + 1 - d)) + 1 }
  }

  function Flat(spans: seq<Span>): (r: seq<Q.Range>)
    ensures |r| == |spans|
  {
    seq(|spans|, k requires 0 <= k < |spans| => Q.Range(spans[k].lo, spans[k].hi))
  }

  lemma FlatConcat(a: seq<Span>, b: seq<Span>)
    ensures Flat(a + b) == Flat(a) + Flat(b)
  {
  }

  /** Entry k of the stack has at most n / 2^(k / 2) entries: of three parts the largest is pushed first. */
  ghost predicate Shrinking(spans: seq<Span>, n: int) {
    forall k :: 0 <= k < |spans| ==> Q.Fits(spans[k].Size(), k / 2, n)
  }

  /** Every range agrees to its depth. */
  ghost predicate Deep(s: seq<int>, f: seq<int>, spans: seq<Span>) {
    forall k :: 0 <= k < |spans| ==> 0 <= spans[k].d <= MAX_DEPTH && SameTo(s, f, spans[k].lo, spans[k].hi, spans[k].d)
  }

  function Work(spans: seq<Span>): int {
    if spans == [] then 0 else Work(spans[..|spans| - 1]) + spans[|spans| - 1].Weight()
  }

  lemma WorkPush(rest: seq<Span>, r: Span)
    ensures Work(rest + [r]) == Work(rest) + r.Weight()
  {
    assert (rest + [r])[..|rest|] == rest;
  }

  lemma WeightPositive(r: Span)
    requires r.Size() >= 0 && r.d <= MAX_DEPTH
    ensures r.Weight() > 0
  {
    assert r.Size() * (MAX_DEPTH + 1 - r.d) >= 0;
  }

  lemma {:induction false} WorkNonNegative(spans: seq<Span>)
    requires forall k :: 0 <= k < |spans| ==> 0 <= spans[k].Size() && spans[k].d <= MAX_DEPTH
    ensures Work(spans) >= 0
  {
    if spans != [] {
      WorkNonNegative(spans[..|spans| - 1]);
      WeightPositive(spans[|spans| - 1]);
    }
  }

  predicate Apart2(a: Span, b: Span) { a.hi < b.lo || b.hi < a.lo }

  predicate Inside(a: Span, top: Span) { top.lo <= a.lo && a.hi <= top.hi && 0 <= a.Size() }

  /** What a popped range is replaced by: itself one letter deeper, or three parts, the largest first. */
  predicate IsSplit(top: Span, parts: seq<Span>) {
    if |parts| == 1 then IsDeeper(top, parts[0]) else |parts| == 3 && IsSplit3(top, parts[0], parts[1], parts[2])
  }

  predicate IsDeeper(top: Span, a: Span) {
    a == Span(top.lo, top.hi, top.d + 1) && top.d < MAX_DEPTH && top.Size() > 0
  }

  predicate IsSplit3(top: Span, a: Span, b: Span, c: Span) {
    Inside(a, top) && Inside(b, top) && Inside(c, top) && Apart2(a, b) && Apart2(a, c) && Apart2(b, c)
    && a.Size() >= b.Size() >= c.Size() && a.Size() + b.Size() + c.Size() == top.Size() && top.d < MAX_DEPTH
    && top.d <= a.d <= top.d + 1 && top.d <= b.d <= top.d + 1 && top.d <= c.d <= top.d + 1
    && ((a.d == top.d + 1 && a.Size() > 0) || (b.d == top.d + 1 && b.Size() > 0) || (c.d == top.d + 1 && c.Size() > 0))
  }

  lemma WeightSplit(top: Span, a: Span, b: Span, c: Span)
    requires a.Size() >= 0 && b.Size() >= 0 && c.Size() > 0 && a.Size() + b.Size() + c.Size() == top.Size()
    requires a.d >= top.d && b.d >= top.d && c.d == top.d + 1 <= MAX_DEPTH
    ensures a.Weight() + b.Weight() + c.Weight() < top.Weight()
  {
    var q := MAX_DEPTH + 1 - top.d;
    Product(a.Size(), MAX_DEPTH + 1 - a.d, q);
    Product(b.Size(), MAX_DEPTH + 1 - b.d, q);
    assert c.Size() * (q - 1) == c.Size() * q - c.Size();
    assert (a.Size() + b.Size() + c.Size()) * q == a.Size() * q + b.Size() * q + c.Size() * q;
  }

  lemma Product(x: int, y: int, z: int)
    requires x >= 0 && y <= z
    ensures x * y <= x * z
  {
  }

  lemma DeeperLighter(top: Span, a: Span)
    requires IsDeeper(top, a)
    ensures 0 < a.Weight() < top.Weight()
  {
    WeightPositive(a);
    var q := MAX_DEPTH + 1 - top.d;
    assert top.Size() * (q - 1) == top.Size() * q - top.Size();
  }

  lemma Split3Lighter(top: Span, a: Span, b: Span, c: Span)
    requires IsSplit3(top, a, b, c)
    ensures 0 < a.Weight() && 0 < b.Weight() && 0 < c.Weight() && a.Weight() + b.Weight() + c.Weight() < top.Weight()
  {
    WeightPositive(a);
    WeightPositive(b);
    WeightPositive(c);
    hide Span.Weight;
    if a.d == top.d + 1 && a.Size() > 0 { WeightSplit(top, b, c, a); }
    else if b.d == top.d + 1 && b.Size() > 0 { WeightSplit(top, a, c, b); }
    else { WeightSplit(top, a, b, c); }
  }

  lemma SplitLighter(rest: seq<Span>, top: Span, parts: seq<Span>)
    requires IsSplit(top, parts) && forall k :: 0 <= k < |rest| ==> 0 <= rest[k].Size() && rest[k].d <= MAX_DEPTH
    ensures 0 <= Work(rest + parts) < Work(rest + [top])
  {
    WorkPush(rest, top);
    WorkNonNegative(rest);
    hide Work, Span.Weight;
    if |parts| == 1 {
      assert parts == [parts[0]];
      WorkPush(rest, parts[0]);
      DeeperLighter(top, parts[0]);
    } else {
      var a, b, c := parts[0], parts[1], parts[2];
      Split3Lighter(top, a, b, c);
      hide IsSplit3;
      WorkPush(rest, a);
      WorkPush(rest + [a], b);
      WorkPush(rest + [a] + [b], c);
      assert rest + [a] + [b] + [c] == rest + parts;
    }
  }

  /** The parts keep the bound on sizes. */
  lemma SplitShrinks(rest: seq<Span>, top: Span, parts: seq<Span>, n: int)
    requires Shrinking(rest + [top], n) && IsSplit(top, parts)
    ensures Shrinking(rest + parts, n)
  {
    var s, s', k := rest + [top], rest + parts, |rest|;
    assert s[k] == top && forall j :: 0 <= j < k ==> s'[j] == s[j];
    forall j | 0 <= j < |s'| ensures Q.Fits(s'[j].Size(), j / 2, n) {
      if j < k {
        assert Q.Fits(s[j].Size(), j / 2, n);
      } else {
        var p := parts[j - k];
        assert s'[j] == p;
        if j == k {
          Q.FitsSmaller(top.Size(), p.Size(), k / 2, n);
        } else {
          if j / 2 == k / 2 { Q.FitsSmaller(top.Size(), p.Size(), k / 2, n); } else { Q.FitsHalf(top.Size(), p.Size(), k / 2, n); }
        }
      }
    }
  }

  /** A range that is still worth splitting cannot sit high on the stack. */
  lemma StackBound(k: nat, size: int, n: int)
    requires size > SMALL_THRESH && Q.Fits(size, k / 2, n) && n <= MAX_BLOCK
    ensures k <= 31
  {
    assert Pow2(8) == 256 by { assert Pow2(4) == 16; Pow2Add(4, 4); }
    Pow2Add(8, 8);
    Q.ScaleUp(21, size, Pow2(k / 2));
    if k / 2 >= 16 { Pow2Monotone(16, k / 2); }
  }

  lemma SplitApart(rest: seq<Span>, top: Span, parts: seq<Span>, loSt: int, hiSt: int)
    requires Q.Apart(Flat(rest + [top]), loSt, hiSt) && IsSplit(top, parts)
    ensures Q.Apart(Flat(rest + parts), loSt, hiSt)
  {
    hide *;
    FlatConcat(rest, [top]);
    FlatConcat(rest, parts);
    FlatOne(top);
    FlatParts(top, parts);
    ApartSplit(Flat(rest), Q.Range(top.lo, top.hi), Flat(parts), loSt, hiSt);
  }

  /** Ranges inside a popped one that share no position may take its place. */
  ghost predicate Within(parts: seq<Q.Range>, top: Q.Range) {
    (forall k :: 0 <= k < |parts| ==> top.lo <= parts[k].lo && parts[k].hi <= top.hi && (parts[k].Size() <= 0 || top.Size() > 0))
    && forall j, k :: 0 <= j < k < |parts| ==> parts[j].hi < parts[k].lo || parts[k].hi < parts[j].lo
  }

  lemma FlatParts(top: Span, parts: seq<Span>)
    requires IsSplit(top, parts)
    ensures Within(Flat(parts), Q.Range(top.lo, top.hi))
  {
  }

  lemma ApartSplit(rest: seq<Q.Range>, top: Q.Range, parts: seq<Q.Range>, loSt: int, hiSt: int)
    requires Q.Apart(rest + [top], loSt, hiSt) && Within(parts, top)
    ensures Q.Apart(rest + parts, loSt, hiSt)
  {
    var t, t', k := rest + [top], rest + parts, |rest|;
    TopApart(rest, top, loSt, hiSt);
    forall j | 0 <= j < k ensures rest[j].hi < top.lo || top.hi < rest[j].lo || rest[j].Size() <= 0 || top.Size() <= 0 { assert t[j] == rest[j] && t[k] == top; }
    forall j | 0 <= j < |t'| ensures t'[j] == if j < k then rest[j] else parts[j - k] {}
  }

  /** Ranges other than the popped one keep their rotations, and so what these agree on. */
  lemma DeepKept(s: seq<int>, f: seq<int>, g: seq<int>, rest: seq<Span>, top: Span, parts: seq<Span>, loSt: int, hiSt: int)
    requires Deep(s, f, rest + [top]) && Q.Apart(Flat(rest + [top]), loSt, hiSt) && Q.Rearranges(f, g, top.lo, top.hi) && Deep(s, g, parts)
    ensures Deep(s, g, rest + parts)
  {
    var t, k := rest + [top], |rest|;
    var s' := rest + parts;
    assert t[k] == top;
    Q.RearrangesRange(f, g, |s|);
    forall j | 0 <= j < |s'| ensures 0 <= s'[j].d <= MAX_DEPTH && SameTo(s, g, s'[j].lo, s'[j].hi, s'[j].d) {
      if j < k {
        var r := rest[j];
        assert t[j] == r && Flat(t)[j] == Q.Range(r.lo, r.hi) && Flat(t)[k] == Q.Range(top.lo, top.hi);
        assert SameTo(s, f, r.lo, r.hi, r.d);
        forall x | r.lo <= x <= r.hi ensures g[x] == f[x] {}
      } else {
        assert s'[j] == parts[j - k];
      }
    }
  }

  // ---- the sort ----

  /** The three parts, largest first: nextLo, nextHi and nextD after the exchanges. */
  method BySize(a: Span, b: Span, c: Span) returns (parts: seq<Span>)
    ensures |parts| == 3 && parts[0].Size() >= parts[1].Size() >= parts[2].Size()
    ensures parts == [a, b, c] || parts == [a, c, b] || parts == [b, a, c] || parts == [b, c, a] || parts == [c, a, b] || parts == [c, b, a]
  {
    var x, y, z := a, b, c;
    if x.Size() < y.Size() { x, y := y, x; }
    if y.Size() < z.Size() { y, z := z, y; }
    if x.Size() < y.Size() { x, y := y, x; }
    parts := [x, y, z];
  }

  /** Every pair of the range is in order or lies in one of the parts. */
  ghost predicate Settled(f: seq<int>, e: seq<int>, lo: int, hi: int, parts: seq<Span>) {
    0 <= lo && hi < |f| && InRange(f, |e|) && forall x, y :: lo <= x <= y <= hi ==> e[f[x]] <= e[f[y]] || Q.Together(Flat(parts), x, y)
  }

  /** What is left unordered after a split lies in its parts. */
  lemma PartsCover(f: seq<int>, e: seq<int>, lo: int, n: int, m: int, hi: int, d: int, parts: seq<Span>)
    requires 0 <= lo && hi < |f| && InRange(f, |e|) && Ordered3(f, e, lo, n, m, hi)
    requires var a, b, c := Span(lo, n, d), Span(m, hi, d), Span(n + 1, m - 1, d + 1); |parts| == 3 && a in parts && b in parts && c in parts
    ensures Settled(f, e, lo, hi, parts)
  {
    var a, b, c := Span(lo, n, d), Span(m, hi, d), Span(n + 1, m - 1, d + 1);
    var i :| 0 <= i < 3 && parts[i] == a;
    var j :| 0 <= j < 3 && parts[j] == b;
    var k :| 0 <= k < 3 && parts[k] == c;
    var r := Flat(parts);
    assert r[i] == Q.Range(lo, n) && r[j] == Q.Range(m, hi) && r[k] == Q.Range(n + 1, m - 1);
  }

  lemma PartsDeep(s: seq<int>, f: seq<int>, lo: int, n: int, m: int, hi: int, d: int, parts: seq<Span>)
    requires SameTo(s, f, lo, hi, d) && SameTo(s, f, n + 1, m - 1, d + 1) && 0 <= d < MAX_DEPTH && lo - 1 <= n && m <= hi + 1 && n < m
    requires var a, b, c := Span(lo, n, d), Span(m, hi, d), Span(n + 1, m - 1, d + 1); forall k :: 0 <= k < |parts| ==> parts[k] == a || parts[k] == b || parts[k] == c
    ensures Deep(s, f, parts)
  {
    SamePart(s, f, lo, hi, d, lo, n);
    SamePart(s, f, lo, hi, d, m, hi);
  }

  /** One turn of the main loop on a popped range: sorted, or split; parts is what to push. */
  method SortOrSplit(ptr: array<int>, block: array<int>, quadrant: array<int>, nblock: int, top: Span, budget0: int, ghost s: seq<int>, ghost e: seq<int>)
    returns (budget: int, parts: seq<Span>)
    requires ptr != block && ptr != quadrant && nblock == |s| && Sources(s, e, block[..], quadrant[..]) && |e| == |s| && InRange(ptr[..], |e|)
    requires 0 <= top.lo <= top.hi + 1 <= ptr.Length <= MAX_BLOCK && 0 <= top.d <= MAX_DEPTH && SameTo(s, ptr[..], top.lo, top.hi, top.d)
    modifies ptr
    ensures Q.Rearranges(old(ptr[..]), ptr[..], top.lo, top.hi) && InRange(ptr[..], |e|) && Frugal(s, old(ptr[..]), budget0, budget)
    ensures parts == [] || (IsSplit(top, parts) && top.Size() > SMALL_THRESH)
    ensures budget < 0 || (Deep(s, ptr[..], parts) && Settled(ptr[..], e, top.lo, top.hi, parts))
  {
    hide *;
    budget, parts := budget0, [];
    FrugalStart(s, ptr[..], budget0);
    var lo, hi, d := top.lo, top.hi, top.d;
    if hi - lo < SMALL_THRESH || d > DEPTH_THRESH {
      budget := SimpleSort(ptr, block, quadrant, nblock, lo, hi, d, budget, s, e);
      if budget >= 0 { NoParts(s, ptr[..], e, lo, hi); }
      return;
    }
    SourcesParts(s, e, block[..], quadrant[..]);
    LargeSpan(top, lo, hi);
    var allEqual, n, m := SplitRange(ptr, block, lo, hi, d, s, e);
    if allEqual {
      parts := [Span(lo, hi, d + 1)];
      WholePart(s, ptr[..], e, top, parts);
    } else {
      parts := BySize(Span(lo, n, d), Span(m, hi, d), Span(n + 1, m - 1, d + 1));
      PartsAre(Span(lo, n, d), Span(m, hi, d), Span(n + 1, m - 1, d + 1), parts);
      PartsCover(ptr[..], e, lo, n, m, hi, d, parts);
      PartsDeep(s, ptr[..], lo, n, m, hi, d, parts);
      PartsSplit(top, n, m, parts);
    }
  }

  lemma SourcesParts(s: seq<int>, e: seq<int>, block: seq<int>, quadrant: seq<int>)
    requires Sources(s, e, block, quadrant)
    ensures s != [] && Extended(s, block) && Ranks(s, e, |s|)
  {
  }

  lemma LargeSpan(top: Span, lo: int, hi: int)
    requires lo == top.lo && hi == top.hi
    ensures top.Size() == hi - lo + 1 && SMALL_THRESH == 20 && DEPTH_THRESH < MAX_DEPTH
  {
  }

  lemma NoParts(s: seq<int>, f: seq<int>, e: seq<int>, lo: int, hi: int)
    requires 0 <= lo && hi < |f| && InRange(f, |e|) && Q.SortedByKey(f, e, lo, hi)
    ensures Deep(s, f, []) && Settled(f, e, lo, hi, [])
  {
  }

  /** However they are ordered by size, the parts are those three. */
  lemma PartsAre(a: Span, b: Span, c: Span, parts: seq<Span>)
    requires parts == [a, b, c] || parts == [a, c, b] || parts == [b, a, c] || parts == [b, c, a] || parts == [c, a, b] || parts == [c, b, a]
    ensures |parts| == 3 && a in parts && b in parts && c in parts
    ensures forall k :: 0 <= k < |parts| ==> parts[k] == a || parts[k] == b || parts[k] == c
  {
  }

  lemma WholePart(s: seq<int>, f: seq<int>, e: seq<int>, top: Span, parts: seq<Span>)
    requires parts == [Span(top.lo, top.hi, top.d + 1)] && 0 <= top.d < MAX_DEPTH && top.Size() > 0 && SameTo(s, f, top.lo, top.hi, top.d + 1)
    requires 0 <= top.lo && top.hi < |f| && InRange(f, |e|)
    ensures IsSplit(top, parts) && Deep(s, f, parts) && Settled(f, e, top.lo, top.hi, parts)
  {
    assert Flat(parts)[0] == Q.Range(top.lo, top.hi);
  }

  lemma PartsSplit(top: Span, n: int, m: int, parts: seq<Span>)
    requires top.lo - 1 <= n && m <= top.hi + 1 && n + 1 < m && 0 <= top.d < MAX_DEPTH
    requires |parts| == 3 && parts[0].Size() >= parts[1].Size() >= parts[2].Size()
    requires var a, b, c := Span(top.lo, n, top.d), Span(m, top.hi, top.d), Span(n + 1, m - 1, top.d + 1);
             parts == [a, b, c] || parts == [a, c, b] || parts == [b, a, c] || parts == [b, c, a] || parts == [c, a, b] || parts == [c, b, a]
    ensures IsSplit(top, parts)
  {
  }

  /** What the stack invariants say about its top entry. */
  lemma TopEntry(s: seq<int>, f: seq<int>, rest: seq<Span>, top: Span, loSt: int, hiSt: int, n: int)
    requires Shrinking(rest + [top], n) && Q.Apart(Flat(rest + [top]), loSt, hiSt) && Deep(s, f, rest + [top])
    ensures Q.Fits(top.Size(), |rest| / 2, n) && 0 <= top.Size() && loSt <= top.lo && top.hi <= hiSt
    ensures 0 <= top.d <= MAX_DEPTH && SameTo(s, f, top.lo, top.hi, top.d)
    ensures Shrinking(rest, n) && Q.Apart(Flat(rest), loSt, hiSt) && Deep(s, f, rest) && 0 <= Work(rest) < Work(rest + [top])
    ensures forall k :: 0 <= k < |rest| ==> 0 <= rest[k].Size() && rest[k].d <= MAX_DEPTH
  {
    hide *;
    TopShrinks(rest, top, n);
    FlatConcat(rest, [top]);
    FlatOne(top);
    TopApart(Flat(rest), Q.Range(top.lo, top.hi), loSt, hiSt);
    TopDeep(s, f, rest, top);
    WorkPush(rest, top);
    WeightPositive(top);
    WorkNonNegative(rest);
  }

  lemma FlatOne(top: Span)
    ensures Flat([top]) == [Q.Range(top.lo, top.hi)]
  {
  }

  lemma TopShrinks(rest: seq<Span>, top: Span, n: int)
    requires Shrinking(rest + [top], n)
    ensures Shrinking(rest, n) && Q.Fits(top.Size(), |rest| / 2, n) && 0 <= top.Size() && forall k :: 0 <= k < |rest| ==> 0 <= rest[k].Size()
  {
    var t := rest + [top];
    assert t[|rest|] == top;
    forall k | 0 <= k < |rest| ensures t[k] == rest[k] && Q.Fits(rest[k].Size(), k / 2, n) {}
  }

  lemma TopApart(rest: seq<Q.Range>, top: Q.Range, loSt: int, hiSt: int)
    requires Q.Apart(rest + [top], loSt, hiSt)
    ensures Q.Apart(rest, loSt, hiSt) && loSt <= top.lo && top.hi <= hiSt
  {
    var t := rest + [top];
    assert t[|rest|] == top && forall k :: 0 <= k < |rest| ==> t[k] == rest[k];
  }

  lemma TopDeep(s: seq<int>, f: seq<int>, rest: seq<Span>, top: Span)
    requires Deep(s, f, rest + [top])
    ensures Deep(s, f, rest) && 0 <= top.d <= MAX_DEPTH && SameTo(s, f, top.lo, top.hi, top.d) && forall k :: 0 <= k < |rest| ==> rest[k].d <= MAX_DEPTH
  {
    hide SameTo;
    var t := rest + [top];
    assert t[|rest|] == top && forall k :: 0 <= k < |rest| ==> t[k] == rest[k];
  }

  lemma StackStart(s: seq<int>, f: seq<int>, e: seq<int>, loSt: int, hiSt: int, d: int)
    requires 0 <= loSt <= hiSt < |f| && InRange(f, |e|) && SameTo(s, f, loSt, hiSt, d) && 0 <= d <= MAX_DEPTH
    ensures var spans, n := [Span(loSt, hiSt, d)], hiSt - loSt + 1;
            Q.SortedButFor(f, e, loSt, hiSt, Flat(spans)) && Shrinking(spans, n) && Q.Apart(Flat(spans), loSt, hiSt) && Deep(s, f, spans)
    ensures Q.Rearranges(f, f, loSt, hiSt)
  {
    var spans := [Span(loSt, hiSt, d)];
    assert Flat(spans) == [Q.Range(loSt, hiSt)];
    Q.StackStart(f, e, loSt, hiSt);
    assert Q.Fits(spans[0].Size(), 0, hiSt - loSt + 1) by { assert spans[0].Size() * Pow2(0) == hiSt - loSt + 1; }
  }

  /** The state of the main loop. */
  ghost predicate Sorting(s: seq<int>, e: seq<int>, was: seq<int>, f: seq<int>, loSt: int, hiSt: int, spans: seq<Span>) {
    0 <= loSt <= hiSt < |f| && InRange(f, |e|) && Q.Rearranges(was, f, loSt, hiSt)
    && Shrinking(spans, hiSt - loSt + 1) && Q.Apart(Flat(spans), loSt, hiSt) && Deep(s, f, spans) && Q.SortedButFor(f, e, loSt, hiSt, Flat(spans))
  }

  /** A turn of the main loop keeps that state and lessens the work. */
  lemma Turned(s: seq<int>, e: seq<int>, was: seq<int>, f: seq<int>, g: seq<int>, loSt: int, hiSt: int, rest: seq<Span>, top: Span, parts: seq<Span>)
    requires Sorting(s, e, was, f, loSt, hiSt, rest + [top]) && Q.Rearranges(f, g, top.lo, top.hi) && InRange(g, |e|) && Deep(s, g, parts)
    requires Settled(g, e, top.lo, top.hi, parts)
    requires parts == [] || IsSplit(top, parts)
    ensures Sorting(s, e, was, g, loSt, hiSt, rest + parts) && 0 <= Work(rest + parts) < Work(rest + [top])
  {
    TopEntry(s, f, rest, top, loSt, hiSt, hiSt - loSt + 1);
    FlatConcat(rest, [top]);
    FlatConcat(rest, parts);
    assert Flat([top]) == [Q.Range(top.lo, top.hi)];
    hide Shrinking, Q.Apart, Deep, SameTo, Q.SortedButFor, Work, Q.Fits, IsSplit, Settled;
    Q.RearrangesTwice(was, f, g, loSt, hiSt, top.lo, top.hi);
    DeepKept(s, f, g, rest, top, parts, loSt, hiSt);
    hide Q.Rearranges, InRange;
    if parts == [] {
      assert rest + parts == rest;
    } else {
      SplitShrinks(rest, top, parts, hiSt - loSt + 1);
      SplitApart(rest, top, parts, loSt, hiSt);
      SplitLighter(rest, top, parts);
    }
    SettledFlat(f, g, e, loSt, hiSt, rest, top, parts);
  }

  lemma SettledFlat(f: seq<int>, g: seq<int>, e: seq<int>, loSt: int, hiSt: int, rest: seq<Span>, top: Span, parts: seq<Span>)
    requires 0 <= loSt <= top.lo && top.hi <= hiSt < |f| && InRange(f, |e|) && InRange(g, |e|)
    requires Q.SortedButFor(f, e, loSt, hiSt, Flat(rest + [top])) && Q.Apart(Flat(rest + [top]), loSt, hiSt) && Q.Rearranges(f, g, top.lo, top.hi)
    requires Settled(g, e, top.lo, top.hi, parts)
    ensures hiSt < |g| && Q.SortedButFor(g, e, loSt, hiSt, Flat(rest + parts))
  {
    FlatConcat(rest, [top]);
    FlatConcat(rest, parts);
    assert Flat([top]) == [Q.Range(top.lo, top.hi)];
    Q.RangeSettled(f, g, e, loSt, hiSt, Flat(rest), Q.Range(top.lo, top.hi), Flat(parts));
  }

  /** mpush, for each part in turn. */
  method PushAll(stack: array<Span>, sp0: int, parts: seq<Span>) returns (sp: int)
    requires 0 <= sp0 && sp0 + |parts| <= stack.Length && |parts| <= 3
    modifies stack
    ensures sp == sp0 + |parts| && stack[..sp] == old(stack[..sp0]) + parts
  {
    sp := sp0;
    var k := 0;
    while k < |parts|
      invariant 0 <= k <= |parts| && sp == sp0 + k && stack[..sp] == old(stack[..sp0]) + parts[..k]
    {
      stack[sp] := parts[k];
      sp, k := sp + 1, k + 1;
    }
    assert parts[..k] == parts;
  }

  lemma SortingTop(s: seq<int>, e: seq<int>, was: seq<int>, f: seq<int>, loSt: int, hiSt: int, rest: seq<Span>, top: Span)
    requires Sorting(s, e, was, f, loSt, hiSt, rest + [top])
    ensures 0 <= loSt <= top.lo <= top.hi + 1 <= hiSt + 1 <= |f| && 0 <= top.d <= MAX_DEPTH && SameTo(s, f, top.lo, top.hi, top.d) && InRange(f, |e|)
    ensures Q.Fits(top.Size(), |rest| / 2, hiSt - loSt + 1) && Q.Rearranges(was, f, loSt, hiSt)
  {
    TopEntry(s, f, rest, top, loSt, hiSt, hiSt - loSt + 1);
  }

  /** A turn of the main loop. */
  method StackTurn(ptr: array<int>, block: array<int>, quadrant: array<int>, nblock: int, stack: array<Span>, sp0: int, budget0: int,
                   ghost was: seq<int>, ghost loSt: int, ghost hiSt: int, ghost s: seq<int>, ghost e: seq<int>) returns (budget: int, sp: int)
    requires ptr != block && ptr != quadrant && nblock == |s| && Sources(s, e, block[..], quadrant[..]) && |e| == |s|
    requires ptr.Length <= MAX_BLOCK && hiSt < ptr.Length && stack.Length == STACK_SIZE && 0 < sp0 <= 34
    requires Sorting(s, e, was, ptr[..], loSt, hiSt, stack[..sp0])
    modifies ptr, stack
    ensures Q.Rearranges(was, ptr[..], loSt, hiSt) && InRange(ptr[..], |e|) && Frugal(s, was, budget0, budget) && 0 <= sp <= 34
    ensures budget < 0 || (Sorting(s, e, was, ptr[..], loSt, hiSt, stack[..sp]) && 0 <= Work(stack[..sp]) < Work(old(stack[..sp0])))
  {
    sp := sp0 - 1;
    var top := stack[sp];
    ghost var f, rest := ptr[..], stack[..sp];
    assert stack[..sp0] == rest + [top];
    hide Sources, Q.Rearranges, Sorting, Work, SameTo, Deep, InRange, IsSplit, Settled, Q.Fits, Frugal;
    SortingTop(s, e, was, f, loSt, hiSt, rest, top);
    var parts;
    budget, parts := SortOrSplit(ptr, block, quadrant, nblock, top, budget0, s, e);
    ghost var g := ptr[..];
    Q.RearrangesTwice(was, f, g, loSt, hiSt, top.lo, top.hi);
    FrugalStart(s, was, budget0);
    FrugalNext(s, was, f, loSt, hiSt, budget0, budget0, budget);
    if budget < 0 { return; }
    Turned(s, e, was, f, g, loSt, hiSt, rest, top, parts);
    if parts != [] {
      StackBound(sp, top.Size(), hiSt - loSt + 1);
      SplitLength(top, parts);
    }
    sp := PushAll(stack, sp, parts);
  }

  lemma SplitLength(top: Span, parts: seq<Span>)
    requires IsSplit(top, parts)
    ensures |parts| <= 3
  {
  }

  lemma SortingDone(s: seq<int>, e: seq<int>, was: seq<int>, f: seq<int>, loSt: int, hiSt: int)
    requires Sorting(s, e, was, f, loSt, hiSt, [])
    ensures 0 <= loSt && hiSt < |f| && InRange(f, |e|) && Q.SortedByKey(f, e, loSt, hiSt)
  {
    assert Flat([]) == [];
    Q.StackEmpty(f, e, loSt, hiSt);
  }

  /** mainQSort3: sorts the range by rotation order unless the budget runs out; the explicit stack never overflows. */
  method QSort3(ptr: array<int>, block: array<int>, quadrant: array<int>, nblock: int, loSt: int, hiSt: int, dSt: int, budget0: int,
                ghost s: seq<int>, ghost e: seq<int>) returns (budget: int)
    requires ptr != block && ptr != quadrant && nblock == |s| && Sources(s, e, block[..], quadrant[..]) && |e| == |s| && InRange(ptr[..], |e|)
    requires 0 <= loSt <= hiSt < ptr.Length <= MAX_BLOCK && 0 <= dSt <= MAX_DEPTH && SameTo(s, ptr[..], loSt, hiSt, dSt)
    modifies ptr
    ensures Q.Rearranges(old(ptr[..]), ptr[..], loSt, hiSt) && InRange(ptr[..], |e|) && Frugal(s, old(ptr[..]), budget0, budget)
    ensures budget < 0 || Q.SortedByKey(ptr[..], e, loSt, hiSt)
  {
    budget := budget0;
    var stack := new Span[STACK_SIZE]; // stackLo, stackHi and stackD side by side
    ghost var was := ptr[..];
    StackBegins(s, was, e, loSt, hiSt, dSt);
    FrugalStart(s, was, budget0);
    hide Q.Rearranges, Sorting, Q.SortedByKey, Work, SameTo, Sources, InRange, Frugal;
    var sp := PushAll(stack, 0, [Span(loSt, hiSt, dSt)]);
    assert stack[..sp] == [Span(loSt, hiSt, dSt)];
    while sp > 0
      invariant 0 <= sp <= 34 && Frugal(s, was, budget0, budget) && InRange(ptr[..], |e|) && Q.Rearranges(was, ptr[..], loSt, hiSt)
      invariant Sorting(s, e, was, ptr[..], loSt, hiSt, stack[..sp])
      decreases Work(stack[..sp])
    {
      assert sp < STACK_SIZE - 2; // assertion 1001
      ghost var b := budget;
      budget, sp := StackTurn(ptr, block, quadrant, nblock, stack, sp, budget, was, loSt, hiSt, s, e);
      FrugalMore(s, was, budget0, b, budget);
      if budget < 0 { return; }
    }
    assert stack[..sp] == [];
    SortingDone(s, e, was, ptr[..], loSt, hiSt);
  }

  lemma StackBegins(s: seq<int>, f: seq<int>, e: seq<int>, loSt: int, hiSt: int, d: int)
    requires 0 <= loSt <= hiSt < |f| && InRange(f, |e|) && SameTo(s, f, loSt, hiSt, d) && 0 <= d <= MAX_DEPTH
    ensures Sorting(s, e, f, f, loSt, hiSt, [Span(loSt, hiSt, d)]) && Q.Rearranges(f, f, loSt, hiSt)
  {
    StackStart(s, f, e, loSt, hiSt, d);
  }
}
