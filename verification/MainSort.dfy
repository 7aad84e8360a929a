/** mainSort of blocksort.c: the loop over the big buckets. Step 1 sorts what is left of a big bucket, Step 2 scans it to sort one
    small bucket of every other, Step 3 turns its order into quadrant values. */
module MainSort {
  import opened Common
  import opened Rotations
  import opened BucketScan
  import opened MainScan
  import opened MainOrder
  import opened MainSimpleSort
  import opened MainRadix
  import Main = MainQSort
  import Q = FallbackQSort
  import QO = QuadrantOrder

  /** A small bucket that was sorted still is. */
  ghost predicate Keeps(s: seq<int>, was: seq<int>, p: seq<int>, st: seq<int>) {
    Bucketed(s, was, st) && Bucketed(s, p, st)
    && forall a, b :: 0 <= a < 256 && 0 <= b < 256 && SmallSorted(s, was, st, a, b) ==> SmallSorted(s, p, st, a, b)
  }

  lemma KeepsTwice(s: seq<int>, f: seq<int>, g: seq<int>, h: seq<int>, st: seq<int>)
    requires Keeps(s, f, g, st) && Keeps(s, g, h, st)
    ensures Keeps(s, f, h, st)
  {
    hide SmallSorted, Bucketed;
  }

  /** A marked small bucket is sorted. */
  ghost predicate Flags(s: seq<int>, p: seq<int>, st: seq<int>, ft: seq<int>) {
    Bucketed(s, p, st) && Marked(ft, st) && forall a, b :: 0 <= a < 256 && 0 <= b < 256 && Flagged(ft, a, b) ==> SmallSorted(s, p, st, a, b)
  }

  predicate Flagged(ft: seq<int>, a: int, b: int)
    requires |ft| == 65537 && 0 <= a < 256 && 0 <= b < 256
  {
    ft[a * 256 + b] >= SETMASK
  }

  /** The big bucket c is sorted. */
  ghost predicate BigSorted(s: seq<int>, p: seq<int>, st: seq<int>, c: int)
    requires Bucketed(s, p, st) && 0 <= c < 256
  {
    forall b :: 0 <= b < 256 ==> SmallSorted(s, p, st, c, b)
  }

  // ---- Step 1 ----

  /** The rotations of a small bucket agree on two letters. */
  lemma TwoLetters(s: seq<int>, p: seq<int>, st: seq<int>, a: int, b: int)
    requires Bucketed(s, p, st) && 0 <= a < 256 && 0 <= b < 256
    ensures SameTo(s, p, Start(st, a, b), Start(st, a, b + 1) - 1, N_RADIX)
  {
    var lo, hi := Start(st, a, b), Start(st, a, b + 1) - 1;
    Disjoint(st, |s|, a, b, b);
    forall x, y | lo <= x <= hi && lo <= y <= hi ensures Cmp(s, p[x], p[y], N_RADIX) == 0 {
      HomeKey(s, st, p[x], x, a * 256 + b, a * 256 + b + 1);
      HomeKey(s, st, p[y], y, a * 256 + b, a * 256 + b + 1);
      hide Bucketed;
      TwoEqual(s, p[x], p[y]);
    }
  }

  lemma TwoEqual(s: seq<int>, i: int, j: int)
    requires 0 <= i < |s| && 0 <= j < |s| && s[i] == s[j] && s[Succ(s, i)] == s[Succ(s, j)]
    ensures Cmp(s, i, j, N_RADIX) == 0
  {
    FirstDecides(s, i, j);
    assert Ch(s, i, 1) == s[Succ(s, i)] && Ch(s, j, 1) == s[Succ(s, j)];
    hide Ch, Succ;
    assert Cmp(s, i, j, 2) == 0;
  }

  /** Sorting one small bucket in place. */
  lemma OneSorted(s: seq<int>, e: seq<int>, was: seq<int>, p: seq<int>, st: seq<int>, a: int, b: int)
    requires Bucketed(s, was, st) && 0 <= a < 256 && 0 <= b < 256 && Ranks(s, e, |s|) && InRange(p, |e|)
    requires Q.Rearranges(was, p, Start(st, a, b), Start(st, a, b + 1) - 1) && Q.SortedByKey(p, e, Start(st, a, b), Start(st, a, b + 1) - 1)
    ensures Keeps(s, was, p, st) && SmallSorted(s, p, st, a, b)
  {
    var lo, hi := Start(st, a, b), Start(st, a, b + 1) - 1;
    RearrangedPerm(was, p, |s|);
    forall x | 0 <= x < |p| ensures Home(s, st, p[x], x) { StaysHome(s, was, p, st, a, b, x); }
    forall x, y | lo <= x <= y <= hi ensures Cmp(s, p[x], p[y], |s|) <= 0 { RankOrder(s, e, p[x], p[y]); }
    assert Bucketed(s, p, st);
    hide Home, Cmp, Q.SortedByKey, Ranks;
    forall c, d | 0 <= c < 256 && 0 <= d < 256 && SmallSorted(s, was, st, c, d) ensures SmallSorted(s, p, st, c, d) {
      if c != a || d != b {
        ElsewhereSame(s, was, p, st, a, b, c, d);
      }
    }
  }

  lemma StaysHome(s: seq<int>, was: seq<int>, p: seq<int>, st: seq<int>, a: int, b: int, x: int)
    requires Bucketed(s, was, st) && 0 <= a < 256 && 0 <= b < 256 && Q.Rearranges(was, p, Start(st, a, b), Start(st, a, b + 1) - 1) && 0 <= x < |p|
    ensures 0 <= p[x] < |s| && Home(s, st, p[x], x)
  {
    var lo, hi := Start(st, a, b), Start(st, a, b + 1) - 1;
    if lo <= x <= hi {
      Q.FromRange(was, p, lo, hi, x);
      var y :| lo <= y <= hi && was[y] == p[x];
      assert Home(s, st, was[y], y);
      HomeKey(s, st, was[y], y, a * 256 + b, a * 256 + b + 1);
    } else {
      assert Home(s, st, was[x], x);
    }
  }

  lemma ElsewhereSame(s: seq<int>, was: seq<int>, p: seq<int>, st: seq<int>, a: int, b: int, c: int, d: int)
    requires Bucketed(s, was, st) && Bucketed(s, p, st) && 0 <= a < 256 && 0 <= b < 256 && 0 <= c < 256 && 0 <= d < 256 && (c != a || d != b)
    requires Q.Rearranges(was, p, Start(st, a, b), Start(st, a, b + 1) - 1) && SmallSorted(s, was, st, c, d)
    ensures SmallSorted(s, p, st, c, d)
  {
    var q, r := a * 256 + b, c * 256 + d;
    assert q < r ==> st[q + 1] <= st[r];
    assert r < q ==> st[r + 1] <= st[q];
    Disjoint(st, |s|, c, d, d);
    forall x | Start(st, c, d) <= x < Start(st, c, d + 1) ensures p[x] == was[x] {}
  }

  lemma TrivialSorted(s: seq<int>, p: seq<int>, st: seq<int>, a: int, b: int)
    requires Bucketed(s, p, st) && 0 <= a < 256 && 0 <= b < 256 && Start(st, a, b + 1) - 1 <= Start(st, a, b)
    ensures SmallSorted(s, p, st, a, b) && Keeps(s, p, p, st)
  {
    Disjoint(st, |s|, a, b, b);
    SelfEqual(s, p);
  }

  lemma FlagSet(s: seq<int>, p: seq<int>, st: seq<int>, ft: seq<int>, a: int, b: int)
    requires Flags(s, p, st, ft) && 0 <= a < 256 && 0 <= b < 256 && SmallSorted(s, p, st, a, b)
    ensures |ft| == 65537 && Flags(s, p, st, ft[a * 256 + b := if ft[a * 256 + b] < SETMASK then ft[a * 256 + b] + SETMASK else ft[a * 256 + b]])
  {
    hide SmallSorted, Bucketed;
  }

  lemma FlagsKept(s: seq<int>, was: seq<int>, p: seq<int>, st: seq<int>, ft: seq<int>)
    requires Flags(s, was, st, ft) && Keeps(s, was, p, st)
    ensures Flags(s, p, st, ft)
  {
    hide SmallSorted, Bucketed;
  }

  lemma FlagMeans(s: seq<int>, p: seq<int>, st: seq<int>, ft: seq<int>, a: int, b: int)
    requires Flags(s, p, st, ft) && 0 <= a < 256 && 0 <= b < 256
    ensures |ft| == 65537 && (Flagged(ft, a, b) ==> SmallSorted(s, p, st, a, b)) && Bucketed(s, p, st) && Keeps(s, p, p, st)
  {
  }

  /** One turn of Step 1: the small bucket [ss, j]. */
  method SortOne(ptr: array<int>, block: array<int>, quadrant: array<int>, ftab: array<int>, nblock: int, ss: int, j: int, budget0: int,
                 ghost s: seq<int>, ghost e: seq<int>, ghost st: seq<int>) returns (budget: int)
    requires ptr != block && ptr != quadrant && ptr != ftab && ftab != block && ftab != quadrant && nblock == |s| == ptr.Length <= MAX_BLOCK
    requires Sources(s, e, block[..], quadrant[..]) && |e| == |s| && 0 <= ss < 256 && 0 <= j < 256 && Flags(s, ptr[..], st, ftab[..])
    modifies ptr, ftab
    ensures budget <= budget0 && (Differing(s) ==> budget == budget0)
    ensures budget < 0 || (Flags(s, ptr[..], st, ftab[..]) && Keeps(s, old(ptr[..]), ptr[..], st) && SmallSorted(s, ptr[..], st, ss, j))
    ensures |st| == 65537 && (Start(st, ss, j + 1) <= Start(st, ss, j) ==> budget == budget0 && ptr[..] == old(ptr[..]))
  {
    budget := budget0;
    ghost var was := ptr[..];
    FlagMeans(s, was, st, ftab[..], ss, j);
    FlagStarts(s, was, st, ftab[..], ss, j);
    hide Flags, Keeps, SmallSorted, Bucketed, Sources, Start, Frugal, Differing, Distinct;
    var sb := ss * 256 + j;
    if ftab[sb] < SETMASK {
      var lo, hi := ftab[sb] % SETMASK, ftab[sb + 1] % SETMASK - 1;
      if hi > lo {
        BucketedRange(s, was, st);
        TwoLetters(s, was, st, ss, j);
        budget := Main.QSort3(ptr, block, quadrant, nblock, lo, hi, N_RADIX, budget, s, e);
        FrugalHere(s, was, budget0, budget);
        if budget < 0 { return; }
        SourcesRanks(s, e, block[..], quadrant[..]);
        OneSorted(s, e, was, ptr[..], st, ss, j);
      } else {
        TrivialSorted(s, was, st, ss, j);
      }
    }
    FlagsKept(s, was, ptr[..], st, ftab[..]);
    FlagSet(s, ptr[..], st, ftab[..], ss, j);
    if ftab[sb] < SETMASK { ftab[sb] := ftab[sb] + SETMASK; }
    assert ftab[..] == old(ftab[..])[sb := ftab[sb]];
  }

  lemma FlagStarts(s: seq<int>, p: seq<int>, st: seq<int>, ft: seq<int>, a: int, b: int)
    requires Flags(s, p, st, ft) && 0 <= a < 256 && 0 <= b < 256
    ensures |ft| == |st| == 65537 && ft[a * 256 + b] % SETMASK == Start(st, a, b) && ft[a * 256 + b + 1] % SETMASK == Start(st, a, b + 1)
    ensures 0 <= Start(st, a, b) <= Start(st, a, b + 1) <= |p|
  {
    StartOf(ft, st, a, b);
    StartOf(ft, st, a, b + 1);
    Disjoint(st, |s|, a, b, b);
  }

  lemma BucketedRange(s: seq<int>, p: seq<int>, st: seq<int>)
    requires Bucketed(s, p, st)
    ensures InRange(p, |s|) && Distinct(p)
  {
  }

  lemma FrugalHere(s: seq<int>, p: seq<int>, budget0: int, budget: int)
    requires Frugal(s, p, budget0, budget) && Distinct(p)
    ensures budget <= budget0 && (Differing(s) ==> budget == budget0)
  {
    hide Differing;
  }

  lemma SourcesRanks(s: seq<int>, e: seq<int>, block: seq<int>, quadrant: seq<int>)
    requires Sources(s, e, block, quadrant)
    ensures s != [] && Ranks(s, e, |s|)
  {
  }

  /** In a block of one letter the buckets of two different letters are empty. */
  lemma OthersEmpty(s: seq<int>, p: seq<int>, st: seq<int>, ft: seq<int>, a: int, b: int)
    requires Flags(s, p, st, ft) && 0 <= a < 256 && 0 <= b < 256 && a != b
    ensures |st| == 65537 && (AllSame(s) ==> Start(st, a, b + 1) <= Start(st, a, b))
  {
    FlagStarts(s, p, st, ft, a, b);
    var x := Start(st, a, b);
    if x < Start(st, a, b + 1) {
      assert Home(s, st, p[x], x);
      HomeKey(s, st, p[x], x, a * 256 + b, a * 256 + b + 1);
      KeyOf(s, p[x], a, b);
    }
  }

  /** Step 1: the small buckets [ss, j] for j other than ss. */
  method SortSmalls(ptr: array<int>, block: array<int>, quadrant: array<int>, ftab: array<int>, nblock: int, ss: int, budget0: int,
                    ghost s: seq<int>, ghost e: seq<int>, ghost st: seq<int>) returns (budget: int)
    requires ptr != block && ptr != quadrant && ptr != ftab && ftab != block && ftab != quadrant && nblock == |s| == ptr.Length <= MAX_BLOCK
    requires Sources(s, e, block[..], quadrant[..]) && |e| == |s| && 0 <= ss < 256 && Flags(s, ptr[..], st, ftab[..])
    modifies ptr, ftab
    ensures budget <= budget0
    ensures budget < 0 || (Flags(s, ptr[..], st, ftab[..]) && Keeps(s, old(ptr[..]), ptr[..], st)
            && forall b :: 0 <= b < 256 && b != ss ==> SmallSorted(s, ptr[..], st, ss, b))
    ensures (AllSame(s) ==> budget == budget0 && ptr[..] == old(ptr[..])) && (Differing(s) ==> budget == budget0)
  {
    hide AllSame, Differing;
    budget := budget0;
    ghost var was := ptr[..];
    FlagMeans(s, was, st, ftab[..], ss, ss);
    var j := 0;
    while j <= 255
      invariant 0 <= j <= 256 && budget <= budget0 && Flags(s, ptr[..], st, ftab[..]) && Keeps(s, was, ptr[..], st)
      invariant forall b :: 0 <= b < j && b != ss ==> SmallSorted(s, ptr[..], st, ss, b)
      invariant (AllSame(s) ==> budget == budget0 && ptr[..] == was) && (Differing(s) ==> budget == budget0)
    {
      if j != ss {
        ghost var p := ptr[..];
        hide Flags, SmallSorted, Sources;
        OthersEmpty(s, p, st, ftab[..], ss, j);
        budget := SortOne(ptr, block, quadrant, ftab, nblock, ss, j, budget, s, e, st);
        if budget < 0 { return; }
        KeepsTwice(s, was, p, ptr[..], st);
      }
      j := j + 1;
    }
  }

  // ---- Step 2 ----

  /** After the scan: what was sorted still is, and the buckets [c, ss] are. */
  lemma AfterScan(s: seq<int>, was: seq<int>, p: seq<int>, st: seq<int>, done: seq<bool>, ss: int)
    requires Bucketed(s, was, st) && |done| == 256 && 0 <= ss < 256 && Scanned(s, was, p, st, done, ss)
    ensures Keeps(s, was, p, st)
  {
    forall a, b | 0 <= a < 256 && 0 <= b < 256 && SmallSorted(s, was, st, a, b) ensures SmallSorted(s, p, st, a, b) {
      hide Bucketed, SmallSorted;
      if b != ss || done[a] { UntouchedSorted(s, was, p, st, done, ss, a, b); }
    }
  }

  lemma UntouchedSorted(s: seq<int>, was: seq<int>, p: seq<int>, st: seq<int>, done: seq<bool>, ss: int, a: int, b: int)
    requires Bucketed(s, was, st) && |done| == 256 && 0 <= ss < 256 && Scanned(s, was, p, st, done, ss)
    requires 0 <= a < 256 && 0 <= b < 256 && (b != ss || done[a]) && SmallSorted(s, was, st, a, b)
    ensures SmallSorted(s, p, st, a, b)
  {
    Disjoint(st, |s|, a, b, b);
    hide Cmp, Pairs;
    forall x | Start(st, a, b) <= x < Start(st, a, b + 1) ensures p[x] == was[x] {
      assert Home(s, st, was[x], x);
      HomeKey(s, st, was[x], x, a * 256 + b, a * 256 + b + 1);
      KeyOf(s, was[x], a, b);
    }
  }

  lemma KeyOf(s: seq<int>, i: int, a: int, b: int)
    requires Letters(s) && 0 <= i < |s| && 0 <= b < 256 && Key(s, i) == a * 256 + b
    ensures s[i] == a && s[Succ(s, i)] == b
  {
  }

  /** With the done big buckets sorted, all the marks Step 2 sets are right, and the big bucket ss is sorted. */
  lemma ScanFlags(s: seq<int>, was: seq<int>, p: seq<int>, st: seq<int>, done: seq<bool>, ss: int, ft: seq<int>, ft': seq<int>)
    requires Flags(s, was, st, ft) && |done| == 256 && 0 <= ss < 256 && Scanned(s, was, p, st, done, ss) && Marked(ft', st)
    requires forall c :: 0 <= c < 256 && done[c] ==> BigSorted(s, was, st, c)
    requires forall i :: 0 <= i < |ft'| ==> ft'[i] == if i < 65536 && i % 256 == ss then st[i] + SETMASK else ft[i]
    ensures Keeps(s, was, p, st) && Flags(s, p, st, ft') && forall c :: 0 <= c < 256 ==> SmallSorted(s, p, st, c, ss)
  {
    AfterScan(s, was, p, st, done, ss);
    forall c | 0 <= c < 256 ensures SmallSorted(s, p, st, c, ss) {
      if done[c] { assert BigSorted(s, was, st, c); }
    }
    hide SmallSorted, Bucketed;
    forall a, b | 0 <= a < 256 && 0 <= b < 256 && Flagged(ft', a, b) ensures SmallSorted(s, p, st, a, b) {
      if b != ss {
        assert (a * 256 + b) % 256 == b;
        assert Flagged(ft, a, b);
      }
    }
  }

  /** Nor does Step 2 move anything there. */
  lemma ScanStill(s: seq<int>, was: seq<int>, p: seq<int>, st: seq<int>, done: seq<bool>, ss: int)
    requires Bucketed(s, was, st) && |done| == 256 && 0 <= ss < 256 && Scanned(s, was, p, st, done, ss) && (AllAre(s, ss) ==> p == was)
    ensures AllSame(s) ==> p == was
  {
    if AllSame(s) && s[0] != ss {
      forall x | 0 <= x < |p| ensures p[x] == was[x] { assert s[Succ(s, was[x])] == s[0]; }
    }
  }

  // ---- Step 3 ----

  /** Letters a and then b are what key a * 256 + b says; keys in order, letters in order. */
  lemma BigOrdered(s: seq<int>, p: seq<int>, st: seq<int>, x: int, y: int)
    requires Bucketed(s, p, st) && 0 <= x <= y < |p| && (s[p[x]] == s[p[y]] ==> BigSorted(s, p, st, s[p[x]]))
    ensures Cmp(s, p[x], p[y], |s|) <= 0 && s[p[x]] <= s[p[y]]
  {
    var i, j := p[x], p[y];
    HomesOrdered(s, st, i, x, j, y);
    KeyLetters(s, i, j);
    if s[i] < s[j] {
      FirstDecides(s, i, j);
      CmpPrefix(s, i, j, 1, |s|);
    } else if s[Succ(s, i)] < s[Succ(s, j)] {
      SecondDecides(s, i, j);
    } else {
      assert SmallSorted(s, p, st, s[i], s[Succ(s, i)]);
    }
  }

  lemma HomesOrdered(s: seq<int>, st: seq<int>, i: int, x: int, j: int, y: int)
    requires Letters(s) && Starts(st, |s|) && 0 <= i < |s| && 0 <= j < |s| && Home(s, st, i, x) && Home(s, st, j, y) && x <= y
    ensures Key(s, i) <= Key(s, j)
  {
  }

  lemma KeyLetters(s: seq<int>, i: int, j: int)
    requires Letters(s) && 0 <= i < |s| && 0 <= j < |s| && Key(s, i) <= Key(s, j)
    ensures s[i] < s[j] || (s[i] == s[j] && s[Succ(s, i)] <= s[Succ(s, j)])
  {
  }

  /** How many places of a bucket share a quadrant value: the least power of two that leaves 16 bits enough. */
  function ClassWidth(size: int): (w: nat)
    requires 0 <= size <= MAX_BLOCK
    ensures w > 0
  {
    if size <= 65534 then 1 else if size / 2 <= 65534 then 2 else if size / 4 <= 65534 then 4 else if size / 8 <= 65534 then 8 else 16
  }

  /** The smallest shift that brings the size below 65535. */
  method Shifts(bbSize: int) returns (shifts: nat)
    requires 0 <= bbSize <= MAX_BLOCK
    ensures bbSize / Pow2(shifts) <= 65534 && (bbSize - 1) / Pow2(shifts) <= 65534
    ensures Pow2(shifts) == ClassWidth(bbSize)
  {
    shifts := 0;
    while bbSize / Pow2(shifts) > 65534
      invariant shifts <= 4 && Pow2(shifts) <= ClassWidth(bbSize) && forall k :: 0 <= k < shifts ==> bbSize / Pow2(k) > 65534
      decreases 4 - shifts
    {
      shifts := shifts + 1;
    }
    if bbSize >= 1 { Quotients(bbSize - 1, bbSize, Pow2(shifts)); }
  }

  /** While quadrants are updated: the places from j on have theirs; other letters keep theirs. */
  ghost predicate Updated(s: seq<int>, p: seq<int>, was: seq<int>, q: seq<int>, lo: int, hi: int, j: int, w: int) {
    N_OVERSHOOT < |s| == |p| && 0 <= lo <= hi <= |p| && IsPerm(p, |s|) && |s| + N_OVERSHOOT <= |q| == |was| && w > 0 && lo <= j <= hi
    && (forall i :: 0 <= i < N_OVERSHOOT ==> q[|s| + i] == q[i])
    && (forall x :: j <= x < hi ==> q[p[x]] == (x - lo) / w)
    && forall x :: 0 <= x < |p| && !(lo <= x < hi) ==> q[p[x]] == was[p[x]]
  }

  lemma UpdateStep(s: seq<int>, p: seq<int>, was: seq<int>, q: seq<int>, lo: int, hi: int, j: int, w: int, v: int, q': seq<int>)
    requires Updated(s, p, was, q, lo, hi, j, w) && lo < j && 0 <= p[j - 1] < |s| && v == (j - 1 - lo) / w && |q'| == |q|
    requires forall i :: 0 <= i < |q| ==> q'[i] == if i == p[j - 1] || (p[j - 1] < N_OVERSHOOT && i == p[j - 1] + |s|) then v else q[i]
    ensures Updated(s, p, was, q', lo, hi, j - 1, w)
  {
    forall x | 0 <= x < |p| && x != j - 1 ensures p[x] != p[j - 1] && 0 <= p[x] < |s| && q'[p[x]] == q[p[x]] {}
    forall i | 0 <= i < N_OVERSHOOT ensures q'[|s| + i] == q'[i] {}
  }

  /** The new quadrants are consistent. */
  lemma UpdateDone(s: seq<int>, p: seq<int>, st: seq<int>, was: seq<int>, q: seq<int>, ss: int, w: int)
    requires Bucketed(s, p, st) && 0 <= ss < 256 && BigSorted(s, p, st, ss) && Quadrants(s, was)
    requires Updated(s, p, was, q, Start(st, ss, 0), Start(st, ss, 256), Start(st, ss, 0), w)
    ensures Quadrants(s, q)
  {
    UpdatedShape(s, p, was, q, Start(st, ss, 0), Start(st, ss, 256), Start(st, ss, 0), w);
    forall i, j | 0 <= i < |s| && 0 <= j < |s| && s[i] == s[j] && q[i] < q[j] ensures Cmp(s, i, j, |s|) <= 0 {
      UpdatedPair(s, p, st, was, q, ss, w, i, j);
    }
    hide Bucketed, BigSorted, Cmp, Start;
  }

  lemma UpdatedPair(s: seq<int>, p: seq<int>, st: seq<int>, was: seq<int>, q: seq<int>, ss: int, w: int, i: int, j: int)
    requires Bucketed(s, p, st) && 0 <= ss < 256 && BigSorted(s, p, st, ss) && Quadrants(s, was)
    requires Updated(s, p, was, q, Start(st, ss, 0), Start(st, ss, 256), Start(st, ss, 0), w)
    requires 0 <= i < |s| && 0 <= j < |s| && s[i] == s[j] && q[i] < q[j]
    ensures Cmp(s, i, j, |s|) <= 0
  {
    PermOnto(p, |s|, i);
    PermOnto(p, |s|, j);
    var x :| 0 <= x < |p| && p[x] == i;
    var y :| 0 <= y < |p| && p[y] == j;
    InBig(s, p, st, ss, x);
    InBig(s, p, st, ss, y);
    if s[i] == ss {
      UpdatedInside(s, p, st, was, q, ss, w, x, y);
    } else {
      UpdatedOutside(s, p, was, q, Start(st, ss, 0), Start(st, ss, 256), w, x, y);
    }
    hide *;
  }

  lemma UpdatedInside(s: seq<int>, p: seq<int>, st: seq<int>, was: seq<int>, q: seq<int>, ss: int, w: int, x: int, y: int)
    requires Bucketed(s, p, st) && 0 <= ss < 256 && BigSorted(s, p, st, ss) && Start(st, ss, 0) <= x < Start(st, ss, 256) && Start(st, ss, 0) <= y < Start(st, ss, 256)
    requires Updated(s, p, was, q, Start(st, ss, 0), Start(st, ss, 256), Start(st, ss, 0), w)
    requires 0 <= p[x] < |s| && 0 <= p[y] < |s| && s[p[x]] == s[p[y]] == ss && q[p[x]] < q[p[y]]
    ensures Cmp(s, p[x], p[y], |s|) <= 0
  {
    var lo := Start(st, ss, 0);
    hide Bucketed, BigSorted, Cmp;
    if x > y { Quotients(y - lo, x - lo, w); }
    BigOrdered(s, p, st, x, y);
  }

  lemma UpdatedOutside(s: seq<int>, p: seq<int>, was: seq<int>, q: seq<int>, lo: int, hi: int, w: int, x: int, y: int)
    requires Updated(s, p, was, q, lo, hi, lo, w) && Quadrants(s, was) && 0 <= x < |p| && 0 <= y < |p| && !(lo <= x < hi) && !(lo <= y < hi)
    requires 0 <= p[x] < |s| && 0 <= p[y] < |s| && s[p[x]] == s[p[y]] && q[p[x]] < q[p[y]]
    ensures Cmp(s, p[x], p[y], |s|) <= 0
  {
    hide Cmp;
  }

  /** The big bucket, sorted, in its place. */
  lemma BigPlaced(s: seq<int>, p: seq<int>, st: seq<int>, ss: int)
    requires Bucketed(s, p, st) && 0 <= ss < 256 && BigSorted(s, p, st, ss) && s != []
    ensures QO.Placed(s, p, ss, Start(st, ss, 0), Start(st, ss, 256))
  {
    var lo, hi := Start(st, ss, 0), Start(st, ss, 256);
    Disjoint(st, |s|, ss, ss, ss);
    forall x | 0 <= x < |p| ensures 0 <= p[x] < |s| && (s[p[x]] == ss <==> lo <= x < hi) { InBig(s, p, st, ss, x); }
    forall x, y | lo <= x <= y < hi ensures Cmp(s, p[x], p[y], |s|) <= 0 { BigOrdered(s, p, st, x, y); }
  }

  /** Whether the new quadrants of the bucket are a strict order. */
  lemma UpdateStrict(s: seq<int>, p: seq<int>, st: seq<int>, was: seq<int>, q: seq<int>, ss: int, w: int)
    requires Bucketed(s, p, st) && 0 <= ss < 256 && BigSorted(s, p, st, ss)
    requires Updated(s, p, was, q, Start(st, ss, 0), Start(st, ss, 256), Start(st, ss, 0), w)
    ensures s != [] && |s| <= |q| && w > 0 && (QO.Strict(s, q, ss) <==> QO.Unsplit(s, ss, w))
  {
    var lo, hi := Start(st, ss, 0), Start(st, ss, 256);
    hide Bucketed, BigSorted, QO.Placed, Cmp, Start;
    BigPlaced(s, p, st, ss);
    QO.StrictWhen(s, p, q, ss, lo, hi, w);
  }

  lemma InBig(s: seq<int>, p: seq<int>, st: seq<int>, ss: int, x: int)
    requires Bucketed(s, p, st) && 0 <= ss < 256 && 0 <= x < |p|
    ensures s[p[x]] == ss <==> Start(st, ss, 0) <= x < Start(st, ss, 256)
  {
    assert Home(s, st, p[x], x);
    var k := Key(s, p[x]);
    if k < ss * 256 {
      assert st[k + 1] <= st[ss * 256];
    } else if ss * 256 + 256 <= k {
      assert st[ss * 256 + 256] <= st[k];
    } else {
      assert st[ss * 256] <= st[k] && st[k + 1] <= st[ss * 256 + 256];
    }
  }

  lemma Quotients(a: int, b: int, w: int)
    requires 0 <= a <= b && w > 0
    ensures a / w <= b / w
  {
    var q, r := b / w, a / w;
    assert b == q * w + b % w && a == r * w + a % w;
    assert (q + 1 - r) * w == q * w + w - r * w;
    PositiveFactor(q + 1 - r, w);
  }

  lemma PositiveFactor(x: int, w: int)
    requires w > 0 && x * w > 0
    ensures x > 0
  {
  }

  lemma UpdateStart(s: seq<int>, p: seq<int>, st: seq<int>, q: seq<int>, ss: int, w: int)
    requires Bucketed(s, p, st) && 0 <= ss < 256 && Quadrants(s, q) && w > 0
    ensures Updated(s, p, q, q, Start(st, ss, 0), Start(st, ss, 256), Start(st, ss, 256), w)
  {
    Disjoint(st, |s|, ss, ss, ss);
  }

  lemma UpdatedShape(s: seq<int>, p: seq<int>, was: seq<int>, q: seq<int>, lo: int, hi: int, j: int, w: int)
    requires Updated(s, p, was, q, lo, hi, j, w)
    ensures 0 <= lo <= j <= hi <= |p| == |s| && |s| + N_OVERSHOOT <= |q| && forall x :: 0 <= x < |p| ==> 0 <= p[x] < |s|
  {
  }

  /** The quadrant value of one rotation. */
  method UpdateOne(ptr: array<int>, quadrant: array<int>, nblock: int, bbStart: int, bbSize: int, j: int, shifts: nat, ghost s: seq<int>, ghost was: seq<int>)
    requires ptr != quadrant && nblock == |s| && 0 <= j < bbSize && bbSize / Pow2(shifts) <= 65534
    requires Updated(s, ptr[..], was, quadrant[..], bbStart, bbStart + bbSize, bbStart + j + 1, Pow2(shifts))
    modifies quadrant
    ensures Updated(s, ptr[..], was, quadrant[..], bbStart, bbStart + bbSize, bbStart + j, Pow2(shifts))
  {
    ghost var p, q, w := ptr[..], quadrant[..], Pow2(shifts);
    hide Updated, Pow2;
    UpdatedShape(s, p, was, q, bbStart, bbStart + bbSize, bbStart + j + 1, w);
    Quotients(j, bbSize, w);
    Quotients(0, j, w);
    var a2update := ptr[bbStart + j];
    var qVal := j / Pow2(shifts) % 0x1_0000;
    quadrant[a2update] := qVal;
    if a2update < N_OVERSHOOT { quadrant[a2update + nblock] := qVal; }
    UpdateStep(s, p, was, q, bbStart, bbStart + bbSize, bbStart + j + 1, w, qVal, quadrant[..]);
  }

  /** bbStart and bbSize. */
  method BucketRange(ftab: array<int>, nblock: int, ss: int, ghost s: seq<int>, ghost p: seq<int>, ghost st: seq<int>) returns (bbStart: int, bbSize: int)
    requires nblock == |s| == |p| <= MAX_BLOCK && 0 <= ss < 256 && Flags(s, p, st, ftab[..])
    ensures |st| == 65537 && bbStart == Start(st, ss, 0) && bbStart + bbSize == Start(st, ss, 256) && 0 <= bbSize <= MAX_BLOCK
  {
    FlagStarts(s, p, st, ftab[..], ss, 0);
    StartOf(ftab[..], st, ss, 256);
    FlagsBucketed(s, p, st, ftab[..]);
    Disjoint(st, |s|, ss, ss, ss);
    bbStart := ftab[ss * 256] % SETMASK;
    bbSize := ftab[(ss + 1) * 256] % SETMASK - bbStart;
    hide *;
  }

  lemma FlagsBucketed(s: seq<int>, p: seq<int>, st: seq<int>, ft: seq<int>)
    requires Flags(s, p, st, ft)
    ensures Bucketed(s, p, st) && Starts(st, |s|)
  {
  }

  /** Step 3: the order of the big bucket ss becomes quadrant values; they fit 16 bits (assertion 1002). */
  method UpdateQuadrants(ptr: array<int>, quadrant: array<int>, ftab: array<int>, nblock: int, ss: int, ghost s: seq<int>, ghost st: seq<int>)
    requires ptr != quadrant && ftab != quadrant && nblock == |s| == ptr.Length <= MAX_BLOCK && 0 <= ss < 256
    requires Flags(s, ptr[..], st, ftab[..]) && BigSorted(s, ptr[..], st, ss) && Quadrants(s, quadrant[..])
    modifies quadrant
    ensures Quadrants(s, quadrant[..]) && s != [] && nblock <= quadrant.Length && 0 <= Start(st, ss, 256) - Start(st, ss, 0) <= MAX_BLOCK
    ensures QO.Strict(s, quadrant[..], ss) <==> QO.Unsplit(s, ss, ClassWidth(Start(st, ss, 256) - Start(st, ss, 0)))
  {
    hide *;
    ghost var p, was := ptr[..], quadrant[..];
    FlagsBucketed(s, p, st, ftab[..]);
    var bbStart, bbSize := BucketRange(ftab, nblock, ss, s, p, st);
    var shifts := Shifts(bbSize);
    ghost var w := Pow2(shifts);
    assert (bbSize - 1) / w <= 65535; // assertion 1002
    UpdateStart(s, p, st, was, ss, w);
    var j := bbSize - 1;
    while j >= 0
      invariant -1 <= j < bbSize && Updated(s, p, was, quadrant[..], bbStart, bbStart + bbSize, bbStart + j + 1, w)
    {
      UpdateOne(ptr, quadrant, nblock, bbStart, bbSize, j, shifts, s, was);
      j := j - 1;
    }
    UpdateDone(s, p, st, was, quadrant[..], ss, w);
    UpdateStrict(s, p, st, was, quadrant[..], ss, w);
  }

  /** The two ones of QO.TwoCopies fill their bucket; the noughts are more. */
  lemma CopiesBuckets(p: seq<int>, st: seq<int>)
    requires Bucketed(QO.TwoCopies(), p, st)
    ensures |st| == 65537 && 0 <= Start(st, 1, 256) - Start(st, 1, 0) <= 2 < Start(st, 0, 256) - Start(st, 0, 0)
  {
    var s, lo := QO.TwoCopies(), Start(st, 1, 0);
    Disjoint(st, |s|, 1, 1, 1);
    Disjoint(st, |s|, 0, 0, 0);
    forall x | lo <= x < Start(st, 1, 256) ensures p[x] == 4999 || p[x] == 9999 { InBig(s, p, st, 1, x); }
    QO.AtMostTwo(p, lo, Start(st, 1, 256), 4999, 9999);
    var x0 := PlaceIn(s, p, st, 0);
    var x1 := PlaceIn(s, p, st, 1);
    var x2 := PlaceIn(s, p, st, 2);
  }

  lemma PlaceIn(s: seq<int>, p: seq<int>, st: seq<int>, v: int) returns (x: int)
    requires Bucketed(s, p, st) && 0 <= v < |s|
    ensures 0 <= x < |p| && p[x] == v && Start(st, s[v], 0) <= x < Start(st, s[v], 256)
  {
    PermOnto(p, |s|, v);
    x :| 0 <= x < |p| && p[x] == v;
    InBig(s, p, st, s[v], x);
  }

  /** The bucket of the ones is not the last of the running order, so it gets quadrants, and they are not a strict order. */
  lemma TwoCopiesReached(p: seq<int>, st: seq<int>, order: seq<int>)
    requires Bucketed(QO.TwoCopies(), p, st) && IsPerm(order, 256) && |st| == 65537 && Q.SortedByKey(order, BigSizes(st), 0, 255)
    ensures order[255] != 1 && 0 <= Start(st, 1, 256) - Start(st, 1, 0) <= MAX_BLOCK
    ensures !QO.Unsplit(QO.TwoCopies(), 1, ClassWidth(Start(st, 1, 256) - Start(st, 1, 0)))
  {
    CopiesBuckets(p, st);
    QO.TwoCopiesSplit();
    hide Bucketed, QO.Unsplit, QO.TwoCopies;
    PermOnto(order, 256, 0);
    var k :| 0 <= k < 256 && order[k] == 0;
    assert BigSizes(st)[0] == Start(st, 0, 256) - Start(st, 0, 0) && BigSizes(st)[1] == Start(st, 1, 256) - Start(st, 1, 0);
  }

  // ---- the main loop ----

  /** The first i big buckets of the running order are done, and sorted. */
  ghost predicate Progress(s: seq<int>, p: seq<int>, st: seq<int>, ft: seq<int>, order: seq<int>, done: seq<bool>, i: int) {
    Flags(s, p, st, ft) && IsPerm(order, 256) && |done| == 256 && 0 <= i <= 256 && (forall k :: 0 <= k < 256 ==> done[order[k]] == (k < i))
    && forall c :: 0 <= c < 256 && done[c] ==> BigSorted(s, p, st, c)
  }

  lemma ProgressStart(s: seq<int>, p: seq<int>, st: seq<int>, ft: seq<int>, order: seq<int>, done: seq<bool>)
    requires Bucketed(s, p, st) && ft == st && |s| <= MAX_BLOCK && IsPerm(order, 256) && |done| == 256 && forall c :: 0 <= c < 256 ==> !done[c]
    ensures Progress(s, p, st, ft, order, done, 0)
  {
    assert forall c :: 0 <= c < 65537 ==> st[0] <= st[c] <= st[65536];
    hide SmallSorted;
  }

  lemma NotDone(s: seq<int>, p: seq<int>, st: seq<int>, ft: seq<int>, order: seq<int>, done: seq<bool>, i: int)
    requires Progress(s, p, st, ft, order, done, i) && i < 256
    ensures 0 <= order[i] < 256 && !done[order[i]] && Flags(s, p, st, ft) && Bucketed(s, p, st) && Marked(ft, st)
  {
  }

  /** Sorting more leaves the done big buckets sorted. */
  lemma BigKept(s: seq<int>, was: seq<int>, p: seq<int>, st: seq<int>, c: int)
    requires Keeps(s, was, p, st) && 0 <= c < 256 && BigSorted(s, was, st, c)
    ensures BigSorted(s, p, st, c)
  {
    hide SmallSorted, Bucketed;
  }

  lemma ProgressStep(s: seq<int>, was: seq<int>, p: seq<int>, st: seq<int>, ft: seq<int>, ft': seq<int>, order: seq<int>, done: seq<bool>, i: int)
    requires Progress(s, was, st, ft, order, done, i) && i < 256 && Keeps(s, was, p, st) && Flags(s, p, st, ft') && 0 <= order[i] < 256 && BigSorted(s, p, st, order[i])
    ensures Progress(s, p, st, ft', order, done[order[i] := true], i + 1)
  {
    hide SmallSorted, Bucketed, BigSorted;
    forall c | 0 <= c < 256 && done[c] ensures BigSorted(s, p, st, c) { BigKept(s, was, p, st, c); }
  }

  lemma DoneBig(s: seq<int>, was: seq<int>, p: seq<int>, st: seq<int>, ft: seq<int>, order: seq<int>, done: seq<bool>, i: int)
    requires Progress(s, was, st, ft, order, done, i) && Keeps(s, was, p, st)
    ensures forall c :: 0 <= c < 256 && done[c] ==> BigSorted(s, p, st, c)
  {
    hide SmallSorted, Bucketed, BigSorted;
    forall c | 0 <= c < 256 && done[c] ensures BigSorted(s, p, st, c) { BigKept(s, was, p, st, c); }
  }

  lemma BigComplete(s: seq<int>, f: seq<int>, p: seq<int>, st: seq<int>, ss: int)
    requires Keeps(s, f, p, st) && 0 <= ss < 256 && SmallSorted(s, p, st, ss, ss)
    requires forall b :: 0 <= b < 256 && b != ss ==> SmallSorted(s, f, st, ss, b)
    ensures BigSorted(s, p, st, ss)
  {
    hide SmallSorted, Bucketed;
  }

  /** One turn: Steps 1, 2 and 3 for the big bucket ss. */
  method BigBucket(ptr: array<int>, block: array<int>, quadrant: array<int>, ftab: array<int>, nblock: int, order: array<int>, bigDone: array<bool>, i: int, budget0: int,
                   ghost s: seq<int>, ghost e: seq<int>, ghost st: seq<int>) returns (budget: int)
    requires ptr != block && ptr != quadrant && ptr != ftab && ftab != block && ftab != quadrant && quadrant != block
    requires order != ptr && order != ftab && order != quadrant && order.Length == bigDone.Length == 256 && 0 <= i < 256
    requires nblock == |s| == ptr.Length <= MAX_BLOCK && Sources(s, e, block[..], quadrant[..]) && |e| == |s|
    requires Progress(s, ptr[..], st, ftab[..], order[..], bigDone[..], i)
    modifies ptr, quadrant, ftab, bigDone
    ensures budget <= budget0
    ensures budget < 0 || (Sources(s, e, block[..], quadrant[..]) && Progress(s, ptr[..], st, ftab[..], order[..], bigDone[..], i + 1))
    ensures (AllSame(s) ==> budget == budget0 && ptr[..] == old(ptr[..])) && (Differing(s) ==> budget == budget0)
  {
    hide AllSame, AllAre, Differing;
    ghost var was, done, ft := ptr[..], bigDone[..], ftab[..];
    NotDone(s, was, st, ft, order[..], done, i);
    SourcesSplit(s, e, block[..], quadrant[..]);
    hide Progress, Flags, Keeps, SmallSorted, Bucketed, Sources, BigSorted, Scanned, Marked, Quadrants, Extended, InRange, Distinct;
    var ss := order[i];
    budget := SortSmalls(ptr, block, quadrant, ftab, nblock, ss, budget0, s, e, st);
    if budget < 0 { return; }
    ghost var f, fa := ptr[..], ftab[..];
    DoneBig(s, was, f, st, ft, order[..], done, i);
    FlagMeans(s, f, st, fa, ss, ss);
    FlagsMarked(s, f, st, fa);
    assert !bigDone[ss]; // assertion 1006
    ScanBucket(ptr, block, ftab, nblock, ss, bigDone, s, st);
    ghost var g := ptr[..];
    ScanStill(s, f, g, st, done, ss);
    ScanFlags(s, f, g, st, done, ss, fa, ftab[..]);
    KeepsTwice(s, was, f, g, st);
    BigComplete(s, f, g, st, ss);
    ProgressStep(s, was, g, st, ft, ftab[..], order[..], done, i);
    bigDone[ss] := true;
    assert bigDone[..] == done[ss := true];
    if i < 255 { UpdateQuadrants(ptr, quadrant, ftab, nblock, ss, s, st); }
    SourcesJoin(s, e, block[..], quadrant[..]);
  }

  lemma FlagsMarked(s: seq<int>, p: seq<int>, st: seq<int>, ft: seq<int>)
    requires Flags(s, p, st, ft)
    ensures Marked(ft, st)
  {
  }

  lemma SourcesSplit(s: seq<int>, e: seq<int>, block: seq<int>, quadrant: seq<int>)
    requires Sources(s, e, block, quadrant)
    ensures s != [] && |s| <= |block| && block[..|s|] == s && Extended(s, block) && Quadrants(s, quadrant) && Ranks(s, e, |s|)
  {
  }

  lemma SourcesJoin(s: seq<int>, e: seq<int>, block: seq<int>, quadrant: seq<int>)
    requires s != [] && Extended(s, block) && Quadrants(s, quadrant) && Ranks(s, e, |s|)
    ensures Sources(s, e, block, quadrant)
  {
  }

  /** All big buckets done: the rotations are sorted. */
  lemma AllDone(s: seq<int>, p: seq<int>, st: seq<int>, ft: seq<int>, order: seq<int>, done: seq<bool>)
    requires Progress(s, p, st, ft, order, done, 256)
    ensures SortedRotations(s, p)
  {
    forall c | 0 <= c < 256 ensures BigSorted(s, p, st, c) {
      PermOnto(order, 256, c);
      var k :| 0 <= k < 256 && order[k] == c;
      assert done[order[k]];
    }
    forall x, y | 0 <= x <= y < |p| ensures Cmp(s, p[x], p[y], |s|) <= 0 {
      hide BigSorted, Cmp;
      BigOrdered(s, p, st, x, y);
    }
  }

  /** mainSort: ptr becomes a sorted order of the rotations of the block, unless the budget runs out. A block of one letter costs
      nothing and stays in its order; neither does one in which no two rotations agree on twenty letters. */
  method Sort(ptr: array<int>, block: array<int>, quadrant: array<int>, ftab: array<int>, nblock: int, budget0: int, ghost s: seq<int>) returns (budget: int)
    requires ptr != block && ptr != quadrant && ptr != ftab && ftab != block && ftab != quadrant && quadrant != block
    requires Letters(s) && N_OVERSHOOT < nblock == |s| == ptr.Length <= MAX_BLOCK && ftab.Length == 65537
    requires block.Length >= nblock + N_OVERSHOOT && quadrant.Length >= nblock + N_OVERSHOOT && block[..nblock] == s
    modifies ptr, block, quadrant, ftab
    ensures block[..nblock] == s && budget <= budget0
    ensures budget < 0 || SortedRotations(s, ptr[..])
    ensures (AllSame(s) ==> budget == budget0 && Identity(ptr[..])) && (Differing(s) ==> budget == budget0)
  {
    hide AllSame, Identity, Differing;
    budget := budget0;
    ghost var st := StartsOf(s);
    ghost var e := RanksExist(s);
    CountPairs(block, quadrant, ftab, nblock, s);
    Overshoot(block, quadrant, nblock, s);
    SumUp(ftab, s);
    assert block[..nblock] == s;
    PlacePairs(ptr, block, ftab, nblock, s);
    var order := RunningOrder(ftab);
    var bigDone := new bool[256](_ => false);
    ProgressStart(s, ptr[..], st, ftab[..], order[..], bigDone[..]);
    SourcesJoin(s, e, block[..], quadrant[..]);
    SourcesRanks(s, e, block[..], quadrant[..]);
    hide Progress, Sources, Letters, Bucketed, SortedRotations, Extended, Quadrants, Ranks, StartsOf;
    var i := 0;
    while i <= 255
      invariant 0 <= i <= 256 && budget <= budget0 && block[..nblock] == s && Sources(s, e, block[..], quadrant[..])
      invariant Progress(s, ptr[..], st, ftab[..], order[..], bigDone[..], i)
      invariant (AllSame(s) ==> budget == budget0 && Identity(ptr[..])) && (Differing(s) ==> budget == budget0)
    {
      budget := BigBucket(ptr, block, quadrant, ftab, nblock, order, bigDone, i, budget, s, e, st);
      if budget < 0 { return; }
      i := i + 1;
    }
    AllDone(s, ptr[..], st, ftab[..], order[..], bigDone[..]);
  }
}
