/** fallbackSort of blocksort.c: sorting all rotations of a block by prefix doubling. */
module FallbackSort {
  import opened Common
  import opened Rotations
  import opened Counting
  import Q = FallbackQSort

  /** Order by R first, then by E. */
  ghost predicate PairLt(R: seq<int>, E: seq<int>, v: int, w: int)
    requires |R| == |E| && 0 <= v < |R| && 0 <= w < |R|
  {
    R[v] < R[w] || (R[v] == R[w] && E[v] < E[w])
  }

  /** bh marks exactly the positions where a new bucket of rotations equal to depth h begins. */
  ghost predicate Headers(s: seq<int>, f: seq<int>, bh: seq<bool>, h: nat)
    requires s != [] && |f| == |s| <= |bh| && InRange(f, |s|)
  {
    bh[0] && forall i {:trigger bh[i]} :: 0 < i < |s| ==> (bh[i] <==> Cmp(s, f[i - 1], f[i], h) < 0)
  }

  /** The state between rounds: a permutation sorted to depth h with its bucket headers. */
  ghost predicate Refined(s: seq<int>, f: seq<int>, bh: seq<bool>, h: nat) {
    s != [] && IsPerm(f, |s|) && SortedTo(s, f, h) && |s| <= |bh| && Headers(s, f, bh, h)
  }

  /** The bits beyond the block: set and clear in turn. */
  ghost predicate Sentinels(bh: seq<bool>, n: int) {
    0 < n && n + 64 <= |bh| && forall i :: 0 <= i < 32 ==> bh[n + 2 * i] && !bh[n + 2 * i + 1]
  }

  /** st[x] is the position of the header at or before x. */
  ghost predicate Starts(bh: seq<bool>, st: seq<int>) {
    |st| <= |bh| && forall x :: 0 <= x < |st| ==>
      (0 <= st[x] <= x && bh[st[x]] && forall m :: st[x] < m <= x ==> !bh[m])
  }

  /** No header between x and y means the two rotations agree; one means they are strictly ordered. */
  lemma {:induction false} HeaderBetween(s: seq<int>, f: seq<int>, bh: seq<bool>, h: nat, x: int, y: int)
    requires Refined(s, f, bh, h) && 0 <= x <= y < |s|
    ensures Cmp(s, f[x], f[y], h) < 0 <==> exists m :: x < m <= y && bh[m]
    decreases y - x
  {
    if x < y {
      HeaderBetween(s, f, bh, h, x, y - 1);
      assert bh[y] <==> Cmp(s, f[y - 1], f[y], h) < 0;
      hide Headers;
      assert Cmp(s, f[y - 1], f[y], h) <= 0;
      CmpTransitive(s, f[x], f[y - 1], f[y], h);
    } else {
      CmpAntisymmetric(s, f[x], f[x], h);
    }
  }

  /** Bucket starts rank the rotations. */
  lemma StartsRank(s: seq<int>, f: seq<int>, bh: seq<bool>, h: nat, st: seq<int>, R: seq<int>)
    requires Refined(s, f, bh, h) && Starts(bh, st) && |st| == |s| == |R|
    requires forall x :: 0 <= x < |s| ==> R[f[x]] == st[x]
    ensures Ranks(s, R, h)
  {
    hide Cmp;
    forall a, b | 0 <= a < |s| && 0 <= b < |s| ensures R[a] < R[b] <==> Cmp(s, a, b, h) < 0 {
      PermOnto(f, |s|, a);
      PermOnto(f, |s|, b);
      var x :| 0 <= x < |s| && f[x] == a;
      var y :| 0 <= y < |s| && f[y] == b;
      if x <= y {
        HeaderBetween(s, f, bh, h, x, y);
      } else {
        HeaderBetween(s, f, bh, h, y, x);
        CmpAntisymmetric(s, a, b, h);
      }
    }
  }

  /** Doubling: ordering by the rank at depth h, then by the rank h characters on, is ordering to depth 2h. */
  lemma DoubleDepth(s: seq<int>, R: seq<int>, E: seq<int>, h: nat, v: int, w: int)
    requires s != [] && Ranks(s, R, h) && |E| == |s| && 0 <= v < |s| && 0 <= w < |s|
    requires forall a :: 0 <= a < |s| ==> E[a] == R[(a + h) % |s|]
    ensures PairLt(R, E, v, w) <==> Cmp(s, v, w, 2 * h) < 0
  {
    CmpSplit(s, v, w, h, h);
    RanksEqual(s, R, h, v, w);
    RanksEqual(s, R, h, (v + h) % |s|, (w + h) % |s|);
  }

  /** The clause of the source "k = fmap[i] - H; if (k < 0) k += nblock". */
  function Back(v: int, h: int, n: int): (k: int)
    requires 0 <= v < n && 0 <= h <= n
    ensures 0 <= k < n && (k + h) % n == v
  {
    var k := if v - h < 0 then v - h + n else v - h;
    DivModUnique(k + h, n, if v - h < 0 then 1 else 0, v);
    k
  }

  /** A store to eclass[k] also overwrites the four block bytes that share its memory. */
  method StoreClass(eclass: array<int>, block: array<Byte>, k: int, j: int)
    requires 0 <= k < eclass.Length
    modifies eclass, block
    ensures eclass[..] == old(eclass[..])[k := j]
  {
    eclass[k] := j;
    var b := 4 * k;
    while b < 4 * k + 4 && b < block.Length
      invariant eclass[..] == old(eclass[..])[k := j]
    {
      block[b] := *;
      b := b + 1;
    }
  }

  /** The class assignment after i entries: R holds their bucket starts, E the same H places earlier. */
  ghost predicate Classed(f: seq<int>, bh: seq<bool>, st: seq<int>, R: seq<int>, E: seq<int>, h: int, i: int) {
    IsPerm(f, |R|) && |E| == |R| <= |bh| && |st| == i <= |R| && 0 <= h <= |R| && Starts(bh, st)
    && forall x :: 0 <= x < i ==> R[f[x]] == st[x] && E[Back(f[x], h, |R|)] == st[x]
  }

  lemma ClassStep(f: seq<int>, bh: seq<bool>, st: seq<int>, R: seq<int>, E: seq<int>, h: int, i: int, j: int)
    requires Classed(f, bh, st, R, E, h, i) && i < |R| && bh[0]
    requires j == if bh[i] then i else st[i - 1]
    ensures Classed(f, bh, st + [j], R[f[i] := j], E[Back(f[i], h, |R|) := j], h, i + 1)
  {
    forall x | 0 <= x < i ensures f[x] != f[i] && Back(f[x], h, |R|) != Back(f[i], h, |R|) {}
    hide Back;
  }

  /** Storing the class of f[x] at the position H places before f[x] stores R, shifted by H. */
  lemma ClassesShifted(f: seq<int>, bh: seq<bool>, st: seq<int>, R: seq<int>, E: seq<int>, h: int, n: int)
    requires Classed(f, bh, st, R, E, h, n) && n == |R| > 0
    ensures InRange(E, n) && forall a :: 0 <= a < n ==> E[a] == R[(a + h) % n]
  {
    forall a | 0 <= a < n ensures E[a] == R[(a + h) % n] && 0 <= E[a] < n {
      PermOnto(f, n, (a + h) % n);
      var x :| 0 <= x < n && f[x] == (a + h) % n;
      BackUnique(a, f[x], h, n);
    }
  }

  /** Gives every rotation the bucket start of the rotation H places further on. */
  method ComputeClasses(ghost s: seq<int>, fmap: array<int>, eclass: array<int>, block: array<Byte>, bhtab: array<bool>, H: int)
    returns (ghost R: seq<int>)
    requires fmap != eclass && fmap.Length == eclass.Length == |s| && 1 <= H <= |s|
    requires Refined(s, fmap[..], bhtab[..], H)
    modifies eclass, block
    ensures Ranks(s, R, H) && InRange(eclass[..], |s|)
    ensures forall a :: 0 <= a < |s| ==> eclass[..][a] == R[(a + H) % |s|]
  {
    ghost var f, bh, n := fmap[..], bhtab[..], |s|;
    ghost var st: seq<int> := [];
    R := seq(n, _ => 0);
    var j, i := 0, 0;
    assert bh[0] && Classed(f, bh, st, R, eclass[..], H, 0);
    while i < fmap.Length
      invariant 0 <= i <= n == |R| && fmap[..] == f && bhtab[..] == bh
      invariant |st| == i && (i > 0 ==> j == st[i - 1])
      invariant Classed(f, bh, st, R, eclass[..], H, i)
    {
      hide Refined, Classed, IsPerm, Distinct, Starts;
      if bhtab[i] { j := i; }
      ClassStep(f, bh, st, R, eclass[..], H, i, j);
      StoreClass(eclass, block, Back(fmap[i], H, fmap.Length), j);
      R := R[f[i] := j];
      st := st + [j];
      i := i + 1;
    }
    StartsRank(s, f, bh, H, st, R);
    ClassesShifted(f, bh, st, R, eclass[..], H, n);
  }

  lemma BackUnique(a: int, v: int, h: int, n: int)
    requires 0 <= a < n && 0 <= h <= n && v == (a + h) % n
    ensures 0 <= v < n && Back(v, h, n) == a
  {
    if a + h < n {
      DivModUnique(a + h, n, 0, a + h);
    } else {
      DivModUnique(a + h, n, 1, a + h - n);
    }
  }

  ghost predicate AllBits(bh: array<bool>, k: int, value: bool)
    requires 0 <= k && k + 32 <= bh.Length
    reads bh
  {
    forall m :: k <= m < k + 32 ==> bh[m] == value
  }

  /** WORD_BH(k) == 0xffffffff (or 0x00000000 when value is false), for an aligned k. */
  method WordIs(bh: array<bool>, k: int, value: bool) returns (r: bool)
    requires 0 <= k && k + 32 <= bh.Length
    ensures r <==> AllBits(bh, k, value)
  {
    var m := k;
    while m < k + 32
      invariant k <= m <= k + 32 && forall i :: k <= i < m ==> bh[i] == value
    {
      if bh[m] != value { return false; }
      m := m + 1;
    }
    return true;
  }

  /** The bit scan of the source: to the end of the word bit by bit, then word by word, then bit by bit again.
      Returns the first position at or after start whose bit is not value; stop is such a position. */
  method SkipBits(bh: array<bool>, start: int, value: bool, ghost stop: int) returns (k: int)
    requires 0 <= start <= stop && stop + 32 <= bh.Length && bh[stop] != value
    ensures start <= k <= stop && bh[k] != value && forall m :: start <= m < k ==> bh[m] == value
  {
    k := start;
    while bh[k] == value && k % 32 != 0
      invariant start <= k <= stop && forall m :: start <= m < k ==> bh[m] == value
      decreases stop - k
    {
      k := k + 1;
    }
    if bh[k] == value {
      var whole := WordIs(bh, k, value);
      while whole
        invariant start <= k <= stop && forall m :: start <= m < k ==> bh[m] == value
        invariant whole <==> AllBits(bh, k, value)
        decreases stop - k, whole
      {
        assert k + 32 <= stop;
        k := k + 32;
        whole := WordIs(bh, k, value);
      }
      while bh[k] == value
        invariant start <= k <= stop && forall m :: start <= m < k ==> bh[m] == value
        decreases stop - k
      {
        k := k + 1;
      }
    }
  }

  /** Positions 0 .. r are in pair order and their headers mark the strict steps. */
  ghost predicate DoneTo(f: seq<int>, R: seq<int>, E: seq<int>, bh: seq<bool>, r: int)
    requires |R| == |E| == |f| <= |bh| && InRange(f, |R|) && r < |f|
  {
    && (forall x, y :: 0 <= x < y <= r ==> !PairLt(R, E, f[y], f[x]))
    && forall i {:trigger bh[i]} :: 0 < i <= r ==> (bh[i] <==> PairLt(R, E, f[i - 1], f[i]))
  }

  /** Positions after r are as at the start of the round (f0, b0), which was ordered by R with headers b0. */
  ghost predicate RoundState(f0: seq<int>, b0: seq<bool>, f: seq<int>, bh: seq<bool>, R: seq<int>, r: int)
    requires |f0| == |f| == |R| <= |b0| == |bh| && InRange(f0, |R|) && InRange(f, |R|) && -1 <= r
  {
    && (forall x, y :: 0 <= x < y < |f| ==> R[f0[x]] <= R[f0[y]])
    && (forall i {:trigger b0[i]} :: 0 < i < |f| ==> (b0[i] <==> R[f0[i - 1]] < R[f0[i]]))
    && (forall x :: 0 <= x < |f| ==> R[f[x]] == R[f0[x]])
    && (forall x :: r < x < |f| ==> f[x] == f0[x])
    && (forall i :: r < i < |bh| ==> bh[i] == b0[i])
  }

  /** Singleton buckets need no work: a run of set header bits extends the finished part. */
  lemma SkipSingletons(f0: seq<int>, b0: seq<bool>, f: seq<int>, bh: seq<bool>, R: seq<int>, E: seq<int>, r: int, l: int)
    requires |f0| == |f| == |R| == |E| <= |b0| == |bh| && InRange(f0, |R|) && InRange(f, |R|) && -1 <= r <= l < |f|
    requires RoundState(f0, b0, f, bh, R, r) && DoneTo(f, R, E, bh, r)
    requires forall m :: r < m <= l ==> b0[m]
    ensures DoneTo(f, R, E, bh, l) && RoundState(f0, b0, f, bh, R, l)
    ensures forall x :: 0 <= x < l && r < l ==> R[f[x]] < R[f[l]]
  {
    forall x, y | 0 <= x < y <= l && r < y ensures R[f[x]] < R[f[y]] {
      assert b0[y] && R[f0[y - 1]] < R[f0[y]];
      if x < y - 1 { assert R[f0[x]] <= R[f0[y - 1]]; }
    }
    forall i | r < i <= l && 0 < i ensures bh[i] && PairLt(R, E, f[i - 1], f[i]) { assert b0[i]; }
  }

  /** Sorting the bucket [l, r'] by E and marking its steps extends the finished part over it. */
  lemma FinishBucket(f0: seq<int>, b0: seq<bool>, f: seq<int>, bh: seq<bool>, f': seq<int>, bh': seq<bool>,
                     R: seq<int>, E: seq<int>, l: int, r': int)
    requires |f0| == |f| == |f'| == |R| == |E| <= |b0| == |bh| == |bh'|
    requires InRange(f0, |R|) && InRange(f, |R|) && InRange(f', |R|) && 0 <= l < r' < |f|
    requires RoundState(f0, b0, f, bh, R, l) && DoneTo(f, R, E, bh, l)
    requires forall x :: 0 <= x < l ==> R[f[x]] < R[f[l]]
    requires forall m :: l < m <= r' ==> !b0[m]
    requires Q.Rearranges(f, f', l, r') && Q.SortedByKey(f', E, l, r')
    requires forall i :: 0 <= i < |bh| && (i <= l || r' < i) ==> bh'[i] == bh[i]
    requires forall i {:trigger bh'[i]} :: l < i <= r' ==> (bh'[i] <==> E[f'[i - 1]] != E[f'[i]])
    ensures DoneTo(f', R, E, bh', r') && RoundState(f0, b0, f', bh', R, r')
  {
    OneRank(f0, b0, f, bh, R, l, r');
    forall x | l <= x <= r' ensures R[f'[x]] == R[f[l]] {
      Q.FromRange(f, f', l, r', x);
      var x' :| l <= x' <= r' && f[x'] == f'[x];
      assert R[f[x']] == R[f[l]];
    }
    forall x, y | 0 <= x < y <= r' ensures !PairLt(R, E, f'[y], f'[x]) {
      if x < l {
        assert f'[x] == f[x];
        if y < l { assert f'[y] == f[y]; } else { assert R[f[x]] < R[f[l]]; }
      }
    }
    forall i | 0 < i <= r' ensures bh'[i] <==> PairLt(R, E, f'[i - 1], f'[i]) {
      if i < l { assert bh'[i] == bh[i] && f'[i] == f[i] && f'[i - 1] == f[i - 1]; }
      else if i == l { assert bh'[i] == bh[i] && f'[i - 1] == f[i - 1]; assert R[f[l - 1]] < R[f[l]]; assert b0[l]; }
    }
  }

  /** A bucket without inner headers has one rank. */
  lemma {:induction false} OneRank(f0: seq<int>, b0: seq<bool>, f: seq<int>, bh: seq<bool>, R: seq<int>, l: int, r': int)
    requires |f0| == |f| == |R| <= |b0| == |bh| && InRange(f0, |R|) && InRange(f, |R|) && 0 <= l <= r' < |f|
    requires RoundState(f0, b0, f, bh, R, l) && forall m :: l < m <= r' ==> !b0[m]
    ensures forall x :: l <= x <= r' ==> R[f[x]] == R[f[l]]
    decreases r' - l
  {
    if l < r' {
      OneRank(f0, b0, f, bh, R, l, r' - 1);
      assert !b0[r'];
      assert R[f0[r' - 1]] <= R[f0[r']];
      assert R[f[r']] == R[f0[r']] && R[f[r' - 1]] == R[f0[r' - 1]];
    }
  }

  /** bh' is bh with a bit set wherever the class changes inside (l, r]. */
  ghost predicate StepsMarked(f: seq<int>, e: seq<int>, bh: seq<bool>, bh': seq<bool>, l: int, r: int)
    requires 0 <= l && r < |f| <= |bh| == |bh'| && InRange(f, |e|)
  {
    && (forall i :: 0 <= i < |bh| && (i <= l || r < i) ==> bh'[i] == bh[i])
    && forall i {:trigger bh'[i]} :: l < i <= r ==> (bh'[i] <==> e[f[i - 1]] != e[f[i]])
  }

  /** Sets a header bit wherever the class changes inside the sorted bucket [l, r]. */
  method MarkSteps(fmap: array<int>, eclass: array<int>, bhtab: array<bool>, l: int, r: int)
    requires fmap != eclass && 0 <= l <= r < fmap.Length <= bhtab.Length && InRange(fmap[..], eclass.Length)
    requires bhtab[l] && (forall i :: l < i <= r ==> !bhtab[i])
    requires forall x :: 0 <= x < eclass.Length ==> eclass[x] >= 0
    modifies bhtab
    ensures StepsMarked(fmap[..], eclass[..], old(bhtab[..]), bhtab[..], l, r)
  {
    var cc := -1;
    var i := l;
    while i <= r
      invariant l <= i <= r + 1 && cc == if i == l then -1 else eclass[fmap[i - 1]]
      invariant forall m :: 0 <= m < bhtab.Length && (m <= l || i <= m) ==> bhtab[m] == old(bhtab[m])
      invariant forall m {:trigger bhtab[m]} :: l < m < i ==> (bhtab[m] <==> eclass[fmap[m - 1]] != eclass[fmap[m]])
    {
      var cc1 := eclass[fmap[i]];
      if cc != cc1 { bhtab[i] := true; cc := cc1; }
      i := i + 1;
    }
  }

  /** The state of a round after positions 0 .. r: r + 1 begins the next bucket. */
  ghost predicate Round(f0: seq<int>, b0: seq<bool>, f: seq<int>, bh: seq<bool>, R: seq<int>, E: seq<int>, r: int) {
    |f0| == |f| == |R| == |E| <= |b0| == |bh| && InRange(f0, |R|) && InRange(f, |R|) && -1 <= r < |f|
    && multiset(f) == multiset(f0) && RoundState(f0, b0, f, bh, R, r) && DoneTo(f, R, E, bh, r)
    && Sentinels(bh, |f|) && bh[0] && bh[r + 1]
  }

  ghost predicate AllSet(bh: seq<bool>, a: int, b: int)
    requires 0 <= a && b <= |bh|
  {
    forall m :: a <= m < b ==> bh[m]
  }

  ghost predicate AllClear(bh: seq<bool>, a: int, b: int)
    requires 0 <= a && b <= |bh|
  {
    forall m :: a <= m < b ==> !bh[m]
  }

  /** The next bucket [l, r] of two or more after r0; l == n when there is none. */
  method FindBucket(bhtab: array<bool>, r0: int, n: int) returns (l: int, r: int)
    requires -1 <= r0 < n && n + 64 <= bhtab.Length && bhtab[n] && !bhtab[n + 1] && bhtab[r0 + 1]
    ensures r0 < l <= n && AllSet(bhtab[..], r0 + 1, l + 1)
    ensures l < n ==> l < r < n && AllClear(bhtab[..], l + 1, r + 1) && bhtab[r + 1]
  {
    var k := SkipBits(bhtab, r0 + 1, true, n + 1);
    l, r := k - 1, k - 1;
    if l < n {
      k := SkipBits(bhtab, k, false, n);
      r := k - 1;
    }
  }

  lemma SentinelStop(bh: seq<bool>, n: int)
    requires Sentinels(bh, n)
    ensures n + 64 <= |bh| && bh[n] && !bh[n + 1]
  {
    assert bh[n + 2 * 0] && !bh[n + 2 * 0 + 1];
  }

  lemma RoundStop(f0: seq<int>, b0: seq<bool>, f: seq<int>, bh: seq<bool>, R: seq<int>, E: seq<int>, r: int)
    requires Round(f0, b0, f, bh, R, E, r)
    ensures |f| == |R| == |E| && |f| + 64 <= |bh| && bh[|f|] && !bh[|f| + 1] && bh[r + 1] && InRange(f, |R|)
  {
    SentinelStop(bh, |f|);
  }

  lemma RoundSkip(f0: seq<int>, b0: seq<bool>, f: seq<int>, bh: seq<bool>, R: seq<int>, E: seq<int>, r: int, l: int)
    requires Round(f0, b0, f, bh, R, E, r) && r < l && (l < |f| <= |bh| ==> AllSet(bh, r + 1, l + 1)) && l < |f|
    ensures RoundState(f0, b0, f, bh, R, l) && DoneTo(f, R, E, bh, l)
    ensures forall x :: 0 <= x < l ==> R[f[x]] < R[f[l]]
  {
    SkipSingletons(f0, b0, f, bh, R, E, r, l);
  }

  lemma RoundBucket(f0: seq<int>, b0: seq<bool>, f: seq<int>, f': seq<int>, bh: seq<bool>, bh': seq<bool>,
                    R: seq<int>, E: seq<int>, r0: int, l: int, r: int)
    requires Round(f0, b0, f, bh, R, E, r0) && r0 < l < r < |f| && AllSet(bh, r0 + 1, l + 1)
    requires bh[r + 1] && forall m :: l < m <= r ==> !bh[m]
    requires |f'| <= |bh| == |bh'| && InRange(f', |R|) && Q.Rearranges(f, f', l, r) && Q.SortedByKey(f', E, l, r)
    requires StepsMarked(f', E, bh, bh', l, r)
    ensures Round(f0, b0, f', bh', R, E, r)
  {
    RoundSkip(f0, b0, f, bh, R, E, r0, l);
    forall m | l < m <= r ensures !b0[m] { assert bh[m] == b0[m]; }
    FinishBucket(f0, b0, f, bh, f', bh', R, E, l, r);
  }

  /** The remaining positions are singletons. */
  lemma RoundEnd(f0: seq<int>, b0: seq<bool>, f: seq<int>, bh: seq<bool>, R: seq<int>, E: seq<int>, r: int)
    requires Round(f0, b0, f, bh, R, E, r) && |f| < |bh| && AllSet(bh, r + 1, |f| + 1)
    ensures Round(f0, b0, f, bh, R, E, |f| - 1)
    ensures AllSet(bh, 0, r + 1) ==> AllSet(bh, 0, |f|)
  {
    if r < |f| - 1 { RoundSkip(f0, b0, f, bh, R, E, r, |f| - 1); }
  }

  /** Sorts the bucket [l, r] by class and marks where its classes change. */
  method SortBucket(fmap: array<int>, eclass: array<int>, bhtab: array<bool>, l: int, r: int,
                    ghost f0: seq<int>, ghost b0: seq<bool>, ghost R: seq<int>, ghost r0: int)
    requires fmap != eclass && fmap.Length == eclass.Length == |R| <= 0x8000_0000 && -1 <= r0 < l < r < fmap.Length < bhtab.Length
    requires forall x :: 0 <= x < eclass.Length ==> eclass[x] >= 0
    requires Round(f0, b0, fmap[..], bhtab[..], R, eclass[..], r0) && AllSet(bhtab[..], r0 + 1, l + 1)
    requires bhtab[r + 1] && AllClear(bhtab[..], l + 1, r + 1)
    modifies fmap, bhtab
    ensures Round(f0, b0, fmap[..], bhtab[..], R, eclass[..], r)
    ensures AllSame(eclass[..]) ==> fmap[..] == old(fmap[..])
  {
    hide AllSame;
    ghost var f, bh, E := fmap[..], bhtab[..], eclass[..];
    RoundStop(f0, b0, f, bh, R, E, r0);
    assert bh[l] && forall m :: l < m <= r ==> !bh[m];
    Q.QSort3(fmap, eclass, l, r);
    MarkSteps(fmap, eclass, bhtab, l, r);
    ghost var f', bh' := fmap[..], bhtab[..];
    assert bhtab.Length == |bh'| && eclass[..] == E;
    hide *;
    RoundBucket(f0, b0, f, f', bh, bh', R, E, r0, l, r);
  }

  /** One round: finds each bucket of two or more, sorts it by class and splits it. Returns how many positions
      were in such buckets. */
  method RefineRound(fmap: array<int>, eclass: array<int>, bhtab: array<bool>, ghost R: seq<int>) returns (nNotDone: int)
    requires fmap != eclass && fmap.Length == eclass.Length == |R| <= 0x8000_0000 && fmap.Length <= bhtab.Length
    requires forall x :: 0 <= x < eclass.Length ==> eclass[x] >= 0
    requires Round(fmap[..], bhtab[..], fmap[..], bhtab[..], R, eclass[..], -1)
    modifies fmap, bhtab
    ensures Round(old(fmap[..]), old(bhtab[..]), fmap[..], bhtab[..], R, eclass[..], |R| - 1)
    ensures nNotDone == 0 ==> AllSet(bhtab[..], 0, |R|)
    ensures AllSame(eclass[..]) ==> fmap[..] == old(fmap[..])
  {
    ghost var f0, b0, E, n := fmap[..], bhtab[..], eclass[..], fmap.Length;
    assert AllSet(bhtab[..], 0, 0);
    hide *;
    nNotDone := 0;
    var r, over := -1, false;
    while !over
      invariant -1 <= r < n && 0 <= nNotDone && eclass[..] == E && (over ==> r == n - 1)
      invariant Round(f0, b0, fmap[..], bhtab[..], R, E, r)
      invariant nNotDone == 0 ==> AllSet(bhtab[..], 0, r + 1)
      invariant AllSame(E) ==> fmap[..] == f0
      decreases n - r, !over
    {
      var k;
      over, r, k := RefineNext(fmap, eclass, bhtab, r, f0, b0, R);
      nNotDone := nNotDone + k;
    }
  }

  /** Sorts the next bucket of two or more after r, if there is one; its size is added to the positions not done. */
  method RefineNext(fmap: array<int>, eclass: array<int>, bhtab: array<bool>, r0: int, ghost f0: seq<int>, ghost b0: seq<bool>, ghost R: seq<int>)
    returns (over: bool, r: int, size: int)
    requires fmap != eclass && fmap.Length == eclass.Length == |R| <= 0x8000_0000 && fmap.Length <= bhtab.Length
    requires forall x :: 0 <= x < eclass.Length ==> eclass[x] >= 0
    requires -1 <= r0 < fmap.Length && Round(f0, b0, fmap[..], bhtab[..], R, eclass[..], r0)
    modifies fmap, bhtab
    ensures Round(f0, b0, fmap[..], bhtab[..], R, eclass[..], r)
    ensures if over then r == fmap.Length - 1 && size == 0 && (old(AllSet(bhtab[..], 0, r0 + 1)) ==> AllSet(bhtab[..], 0, fmap.Length))
            else r0 < r < fmap.Length && size > 0
    ensures AllSame(eclass[..]) ==> fmap[..] == old(fmap[..])
  {
    ghost var bh := bhtab[..];
    hide *;
    RoundStop(f0, b0, fmap[..], bh, R, eclass[..], r0);
    var l;
    l, r := FindBucket(bhtab, r0, fmap.Length);
    if l >= fmap.Length {
      RoundEnd(f0, b0, fmap[..], bh, R, eclass[..], r0);
      return true, fmap.Length - 1, 0;
    }
    size := r - l + 1;
    SortBucket(fmap, eclass, bhtab, l, r, f0, b0, R, r0);
    over := false;
  }

  /** A round may start from any refined state. */
  lemma RoundStart(s: seq<int>, f: seq<int>, bh: seq<bool>, R: seq<int>, E: seq<int>, h: nat)
    requires Refined(s, f, bh, h) && Ranks(s, R, h) && |E| == |s| && Sentinels(bh, |s|)
    ensures Round(f, bh, f, bh, R, E, -1)
  {
    forall x, y | 0 <= x < y < |f| ensures R[f[x]] <= R[f[y]] {
      assert Cmp(s, f[x], f[y], h) <= 0;
      CmpAntisymmetric(s, f[x], f[y], h);
    }
    forall i | 0 < i < |f| ensures bh[i] <==> R[f[i - 1]] < R[f[i]] {
      assert bh[i] <==> Cmp(s, f[i - 1], f[i], h) < 0;
    }
  }

  /** A finished round has doubled the depth. */
  lemma RoundDoubles(s: seq<int>, f0: seq<int>, b0: seq<bool>, f: seq<int>, bh: seq<bool>, R: seq<int>, E: seq<int>, h: nat)
    requires Refined(s, f0, b0, h) && Ranks(s, R, h) && Round(f0, b0, f, bh, R, E, |s| - 1)
    requires forall a :: 0 <= a < |s| ==> E[a] == R[(a + h) % |s|]
    ensures Refined(s, f, bh, 2 * h)
  {
    RearrangedPerm(f0, f, |s|);
    forall x, y | 0 <= x <= y < |s| ensures Cmp(s, f[x], f[y], 2 * h) <= 0 {
      CmpAntisymmetric(s, f[x], f[y], 2 * h);
      DoubleDepth(s, R, E, h, f[y], f[x]);
    }
    forall i | 0 < i < |s| ensures bh[i] <==> Cmp(s, f[i - 1], f[i], 2 * h) < 0 {
      DoubleDepth(s, R, E, h, f[i - 1], f[i]);
    }
  }

  /** The loop may stop: deep enough, or no two rotations still agree. */
  lemma DeepEnough(s: seq<int>, f: seq<int>, bh: seq<bool>, h: nat)
    requires Refined(s, f, bh, h) && (h > |s| || AllSet(bh, 0, |s|))
    ensures SortedRotations(s, f)
  {
    forall x, y | 0 <= x <= y < |s| ensures Cmp(s, f[x], f[y], |s|) <= 0 {
      if h >= |s| {
        CmpBeyondPeriod(s, f[x], f[y], h);
      } else if x < y {
        HeaderBetween(s, f, bh, h, x, y);
        assert bh[y];
        CmpPrefix(s, f[x], f[y], h, |s|);
      } else {
        CmpAntisymmetric(s, f[x], f[x], |s|);
      }
    }
  }

  /** ftab[c] counts the characters of s below c + 1. */
  ghost predicate CumulativeTo(s: seq<int>, t: seq<int>, m: int) {
    |t| == 257 && 0 <= m <= 257 && (forall c :: 0 <= c < m ==> t[c] == Below(s, c + 1))
    && forall c :: m <= c < 257 ==> t[c] == Count(s, c)
  }

  /** The initial counting sort: groups the positions by character. On return ftab holds the group starts and
      ftabCopy the group sizes. */
  method RadixSort(block: array<Byte>, fmap: array<int>, ftab: array<int>, ftabCopy: array<int>)
    requires fmap.Length == block.Length && ftab.Length == 257 && ftabCopy.Length == 256
    requires fmap != ftab && fmap != ftabCopy && ftab != ftabCopy
    modifies fmap, ftab, ftabCopy
    ensures Grouped(block[..], fmap[..]) && (AllSame(block[..]) ==> Falling(fmap[..]))
    ensures forall c :: 0 <= c < 256 ==> ftab[c] == Below(block[..], c) && ftabCopy[c] == Count(block[..], c)
  {
    ghost var s := block[..];
    var i := 0;
    while i < 257
      invariant 0 <= i <= 257 && forall c :: 0 <= c < i ==> ftab[c] == 0
    {
      ftab[i] := 0;
      i := i + 1;
    }
    i := 0;
    assert s[..0] == [];
    while i < block.Length
      invariant 0 <= i <= |s| && forall c :: 0 <= c < 257 ==> ftab[c] == Count(s[..i], c)
    {
      forall c ensures Count(s[..i + 1], c) == Count(s[..i], c) + if s[i] == c then 1 else 0 { BelowStep(s, i, c); }
      ftab[block[i]] := ftab[block[i]] + 1;
      i := i + 1;
    }
    assert s[..|s|] == s;
    i := 0;
    while i < 256
      invariant 0 <= i <= 256 && (forall c :: 0 <= c < 257 ==> ftab[c] == Count(s, c))
      invariant forall c :: 0 <= c < i ==> ftabCopy[c] == Count(s, c)
    {
      ftabCopy[i] := ftab[i];
      i := i + 1;
    }
    i := 1;
    BelowExtremes(s, 0);
    while i < 257
      invariant 1 <= i <= 257 && CumulativeTo(s, ftab[..], i)
      invariant forall c :: 0 <= c < 256 ==> ftabCopy[c] == Count(s, c)
    {
      ftab[i] := ftab[i] + ftab[i - 1];
      i := i + 1;
    }
    Place(block, fmap, ftab);
  }

  /** The placing loop after i positions: each went to the last free slot of its group. */
  ghost predicate Placing(s: seq<Byte>, f: seq<int>, t: seq<int>, pos: seq<int>, i: int) {
    |pos| == i <= |s| == |f| && |t| == 257 && Distinct(pos)
    && (forall c :: 0 <= c < 257 ==> t[c] == Below(s, c + 1) - Count(s[..i], c))
    && Slotted(s, f, t, pos)
  }

  /** Every placed position is in a slot of its group, not below the last one taken there. */
  ghost predicate Slotted(s: seq<Byte>, f: seq<int>, t: seq<int>, pos: seq<int>)
    requires |pos| <= |s| == |f| && |t| == 257
  {
    forall x :: 0 <= x < |pos| ==> Below(s, s[x]) <= pos[x] < Below(s, s[x] as int + 1) && t[s[x]] <= pos[x] && f[pos[x]] == x
  }

  lemma SlottedMore(s: seq<Byte>, f: seq<int>, t: seq<int>, pos: seq<int>, k: int)
    requires |pos| < |s| == |f| && |t| == 257 && Slotted(s, f, t, pos) && forall x :: 0 <= x < |pos| ==> pos[x] != k
    requires 0 <= k < |f| && k == t[s[|pos|]] - 1 && Below(s, s[|pos|]) <= k < Below(s, s[|pos|] as int + 1)
    ensures Slotted(s, f[k := |pos|], t[s[|pos|] := k], pos + [k])
  {
    hide Below;
  }

  lemma PlaceStep(s: seq<Byte>, f: seq<int>, t: seq<int>, pos: seq<int>, i: int)
    requires Placing(s, f, t, pos, i) && i < |s|
    ensures var k := t[s[i]] - 1;
            0 <= k < |s| && Placing(s, f[k := i], t[s[i] := k], pos + [k], i + 1)
  {
    hide *;
    PlacingSizes(s, f, t, pos, i);
    var b: int := s[i];
    var k := t[b] - 1;
    SlotInGroup(s, f, t, pos, i);
    SlotUnused(s, f, t, pos, i);
    CountedDown(s, f, t, pos, i, t[b := k]);
    PlacingJoin(s, f, t, pos, i, t[b := k], k);
  }

  lemma PlacingSizes(s: seq<Byte>, f: seq<int>, t: seq<int>, pos: seq<int>, i: int)
    requires Placing(s, f, t, pos, i)
    ensures |pos| == i <= |s| == |f| && |t| == 257
  {
  }

  /** The slot below the last one taken still lies in the group. */
  lemma SlotInGroup(s: seq<Byte>, f: seq<int>, t: seq<int>, pos: seq<int>, i: int)
    requires Placing(s, f, t, pos, i) && i < |s|
    ensures Below(s, s[i]) < t[s[i]] <= Below(s, s[i] as int + 1)
  {
    var b: int := s[i];
    hide Distinct;
    BelowStep(s, i, b);
    CountPrefix(s, 0, i, b);
    CountPrefix(s, i + 1, |s|, b);
    assert s[..|s|] == s;
    assert Count(s, b) == Below(s, b + 1) - Below(s, b);
  }

  /** No earlier position took that slot: those of other groups are elsewhere, those of the same group above it. */
  lemma SlotUnused(s: seq<Byte>, f: seq<int>, t: seq<int>, pos: seq<int>, i: int)
    requires Placing(s, f, t, pos, i) && i < |s| && Below(s, s[i]) < t[s[i]] <= Below(s, s[i] as int + 1)
    ensures forall x :: 0 <= x < i ==> pos[x] != t[s[i]] - 1
  {
    hide Below, Count, Distinct;
    forall x | 0 <= x < i ensures pos[x] != t[s[i]] - 1 {
      if s[x] < s[i] { BelowMonotone(s, s[x] as int + 1, s[i]); }
      if s[i] < s[x] { BelowMonotone(s, s[i] as int + 1, s[x]); }
    }
  }

  lemma CountedDown(s: seq<Byte>, f: seq<int>, t: seq<int>, pos: seq<int>, i: int, t': seq<int>)
    requires Placing(s, f, t, pos, i) && i < |s| && t' == t[s[i] := t[s[i]] - 1]
    ensures forall c :: 0 <= c < 257 ==> t'[c] == Below(s, c + 1) - Count(s[..i + 1], c)
  {
    hide Below, Count, Distinct;
    forall c | 0 <= c < 257 ensures t'[c] == Below(s, c + 1) - Count(s[..i + 1], c) { BelowStep(s, i, c); }
  }

  lemma PlacingJoin(s: seq<Byte>, f: seq<int>, t: seq<int>, pos: seq<int>, i: int, t': seq<int>, k: int)
    requires Placing(s, f, t, pos, i) && i < |s| && k == t[s[i]] - 1 && Below(s, s[i]) <= k < Below(s, s[i] as int + 1) && t' == t[s[i] := k]
    requires forall x :: 0 <= x < i ==> pos[x] != k
    requires forall c :: 0 <= c < 257 ==> t'[c] == Below(s, c + 1) - Count(s[..i + 1], c)
    ensures 0 <= k < |s| && Placing(s, f[k := i], t', pos + [k], i + 1)
  {
    hide *;
    PlacingParts(s, f, t, pos, i);
    BelowBounds(s, s[i]);
    DistinctMore(pos, k);
    SlottedMore(s, f, t, pos, k);
    PlacingIs(s, f[k := i], t', pos + [k], i + 1);
  }

  lemma BelowBounds(s: seq<Byte>, b: Byte)
    ensures 0 <= Below(s, b) && Below(s, b as int + 1) <= |s|
  {
  }

  lemma PlacingParts(s: seq<Byte>, f: seq<int>, t: seq<int>, pos: seq<int>, i: int)
    requires Placing(s, f, t, pos, i)
    ensures |pos| == i <= |s| == |f| && |t| == 257 && Distinct(pos) && Slotted(s, f, t, pos)
  {
    hide Distinct, Slotted, Below, Count;
  }

  lemma PlacingIs(s: seq<Byte>, f: seq<int>, t: seq<int>, pos: seq<int>, i: int)
    requires |pos| == i <= |s| == |f| && |t| == 257 && Distinct(pos) && Slotted(s, f, t, pos)
    requires forall c :: 0 <= c < 257 ==> t[c] == Below(s, c + 1) - Count(s[..i], c)
    ensures Placing(s, f, t, pos, i)
  {
    hide Distinct, Slotted, Below, Count;
  }

  lemma DistinctMore(pos: seq<int>, k: int)
    requires Distinct(pos) && forall x :: 0 <= x < |pos| ==> pos[x] != k
    ensures Distinct(pos + [k])
  {
  }

  method Place(block: array<Byte>, fmap: array<int>, ftab: array<int>)
    requires fmap.Length == block.Length && ftab.Length == 257 && fmap != ftab
    requires forall c :: 0 <= c < 257 ==> ftab[c] == Below(block[..], c + 1)
    modifies fmap, ftab
    ensures Grouped(block[..], fmap[..]) && (AllSame(block[..]) ==> Falling(fmap[..]))
    ensures forall c :: 0 <= c < 256 ==> ftab[c] == Below(block[..], c)
  {
    hide *;
    ghost var s: seq<Byte> := block[..];
    ghost var pos := [];
    var i := 0;
    PlaceStart(s, fmap[..], ftab[..]);
    while i < block.Length
      invariant 0 <= i <= |s| && Placing(s, fmap[..], ftab[..], pos, i) && (AllSame(s) ==> Fallen(pos, |s|))
    {
      PlaceStep(s, fmap[..], ftab[..], pos, i);
      PlaceFalls(s, fmap[..], ftab[..], pos, i);
      var j := block[i];
      var k := ftab[j] - 1;
      ftab[j] := k;
      fmap[k] := i;
      pos := pos + [k];
      i := i + 1;
    }
    PlaceDone(s, fmap[..], ftab[..], pos);
  }

  lemma PlaceStart(s: seq<Byte>, f: seq<int>, t: seq<int>)
    requires |f| == |s| && |t| == 257 && forall c :: 0 <= c < 257 ==> t[c] == Below(s, c + 1)
    ensures Placing(s, f, t, [], 0) && Fallen([], |s|)
  {
    assert s[..0] == [];
  }

  /** Position x has gone to place n - 1 - x. */
  ghost predicate Fallen(pos: seq<int>, n: int) {
    forall x :: 0 <= x < |pos| ==> pos[x] == n - 1 - x
  }

  /** The last position first. */
  ghost predicate Falling(f: seq<int>) {
    forall k :: 0 <= k < |f| ==> f[k] == |f| - 1 - k
  }

  /** In a block of one letter every position goes to the place below the last. */
  lemma PlaceFalls(s: seq<Byte>, f: seq<int>, t: seq<int>, pos: seq<int>, i: int)
    requires Placing(s, f, t, pos, i) && i < |s|
    ensures AllSame(s) && Fallen(pos, |s|) ==> Fallen(pos + [t[s[i]] - 1], |s|)
  {
    if AllSame(s) {
      OneCounted(s, s[0]);
      OneCounted(s[..i], s[0]);
      hide Below, Count, Distinct, Slotted;
      assert t[s[i]] == |s| - i;
    }
  }


  lemma PlaceDone(s: seq<Byte>, f: seq<int>, t: seq<int>, pos: seq<int>)
    requires Placing(s, f, t, pos, |s|) && |t| == 257
    ensures Grouped(s, f) && (forall c :: 0 <= c < 256 ==> t[c] == Below(s, c)) && (Fallen(pos, |s|) ==> Falling(f))
  {
    assert s[..|s|] == s;
    if Fallen(pos, |s|) {
      forall k | 0 <= k < |f| ensures f[k] == |f| - 1 - k { assert pos[|f| - 1 - k] == k; }
    }
    SlotsGroup(s, pos, f);
  }

  /** m is where the group of some character below n starts. */
  ghost predicate StartsGroup(s: seq<int>, n: int, m: int) {
    exists c :: 0 <= c < n && Below(s, c) == m
  }

  /** Sets the header bit at every group start and the alternating bits beyond the block. */
  method MarkGroups(ghost s: seq<int>, ftab: array<int>, bhtab: array<bool>, nblock: int)
    requires 0 < nblock == |s| && ftab.Length == 257 && nblock + 64 + 32 <= bhtab.Length
    requires forall c :: 0 <= c < 256 ==> ftab[c] == Below(s, c)
    modifies bhtab
    ensures Sentinels(bhtab[..], nblock)
    ensures forall i :: 0 <= i < nblock ==> (bhtab[i] <==> StartsGroup(s, 256, i))
  {
    var nBits := 32 * (2 + nblock / 32);
    var i := 0;
    while i < nBits
      invariant 0 <= i <= nBits && forall m :: 0 <= m < i ==> !bhtab[m]
    {
      bhtab[i] := false;
      i := i + 1;
    }
    i := 0;
    while i < 256
      invariant 0 <= i <= 256
      invariant forall m :: 0 <= m < nblock ==> (bhtab[m] <==> StartsGroup(s, i, m))
    {
      forall m ensures StartsGroup(s, i + 1, m) <==> StartsGroup(s, i, m) || Below(s, i) == m {}
      bhtab[ftab[i]] := true;
      i := i + 1;
    }
    i := 0;
    while i < 32
      invariant 0 <= i <= 32
      invariant forall m :: 0 <= m < i ==> bhtab[nblock + 2 * m] && !bhtab[nblock + 2 * m + 1]
      invariant forall m :: 0 <= m < nblock ==> (bhtab[m] <==> StartsGroup(s, 256, m))
    {
      bhtab[nblock + 2 * i] := true;
      bhtab[nblock + 2 * i + 1] := false;
      i := i + 1;
    }
  }

  /** Grouping by character with bits at the group starts is the refined state at depth 1. */
  lemma GroupsRefined(s: seq<Byte>, f: seq<int>, bh: seq<bool>)
    requires s != [] && Grouped(s, f) && |s| <= |bh|
    requires forall i :: 0 <= i < |s| ==> (bh[i] <==> StartsGroup(s, 256, i))
    ensures Refined(s, f, bh, 1)
  {
    forall x, y | 0 <= x <= y < |s| ensures Cmp(s, f[x], f[y], 1) <= 0 {
      GroupedOrder(s, f, x, s[f[y]] as int + 1);
      GroupedOrder(s, f, y, s[f[y]] as int + 1);
      FirstCharacter(s, f[x], f[y]);
    }
    BelowExtremes(s, 0);
    assert StartsGroup(s, 256, 0);
    forall i | 0 < i < |s| ensures bh[i] <==> Cmp(s, f[i - 1], f[i], 1) < 0 {
      FirstCharacter(s, f[i - 1], f[i]);
      GroupStart(s, f, i);
    }
  }

  lemma GroupStart(s: seq<Byte>, f: seq<int>, i: int)
    requires Grouped(s, f) && 0 < i < |s|
    ensures StartsGroup(s, 256, i) <==> s[f[i - 1]] < s[f[i]]
  {
    var d: int := s[f[i]];
    GroupedOrder(s, f, i - 1, d);
    GroupedOrder(s, f, i, d);
    if StartsGroup(s, 256, i) {
      var c :| 0 <= c < 256 && Below(s, c) == i;
      GroupedOrder(s, f, i - 1, c);
      GroupedOrder(s, f, i, c);
    }
  }

  lemma FirstCharacter(s: seq<int>, i: int, j: int)
    requires 0 <= i < |s| && 0 <= j < |s|
    ensures Cmp(s, i, j, 1) < 0 <==> s[i] < s[j]
    ensures Cmp(s, i, j, 1) == 0 <==> s[i] == s[j]
  {
    assert Cmp(s, i, j, 0) == 0;
    DivModUnique(i, |s|, 0, i);
    DivModUnique(j, |s|, 0, j);
  }

  /** Puts the block back: the k-th rotation in order begins with the k-th smallest character. */
  method Reconstruct(ghost s: seq<Byte>, fmap: array<int>, ftabCopy: array<int>, block: array<Byte>)
    requires fmap != ftabCopy && fmap.Length == block.Length == |s| && ftabCopy.Length == 256
    requires SortedRotations(s, fmap[..])
    requires forall c :: 0 <= c < 256 ==> ftabCopy[c] == Count(s, c)
    modifies ftabCopy, block
    ensures block[..] == s
  {
    ghost var f := fmap[..];
    RotationsGrouped(s, f);
    BelowExtremes(s, 0);
    var j, i := 0, 0;
    while i < fmap.Length
      invariant 0 <= i <= |s| && 0 <= j < 256 && fmap[..] == f
      invariant Below(s, j) <= i <= Below(s, j + 1) && ftabCopy[j] == Below(s, j + 1) - i
      invariant forall c :: j < c < 256 ==> ftabCopy[c] == Count(s, c)
      invariant forall x :: 0 <= x < i ==> block[f[x]] == s[f[x]]
    {
      GroupedOrder(s, f, i, j);
      while ftabCopy[j] == 0
        invariant 0 <= j < 256 && Below(s, j) <= i <= Below(s, j + 1) && ftabCopy[j] == Below(s, j + 1) - i
        invariant forall c :: j < c < 256 ==> ftabCopy[c] == Count(s, c)
        invariant s[f[i]] >= j
        modifies {}
        decreases 256 - j
      {
        GroupedOrder(s, f, i, j + 1);
        j := j + 1; // stays below 256: assertion 1005
        BelowMonotone(s, j, j + 1);
      }
      GroupedOrder(s, f, i, j + 1);
      forall x | 0 <= x < i ensures f[x] != f[i] {}
      ftabCopy[j] := ftabCopy[j] - 1;
      block[fmap[i]] := j;
      i := i + 1;
    }
    forall v | 0 <= v < |s| ensures block[v] == s[v] { PermOnto(f, |s|, v); }
  }

  /** Sorted rotations are grouped by first character. */
  lemma RotationsGrouped(s: seq<Byte>, f: seq<int>)
    requires SortedRotations(s, f)
    ensures Grouped(s, f)
  {
    forall x, y | 0 <= x <= y < |s| ensures s[f[x]] <= s[f[y]] {
      FirstCharacter(s, f[x], f[y]);
      assert Cmp(s, f[x], f[y], |s|) <= 0;
      if Cmp(s, f[x], f[y], 1) != 0 { CmpPrefix(s, f[x], f[y], 1, |s|); }
    }
    Counting.SortedGrouped(s, f);
  }

  /** fallbackSort: on return fmap lists the rotations of the block in sorted order and the block, whose memory the
      sort used for eclass, holds its bytes again. */
  method Sort(block: array<Byte>, fmap: array<int>, eclass: array<int>, bhtab: array<bool>)
    requires 0 < block.Length == fmap.Length == eclass.Length <= 0x8000_0000 && block.Length + 96 <= bhtab.Length
    requires fmap != eclass
    modifies block, fmap, eclass, bhtab
    ensures block[..] == old(block[..]) && SortedRotations(block[..], fmap[..])
    ensures AllSame(block[..]) ==> Falling(fmap[..])
  {
    hide AllSame, Falling;
    ghost var s: seq<Byte> := block[..];
    var nblock := block.Length;
    var ftab, ftabCopy := new int[257], new int[256];
    RadixSort(block, fmap, ftab, ftabCopy);
    MarkGroups(s, ftab, bhtab, nblock);
    GroupsRefined(s, fmap[..], bhtab[..]);
    var H := 1;
    while true
      invariant 1 <= H <= nblock && fmap.Length == |s|
      invariant Refined(s, fmap[..], bhtab[..], H) && Sentinels(bhtab[..], nblock)
      invariant forall c :: 0 <= c < 256 ==> ftabCopy[c] == Count(s, c)
      invariant AllSame(s) ==> Falling(fmap[..])
      decreases nblock - H
    {
      hide Refined, Sentinels, Count, Ranks, Round;
      var nNotDone := Double(s, block, fmap, eclass, bhtab, H);
      H := H * 2;
      if H > nblock || nNotDone == 0 {
        DeepEnough(s, fmap[..], bhtab[..], H);
        break;
      }
    }
    Reconstruct(s, fmap, ftabCopy, block);
  }

  /** In a block of one letter all rotations stay in one class. */
  lemma OneClass(s: seq<int>, R: seq<int>, E: seq<int>, h: nat)
    requires s != [] && Ranks(s, R, h) && |E| == |s| && forall a :: 0 <= a < |s| ==> E[a] == R[(a + h) % |s|]
    ensures AllSame(s) ==> AllSame(E)
  {
    if AllSame(s) {
      forall x | 0 <= x < |s| ensures E[x] == E[0] {
        var v, w := (x + h) % |s|, (0 + h) % |s|;
        CmpIsLexicographic(s, v, w, h);
        hide Cmp;
        RanksEqual(s, R, h, v, w);
      }
    }
  }

  /** The body of the log(N) loop. */
  method Double(ghost s: seq<Byte>, block: array<Byte>, fmap: array<int>, eclass: array<int>, bhtab: array<bool>, H: int)
    returns (nNotDone: int)
    requires 1 <= H <= |s| == fmap.Length == eclass.Length <= 0x8000_0000 && fmap != eclass && |s| <= bhtab.Length
    requires Refined(s, fmap[..], bhtab[..], H) && Sentinels(bhtab[..], |s|)
    modifies block, fmap, eclass, bhtab
    ensures Refined(s, fmap[..], bhtab[..], 2 * H) && Sentinels(bhtab[..], |s|)
    ensures nNotDone == 0 ==> AllSet(bhtab[..], 0, |s|)
    ensures AllSame(s) ==> fmap[..] == old(fmap[..])
  {
    hide AllSame;
    ghost var f0, b0 := fmap[..], bhtab[..];
    ghost var R := ComputeClasses(s, fmap, eclass, block, bhtab, H);
    ghost var E := eclass[..];
    assert fmap[..] == f0 && bhtab[..] == b0 && forall x :: 0 <= x < eclass.Length ==> eclass[x] >= 0;
    RoundStart(s, f0, b0, R, E, H);
    OneClass(s, R, E, H);
    nNotDone := RefineRound(fmap, eclass, bhtab, R);
    assert eclass[..] == E;
    RoundDoubles(s, f0, b0, fmap[..], bhtab[..], R, E, H);
    assert Sentinels(bhtab[..], |s|);
  }
}
