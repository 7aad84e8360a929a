/** The start of mainSort: the two-letter radix sort, the overshoot area, and the order in which the big buckets are taken. */
module MainRadix {
  import opened Common
  import opened Rotations
  import opened BucketScan
  import opened MainScan
  import opened MainOrder
  import opened MainSimpleSort
  import opened Counting
  import Q = FallbackQSort

  /** The small bucket of every rotation. */
  function PairKeys(s: seq<int>): (k: seq<int>)
    requires Letters(s)
    ensures |k| == |s| && forall i :: 0 <= i < |s| ==> k[i] == Key(s, i) && 0 <= k[i] < 65536
  {
    seq(|s|, i requires 0 <= i < |s| => Key(s, i))
  }

  /** The starts of the small buckets. */
  function StartsOf(s: seq<int>): (st: seq<int>)
    requires Letters(s)
    ensures |st| == 65537
  {
    seq(65537, c requires 0 <= c < 65537 => Below(PairKeys(s), c))
  }

  lemma StartsAre(s: seq<int>)
    requires Letters(s)
    ensures Starts(StartsOf(s), |s|)
  {
    var k, st := PairKeys(s), StartsOf(s);
    BelowExtremes(k, 0);
    BelowExtremes(k, 65536);
    forall x, y | 0 <= x <= y < |st| ensures st[x] <= st[y] { BelowMonotone(k, x, y); }
  }

  /** j = (j >> 8) | (block[i] << 8): from the letters at i + 1 to those at i. */
  lemma NextKey(s: seq<int>, i: int, j: int)
    requires Letters(s) && 0 <= i < |s| && j / 256 == s[Succ(s, i)]
    ensures j / 256 + s[i] * 256 == Key(s, i) && (j / 256 + s[i] * 256) / 256 == s[i]
  {
  }

  /** The letter that the key before position i must hand on. */
  ghost predicate HandsOn(s: seq<int>, i: int, j: int)
    requires Letters(s) && 0 <= i <= |s|
  {
    j / 256 == s[if i == |s| then 0 else i]
  }

  lemma HandsOnSucc(s: seq<int>, i: int, j: int)
    requires Letters(s) && 0 < i <= |s| && HandsOn(s, i, j)
    ensures j / 256 == s[Succ(s, i - 1)]
  {
  }

  /** How many of the rotations from i on lie in bucket c, as ftab counts them. */
  ghost predicate Counted(s: seq<int>, ft: seq<int>, i: int)
    requires Letters(s) && 0 <= i <= |s|
  {
    |ft| == 65537 && forall c :: 0 <= c < 65537 ==> ft[c] == Count(PairKeys(s), c) - Count(PairKeys(s)[..i], c)
  }

  lemma CountStart(s: seq<int>, ft: seq<int>)
    requires Letters(s) && |ft| == 65537 && forall c :: 0 <= c < 65537 ==> ft[c] == 0
    ensures Counted(s, ft, |s|)
  {
    assert PairKeys(s)[..|s|] == PairKeys(s);
  }

  lemma CountStep(s: seq<int>, ft: seq<int>, i: int)
    requires Letters(s) && 0 < i <= |s| && Counted(s, ft, i)
    ensures var k := Key(s, i - 1); 0 <= k < |ft| && Counted(s, ft[k := ft[k] + 1], i - 1)
  {
    var keys := PairKeys(s);
    forall c | 0 <= c < 65537 ensures Count(keys[..i], c) == Count(keys[..i - 1], c) + if keys[i - 1] == c then 1 else 0 {
      BelowStep(keys, i - 1, c);
    }
    hide Count, PairKeys;
  }

  /** The 2-byte frequency table, and the quadrants cleared. The source writes the body of this loop out four times. */
  method CountPairs(block: array<int>, quadrant: array<int>, ftab: array<int>, nblock: int, ghost s: seq<int>)
    requires block != quadrant && block != ftab && quadrant != ftab && ftab.Length == 65537
    requires Letters(s) && nblock == |s| <= block.Length && block[..nblock] == s && nblock <= quadrant.Length
    modifies quadrant, ftab
    ensures Counted(s, ftab[..], 0) && forall i :: 0 <= i < nblock ==> quadrant[i] == 0
  {
    hide *;
    LettersShape(s, block[..nblock]);
    ClearPairs(ftab);
    CountStart(s, ftab[..]);
    var j := block[0] * 256;
    FirstHandsOn(s, j);
    var i := nblock - 1;
    while i >= 0
      invariant -1 <= i < nblock && HandsOn(s, i + 1, j) && Counted(s, ftab[..], i + 1)
      invariant forall k :: i < k < nblock ==> quadrant[k] == 0
    {
      quadrant[i] := 0;
      j := CountTurn(block, ftab, i, j, nblock, s);
      i := i - 1;
    }
  }

  lemma LettersShape(s: seq<int>, b: seq<int>)
    requires Letters(s) && b == s
    ensures s != [] && |b| > 0 && b[0] == s[0]
  {
  }

  method ClearPairs(ftab: array<int>)
    requires ftab.Length == 65537
    modifies ftab
    ensures forall c :: 0 <= c < 65537 ==> ftab[c] == 0
  {
    var i := 65536;
    while i >= 0
      invariant -1 <= i <= 65536 && forall c :: i < c < 65537 ==> ftab[c] == 0
    {
      ftab[i] := 0;
      i := i - 1;
    }
  }

  /** The rotation at i is counted. */
  method CountTurn(block: array<int>, ftab: array<int>, i: int, j0: int, nblock: int, ghost s: seq<int>) returns (j: int)
    requires block != ftab && Letters(s) && 0 <= i < nblock == |s| <= block.Length && block[..nblock] == s
    requires HandsOn(s, i + 1, j0) && Counted(s, ftab[..], i + 1)
    modifies ftab
    ensures HandsOn(s, i, j) && Counted(s, ftab[..], i)
  {
    hide *;
    assert block[i] == block[..nblock][i];
    HandsOnSucc(s, i + 1, j0);
    NextKey(s, i, j0);
    CountStep(s, ftab[..], i + 1);
    j := j0 / 256 + block[i] * 256;
    HandsOnNext(s, i, j);
    ftab[j] := ftab[j] + 1;
  }

  lemma FirstHandsOn(s: seq<int>, j: int)
    requires Letters(s) && j == s[0] * 256
    ensures HandsOn(s, |s|, j)
  {
  }

  lemma HandsOnNext(s: seq<int>, i: int, j: int)
    requires Letters(s) && 0 <= i < |s| && j == Key(s, i)
    ensures HandsOn(s, i, j)
  {
  }

  /** The overshoot area. */
  method Overshoot(block: array<int>, quadrant: array<int>, nblock: int, ghost s: seq<int>)
    requires block != quadrant && nblock == |s| && block.Length >= nblock + N_OVERSHOOT && quadrant.Length >= nblock + N_OVERSHOOT && N_OVERSHOOT < nblock
    requires block[..nblock] == s && forall i :: 0 <= i < nblock ==> quadrant[i] == 0
    modifies block, quadrant
    ensures Extended(s, block[..]) && Quadrants(s, quadrant[..])
  {
    var i := 0;
    while i < N_OVERSHOOT
      invariant 0 <= i <= N_OVERSHOOT && block[..nblock] == s
      invariant forall k :: 0 <= k < i ==> block[nblock + k] == s[k]
      invariant forall k :: 0 <= k < nblock + i ==> quadrant[k] == 0
    {
      assert block[i] == block[..nblock][i];
      block[nblock + i] := block[i];
      quadrant[nblock + i] := 0;
      i := i + 1;
    }
    ghost var b, q := block[..], quadrant[..];
    assert b[..nblock] == s;
    hide Cmp;
  }

  /** ftab as the end of every bucket: prefix sums up to i. */
  ghost predicate Summed(s: seq<int>, ft: seq<int>, i: int)
    requires Letters(s)
  {
    |ft| == 65537 && 1 <= i <= 65537
    && forall c :: 0 <= c < 65537 ==> ft[c] == if c < i then Below(PairKeys(s), c + 1) else Count(PairKeys(s), c)
  }

  lemma SumStart(s: seq<int>, ft: seq<int>)
    requires Letters(s) && Counted(s, ft, 0)
    ensures Summed(s, ft, 1)
  {
    var k := PairKeys(s);
    assert k[..0] == [];
    BelowExtremes(k, 0);
  }

  lemma SumStep(s: seq<int>, ft: seq<int>, i: int)
    requires Letters(s) && Summed(s, ft, i) && i < 65537
    ensures Summed(s, ft[i := ft[i] + ft[i - 1]], i + 1)
  {
    hide Below, PairKeys;
  }

  method SumUp(ftab: array<int>, ghost s: seq<int>)
    requires Letters(s) && Counted(s, ftab[..], 0)
    modifies ftab
    ensures Summed(s, ftab[..], 65537)
  {
    SumStart(s, ftab[..]);
    CountedLength(s, ftab[..]);
    hide Summed, Counted, Letters;
    var i := 1;
    while i <= 65536
      invariant 1 <= i <= 65537 && Summed(s, ftab[..], i)
    {
      SumStep(s, ftab[..], i);
      ftab[i] := ftab[i] + ftab[i - 1];
      i := i + 1;
    }
  }

  lemma CountedLength(s: seq<int>, ft: seq<int>)
    requires Letters(s) && Counted(s, ft, 0)
    ensures |ft| == 65537
  {
  }

  /** Rotations from i on are in place; ftab says where the next one of each bucket goes. */
  ghost predicate Placed(s: seq<int>, ft: seq<int>, p: seq<int>, i: int)
    requires Letters(s) && 0 <= i <= |s|
  {
    var k := PairKeys(s);
    |ft| == 65537 && |p| == |s| && (forall c :: 0 <= c < 65537 ==> ft[c] == Below(k, c) + Count(k[..i], c))
    && forall x :: i <= x < |s| ==> 0 <= Pos(k, x) < |p| && p[Pos(k, x)] == x
  }

  lemma PlaceStart(s: seq<int>, ft: seq<int>, p: seq<int>)
    requires Letters(s) && Summed(s, ft, 65537) && |p| == |s|
    ensures Placed(s, ft, p, |s|)
  {
    assert PairKeys(s)[..|s|] == PairKeys(s);
  }

  lemma PlaceStep(s: seq<int>, ft: seq<int>, p: seq<int>, i: int)
    requires Letters(s) && 0 < i <= |s| && Placed(s, ft, p, i)
    ensures var c := Key(s, i - 1); 0 <= c < |ft| && 0 <= ft[c] - 1 < |p| && Placed(s, ft[c := ft[c] - 1], p[ft[c] - 1 := i - 1], i - 1)
  {
    var k, c := PairKeys(s), Key(s, i - 1);
    PlacedAt(s, ft, p, i, c);
    hide *;
    assert Pos(k, i - 1) == ft[c] - 1;
    CountedBack(k, ft, i, c);
    OtherPlaces(k, i - 1);
    PlacedJoin(s, ft[c := ft[c] - 1], p[ft[c] - 1 := i - 1], i - 1);
  }

  lemma CountedBack(k: seq<int>, ft: seq<int>, i: int, c: int)
    requires 0 < i <= |k| && |ft| == 65537 && k[i - 1] == c && 0 <= c < 65537
    requires forall d :: 0 <= d < 65537 ==> ft[d] == Below(k, d) + Count(k[..i], d)
    ensures forall d :: 0 <= d < 65537 ==> ft[c := ft[c] - 1][d] == Below(k, d) + Count(k[..i - 1], d)
  {
    hide Below, Count;
    forall d | 0 <= d < 65537 ensures ft[c := ft[c] - 1][d] == Below(k, d) + Count(k[..i - 1], d) { BelowStep(k, i - 1, d); }
  }

  lemma OtherPlaces(k: seq<int>, i: int)
    requires 0 <= i < |k|
    ensures forall x :: i < x < |k| ==> Pos(k, x) != Pos(k, i)
  {
    hide Pos;
    forall x | i < x < |k| ensures Pos(k, x) != Pos(k, i) {
      if k[x] < k[i] { PosOrder(k, x, i); } else { PosOrder(k, i, x); }
    }
  }

  lemma PlacedAt(s: seq<int>, ft: seq<int>, p: seq<int>, i: int, c: int)
    requires Letters(s) && 0 < i <= |s| && Placed(s, ft, p, i) && c == Key(s, i - 1)
    ensures 0 <= c < 65536 && PairKeys(s)[i - 1] == c && ft[c] - 1 == Pos(PairKeys(s), i - 1) && 0 <= ft[c] - 1 < |p|
    ensures forall d :: 0 <= d < 65537 ==> ft[d] == Below(PairKeys(s), d) + Count(PairKeys(s)[..i], d)
    ensures forall x :: i <= x < |s| ==> 0 <= Pos(PairKeys(s), x) < |p| && p[Pos(PairKeys(s), x)] == x
  {
    var k := PairKeys(s);
    BelowStep(k, i - 1, c);
    PosRange(k, i - 1);
    BelowExtremes(k, 0);
    BelowMonotone(k, c + 1, 65536);
    BelowExtremes(k, 65536);
    BelowMonotone(k, 0, c);
    hide Below, Count;
  }

  lemma PlacedJoin(s: seq<int>, ft: seq<int>, p: seq<int>, i: int)
    requires Letters(s) && 0 <= i <= |s| && |ft| == 65537 && |p| == |s|
    requires forall c :: 0 <= c < 65537 ==> ft[c] == Below(PairKeys(s), c) + Count(PairKeys(s)[..i], c)
    requires forall x :: i <= x < |s| ==> 0 <= Pos(PairKeys(s), x) < |p| && p[Pos(PairKeys(s), x)] == x
    ensures Placed(s, ft, p, i)
  {
  }

  lemma PlacedGrouped(s: seq<int>, ft: seq<int>, p: seq<int>)
    requires Letters(s) && Placed(s, ft, p, 0)
    ensures Grouped(PairKeys(s), p)
  {
    var k := PairKeys(s);
    var pos := seq(|s|, x requires 0 <= x < |s| => Pos(k, x));
    forall x | 0 <= x < |s| ensures Below(k, k[x]) <= pos[x] < Below(k, k[x] + 1) { PosRange(k, x); }
    forall x, y | 0 <= x < y < |s| ensures pos[x] != pos[y] {
      if k[y] < k[x] { PosOrder(k, y, x); } else { PosOrder(k, x, y); }
    }
    hide Pos, Below;
    SlotsGroup(k, pos, p);
  }

  lemma GroupedBucketed(s: seq<int>, p: seq<int>)
    requires Letters(s) && Grouped(PairKeys(s), p)
    ensures Bucketed(s, p, StartsOf(s))
  {
    StartsAre(s);
    hide Below;
    var st := StartsOf(s);
    forall x | 0 <= x < |p| ensures Home(s, st, p[x], x) { hide Starts, Key; }
  }

  lemma PlaceDone(s: seq<int>, ft: seq<int>, p: seq<int>)
    requires Letters(s) && Placed(s, ft, p, 0)
    ensures Bucketed(s, p, StartsOf(s)) && ft == StartsOf(s) && (AllSame(s) ==> Identity(p))
  {
    if AllSame(s) { PlacedStraight(s, ft, p); }
    PlacedGrouped(s, ft, p);
    GroupedBucketed(s, p);
    assert PairKeys(s)[..0] == [];
    hide Bucketed, Pos, PairKeys;
    var st := StartsOf(s);
    forall c | 0 <= c < 65537 ensures ft[c] == st[c] {}
  }

  ghost predicate Identity(p: seq<int>) {
    forall k :: 0 <= k < |p| ==> p[k] == k
  }

  /** A block of one letter is left in its order. */
  lemma PlacedStraight(s: seq<int>, ft: seq<int>, p: seq<int>)
    requires Letters(s) && Placed(s, ft, p, 0) && AllSame(s)
    ensures Identity(p)
  {
    var k := PairKeys(s);
    forall x | 0 <= x < |p| ensures p[x] == x {
      assert AllAre(k, k[0]);
      OneCounted(k, k[0]);
      OneCounted(k[..x], k[0]);
      hide Below;
      assert Pos(k, x) == x;
    }
  }

  /** The radix sort proper. */
  method PlacePairs(ptr: array<int>, block: array<int>, ftab: array<int>, nblock: int, ghost s: seq<int>)
    requires ptr != block && ptr != ftab && block != ftab && Letters(s) && nblock == |s| <= block.Length && block[..nblock] == s && ptr.Length == nblock
    requires Summed(s, ftab[..], 65537)
    modifies ptr, ftab
    ensures Bucketed(s, ptr[..], StartsOf(s)) && ftab[..] == StartsOf(s) && (AllSame(s) ==> Identity(ptr[..]))
  {
    assert s != [] && ftab.Length == 65537;
    assert block[0] == block[..nblock][0];
    hide *;
    PlaceStart(s, ftab[..], ptr[..]);
    var j := block[0] * 256;
    FirstHandsOn(s, j);
    var i := nblock - 1;
    while i >= 0
      invariant -1 <= i < nblock && HandsOn(s, i + 1, j) && Placed(s, ftab[..], ptr[..], i + 1)
    {
      assert block[i] == block[..nblock][i];
      HandsOnSucc(s, i + 1, j);
      NextKey(s, i, j);
      PlaceStep(s, ftab[..], ptr[..], i + 1);
      j := j / 256 + block[i] * 256;
      HandsOnNext(s, i, j);
      var k := ftab[j] - 1;
      ftab[j] := k;
      ptr[k] := i;
      i := i - 1;
    }
    PlaceDone(s, ftab[..], ptr[..]);
  }

  // ---- the running order ----

  /** BIGFREQ: the sizes of the big buckets. */
  function BigSizes(st: seq<int>): (z: seq<int>)
    requires |st| == 65537
    ensures |z| == 256 && forall b :: 0 <= b < 256 ==> z[b] == st[(b + 1) * 256] - st[b * 256]
  {
    seq(256, b requires 0 <= b < 256 => st[(b + 1) * 256] - st[b * 256])
  }

  /** One insertion. */
  method InsertBucket(order: array<int>, ftab: array<int>, i: int, h: int)
    requires order != ftab && order.Length == 256 && ftab.Length == 65537 && 0 < h <= i < 256 && IsPerm(order[..], 256)
    requires Q.GapSorted(order[..], BigSizes(ftab[..]), 0, i - 1, h)
    modifies order
    ensures IsPerm(order[..], 256) && Q.GapSorted(order[..], BigSizes(ftab[..]), 0, i, h)
  {
    ghost var was, z := order[..], BigSizes(ftab[..]);
    ghost var f := was;
    SizesLength(ftab[..]);
    hide *;
    OrderRange(was);
    HoleStart(was, z, 0, i, h);
    var vv, j := order[i], i;
    while true
      invariant h <= j <= i && Hole(was, order[..], f, z, 0, i, h, j, vv)
      decreases j
    {
      var more;
      more, f := SinkBucket(order, ftab, i, h, j, vv, was, f, z);
      if !more { break; }
      j := j - h;
      if j <= h - 1 {
        AtBottom(was, order[..], f, z, 0, i, h, j, vv);
        break;
      }
    }
    FillHole(order, 0, i, h, j, vv, was, f, z);
    StillPerm(was, f, i);
  }

  /** One comparison of the insertion loop, and the move if it asks for one. */
  method SinkBucket(order: array<int>, ftab: array<int>, ghost i: int, h: int, j: int, vv: int, ghost was: seq<int>, ghost f0: seq<int>, ghost z: seq<int>)
    returns (more: bool, ghost f: seq<int>)
    requires order != ftab && ftab.Length == 65537 && z == BigSizes(ftab[..]) && 0 < h <= j <= i && Hole(was, order[..], f0, z, 0, i, h, j, vv)
    modifies order
    ensures if more then Hole(was, order[..], f, z, 0, i, h, j - h, vv)
            else f == f0 && order[..] == old(order[..]) && Placeable(f, z, 0, h, j, vv)
  {
    f := f0;
    ghost var p := order[..];
    SizesLength(ftab[..]);
    hide *;
    HoleAt(was, p, f, z, 0, i, h, j, vv);
    HoleRange(was, p, f, z, 0, i, h, j, vv);
    Q.RangeAt(f, 256, j - h);
    var b := order[j - h];
    var bSize, vSize := ftab[(b + 1) * 256] - ftab[b * 256], ftab[(vv + 1) * 256] - ftab[vv * 256];
    assert z[b] == bSize && z[vv] == vSize;
    more := bSize > vSize;
    if more {
      f := HoleStep(was, p, f, z, 0, i, h, j, vv);
      order[j] := order[j - h];
    } else {
      NotLarger(f, z, 0, h, j, vv);
    }
  }

  lemma SizesLength(ft: seq<int>)
    requires |ft| == 65537
    ensures |BigSizes(ft)| == 256 && forall b :: 0 <= b < 256 ==> BigSizes(ft)[b] == ft[(b + 1) * 256] - ft[b * 256]
  {
  }

  lemma OrderRange(p: seq<int>)
    requires IsPerm(p, 256)
    ensures InRange(p, 256)
  {
  }

  lemma StillPerm(was: seq<int>, f: seq<int>, i: int)
    requires IsPerm(was, 256) && Q.Rearranges(was, f, 0, i)
    ensures IsPerm(f, 256)
  {
    RearrangedPerm(was, f, 256);
  }

  /** The big buckets, least full first: a Shell sort with strides 121, 40, 13, 4 and 1. */
  method RunningOrder(ftab: array<int>) returns (order: array<int>)
    requires ftab.Length == 65537
    ensures fresh(order) && order.Length == 256 && IsPerm(order[..], 256)
    ensures Q.SortedByKey(order[..], BigSizes(ftab[..]), 0, 255)
  {
    order := new int[256];
    var i := 0;
    while i <= 255
      invariant 0 <= i <= 256 && forall k :: 0 <= k < i ==> order[k] == k
    {
      order[i] := i;
      i := i + 1;
    }
    var h := 364;
    hide Q.GapSorted;
    while true
      invariant h == 364 || h == 121 || h == 40 || h == 13 || h == 4
      invariant IsPerm(order[..], 256)
      decreases h
    {
      h := h / 3;
      GapNone(order[..], BigSizes(ftab[..]), 0, h);
      i := h;
      while i <= 255
        invariant h <= i <= 256 && IsPerm(order[..], 256) && Q.GapSorted(order[..], BigSizes(ftab[..]), 0, i - 1, h)
      {
        InsertBucket(order, ftab, i, h);
        i := i + 1;
      }
      if h == 1 { break; }
    }
    Q.AdjacentSorted(order[..], BigSizes(ftab[..]), 0, 255);
  }
}
