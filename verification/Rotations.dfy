/** Cyclic rotations of a block and their lexicographic order to a given depth. */
module Rotations {
  import opened Common

  /** Character k of the rotation that starts at i; the block is read cyclically. */
  function Ch(s: seq<int>, i: nat, k: nat): int
    requires s != []
  {
    s[(i + k) % |s|]
  }

  /** -1, 0 or 1 as rotation i sorts before, like or after rotation j on the first h characters. */
  function Cmp(s: seq<int>, i: nat, j: nat, h: nat): (c: int)
    requires s != []
    ensures -1 <= c <= 1
  {
    if h == 0 then 0
    else
      var c := Cmp(s, i, j, h - 1);
      if c != 0 then c
      else if Ch(s, i, h - 1) < Ch(s, j, h - 1) then -1
      else if Ch(s, i, h - 1) > Ch(s, j, h - 1) then 1
      else 0
  }

  /** Cmp is the lexicographic order: a strict result is decided by the first difference. */
  lemma {:induction false} CmpIsLexicographic(s: seq<int>, i: nat, j: nat, h: nat)
    requires s != []
    ensures Cmp(s, i, j, h) < 0 <==>
            exists k :: 0 <= k < h && Ch(s, i, k) < Ch(s, j, k) && forall m :: 0 <= m < k ==> Ch(s, i, m) == Ch(s, j, m)
    ensures Cmp(s, i, j, h) == 0 <==> forall m :: 0 <= m < h ==> Ch(s, i, m) == Ch(s, j, m)
  {
    if h > 0 { CmpIsLexicographic(s, i, j, h - 1); }
  }

  lemma {:induction false} CmpAntisymmetric(s: seq<int>, i: nat, j: nat, h: nat)
    requires s != []
    ensures Cmp(s, j, i, h) == -Cmp(s, i, j, h)
  {
    if h > 0 { CmpAntisymmetric(s, i, j, h - 1); }
  }

  lemma {:induction false} CmpTransitive(s: seq<int>, i: nat, j: nat, k: nat, h: nat)
    requires s != [] && Cmp(s, i, j, h) <= 0 && Cmp(s, j, k, h) <= 0
    ensures Cmp(s, i, k, h) <= 0
    ensures Cmp(s, i, k, h) == 0 <==> Cmp(s, i, j, h) == 0 && Cmp(s, j, k, h) == 0
  {
    if h > 0 { CmpTransitive(s, i, j, k, h - 1); }
  }

  /** A difference found early is final. */
  lemma {:induction false} CmpPrefix(s: seq<int>, i: nat, j: nat, h: nat, h': nat)
    requires s != [] && h <= h' && Cmp(s, i, j, h) != 0
    ensures Cmp(s, i, j, h') == Cmp(s, i, j, h)
  {
    if h < h' { CmpPrefix(s, i, j, h, h' - 1); }
  }

  lemma ChShift(s: seq<int>, i: nat, a: nat, k: nat)
    requires s != []
    ensures Ch(s, (i + a) % |s|, k) == Ch(s, i, a + k)
  {
    ModTwice(i, a, k, |s|);
  }

  lemma ModTwice(i: int, a: int, k: int, n: int)
    requires n > 0
    ensures ((i + a) % n + k) % n == (i + (a + k)) % n
  {
    ModAdd(i + a, k, n);
    assert (i + a) + k == i + (a + k);
  }

  /** The doubling step: comparing a+b characters is comparing a, then b characters a further on. */
  lemma {:induction false} CmpSplit(s: seq<int>, i: nat, j: nat, a: nat, b: nat)
    requires s != []
    ensures Cmp(s, i, j, a + b) ==
            if Cmp(s, i, j, a) != 0 then Cmp(s, i, j, a) else Cmp(s, (i + a) % |s|, (j + a) % |s|, b)
  {
    if b > 0 {
      CmpSplit(s, i, j, a, b - 1);
      ChShift(s, i, a, b - 1);
      ChShift(s, j, a, b - 1);
    }
  }

  /** Rotations that agree on one whole period agree for ever. */
  lemma EqualForEver(s: seq<int>, i: nat, j: nat, k: nat)
    requires s != [] && Cmp(s, i, j, |s|) == 0
    ensures Ch(s, i, k) == Ch(s, j, k)
  {
    CmpIsLexicographic(s, i, j, |s|);
    ModAdd(k, i, |s|);
    ModAdd(k, j, |s|);
    assert Ch(s, i, k % |s|) == Ch(s, j, k % |s|);
  }

  /** Hence nothing changes beyond depth |s|. */
  lemma CmpBeyondPeriod(s: seq<int>, i: nat, j: nat, h: nat)
    requires s != [] && |s| <= h
    ensures Cmp(s, i, j, h) == Cmp(s, i, j, |s|)
  {
    if Cmp(s, i, j, |s|) != 0 {
      CmpPrefix(s, i, j, |s|, h);
    } else {
      forall m | 0 <= m < h ensures Ch(s, i, m) == Ch(s, j, m) { EqualForEver(s, i, j, m); }
      CmpIsLexicographic(s, i, j, h);
    }
  }

  /** p lists rotations in non-decreasing order of their first h characters. */
  ghost predicate SortedTo(s: seq<int>, p: seq<int>, h: nat)
    requires s != []
  {
    InRange(p, |s|) && forall x, y :: 0 <= x <= y < |p| ==> Cmp(s, p[x], p[y], h) <= 0
  }

  /** p is a sorted order of all cyclic rotations of s. */
  ghost predicate SortedRotations(s: seq<int>, p: seq<int>) {
    s != [] && IsPerm(p, |s|) && SortedTo(s, p, |s|)
  }

  /** R ranks the rotations by their first h characters. */
  ghost predicate Ranks(s: seq<int>, R: seq<int>, h: nat)
    requires s != []
  {
    |R| == |s| && forall a, b :: 0 <= a < |s| && 0 <= b < |s| ==> (R[a] < R[b] <==> Cmp(s, a, b, h) < 0)
  }

  lemma RanksEqual(s: seq<int>, R: seq<int>, h: nat, a: int, b: int)
    requires s != [] && Ranks(s, R, h) && 0 <= a < |s| && 0 <= b < |s|
    ensures R[a] == R[b] <==> Cmp(s, a, b, h) == 0
  {
    CmpAntisymmetric(s, a, b, h);
  }
}
