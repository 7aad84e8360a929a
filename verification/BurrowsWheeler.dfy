/** The Burrows-Wheeler transform and why walking the linked last column gives the block back. */
module BurrowsWheeler {
  import opened Common
  import opened Rotations

  /** Position of the character before rotation v begins. */
  function Prev(v: int, n: int): (k: int)
    requires 0 <= v < n
    ensures 0 <= k < n && (k + 1) % n == v
  {
    if v == 0 then DivModUnique(n, n, 1, 0); n - 1 else DivModUnique(v, n, 0, v); v - 1
  }

  /** The last column of the sorted rotations p of s: what the encoder hands to the move-to-front stage. */
  function LastColumn(s: seq<Byte>, p: seq<int>): (col: seq<Byte>)
    requires IsPerm(p, |s|)
    ensures |col| == |s|
  {
    seq(|s|, k requires 0 <= k < |s| => s[Prev(p[k], |s|)])
  }

  /** T lists the positions of col by character, equal characters in increasing position. */
  ghost predicate StableOrder(col: seq<int>, T: seq<int>) {
    IsPerm(T, |col|) && forall j, k :: 0 <= j < k < |col| ==>
      col[T[j]] < col[T[k]] || (col[T[j]] == col[T[k]] && T[j] < T[k])
  }

  ghost function IndexIn(p: seq<int>, n: int, v: int): (k: int)
    requires IsPerm(p, n) && 0 <= v < n
    ensures 0 <= k < n && p[k] == v
  {
    PermOnto(p, n, v);
    var k :| 0 <= k < n && p[k] == v;
    k
  }

  /** Two sorted orders of the same rotations may differ only among equal rotations. */
  lemma SortedOrdersAgree(s: seq<int>, a: seq<int>, b: seq<int>, k: int)
    requires SortedRotations(s, a) && SortedRotations(s, b) && 0 <= k < |s|
    ensures Cmp(s, a[k], b[k], |s|) == 0
  {
    NotBefore(s, a, b, k);
    NotBefore(s, b, a, k);
    CmpAntisymmetric(s, a[k], b[k], |s|);
  }

  lemma SmallerIsEarlier(s: seq<int>, b: seq<int>, j: int, k: int)
    requires SortedRotations(s, b) && 0 <= j < |s| && 0 <= k < |s| && Cmp(s, b[j], b[k], |s|) < 0
    ensures j < k
  {
    CmpAntisymmetric(s, b[j], b[k], |s|);
    assert forall x, y :: 0 <= x <= y < |s| ==> Cmp(s, b[x], b[y], |s|) <= 0;
  }

  /** If a[k] came before b[k], the k+1 rotations a[0..k] would all lie among the k rotations b[0..k-1]. */
  lemma NotBefore(s: seq<int>, a: seq<int>, b: seq<int>, k: int)
    requires SortedRotations(s, a) && SortedRotations(s, b) && 0 <= k < |s|
    ensures Cmp(s, a[k], b[k], |s|) >= 0
  {
    var n := |s|;
    if Cmp(s, a[k], b[k], n) < 0 {
      var idx := seq(k + 1, i requires 0 <= i <= k => IndexIn(b, n, a[i]));
      forall i | 0 <= i <= k ensures 0 <= idx[i] < k {
        CmpTransitive(s, a[i], a[k], b[k], n);
        SmallerIsEarlier(s, b, idx[i], k);
      }
      forall i, j | 0 <= i < j <= k ensures idx[i] != idx[j] { assert a[i] != a[j]; }
      Pigeonhole(idx, k);
    }
  }

  /** Comparing one character earlier: the previous characters decide, then the rotations themselves. */
  lemma CmpPrev(s: seq<Byte>, v: int, w: int)
    requires s != [] && 0 <= v < |s| && 0 <= w < |s|
    ensures var n := |s|; var c := Cmp(s, Prev(v, n), Prev(w, n), n);
            (s[Prev(v, n)] < s[Prev(w, n)] ==> c < 0) && (s[Prev(v, n)] == s[Prev(w, n)] ==> c == Cmp(s, v, w, n))
  {
    var n := |s|;
    var a, b := Prev(v, n), Prev(w, n);
    CmpSplit(s, a, b, 1, n);
    CmpBeyondPeriod(s, a, b, 1 + n);
    assert Cmp(s, a, b, 0) == 0;
    DivModUnique(a, n, 0, a);
    DivModUnique(b, n, 0, b);
  }

  /** The rotations one before those in row T[k], in order of k: again a sorted order of all rotations. */
  ghost function Stepped(s: seq<Byte>, p: seq<int>, T: seq<int>): (g: seq<int>)
    requires IsPerm(p, |s|) && IsPerm(T, |s|)
    ensures |g| == |s|
  {
    seq(|s|, k requires 0 <= k < |s| => Prev(p[T[k]], |s|))
  }

  lemma SteppedSorted(s: seq<Byte>, p: seq<int>, T: seq<int>)
    requires SortedRotations(s, p) && StableOrder(LastColumn(s, p), T)
    ensures SortedRotations(s, Stepped(s, p, T))
  {
    var n, col, g := |s|, LastColumn(s, p), Stepped(s, p, T);
    forall i, j | 0 <= i < j < n ensures g[i] != g[j] {
      assert p[T[i]] != p[T[j]];
    }
    forall i, j | 0 <= i <= j < n ensures Cmp(s, g[i], g[j], n) <= 0 {
      if i == j {
        CmpAntisymmetric(s, g[i], g[i], n);
      } else {
        CmpPrev(s, p[T[i]], p[T[j]]);
        assert col[T[i]] == s[g[i]] && col[T[j]] == s[g[j]];
      }
    }
  }

  /** Row T[k] holds a rotation equal to the one that starts one character after row k's. For a periodic block it
      need not be that very position. */
  lemma NextRow(s: seq<Byte>, p: seq<int>, T: seq<int>, k: int)
    requires SortedRotations(s, p) && StableOrder(LastColumn(s, p), T) && 0 <= k < |s|
    ensures Cmp(s, p[T[k]], (p[k] + 1) % |s|, |s|) == 0
  {
    hide SortedRotations, StableOrder, Cmp, Stepped, Prev, LastColumn;
    SteppedAt(s, p, T, k);
    SteppedSorted(s, p, T);
    var g := Stepped(s, p, T);
    SortedOrdersAgree(s, g, p, k);
    EqualAdvance(s, g[k], p[k]);
  }

  lemma SteppedAt(s: seq<Byte>, p: seq<int>, T: seq<int>, k: int)
    requires SortedRotations(s, p) && StableOrder(LastColumn(s, p), T) && 0 <= k < |s|
    ensures s != [] && IsPerm(p, |s|) && IsPerm(T, |s|) && 0 <= T[k] < |s| && 0 <= p[T[k]] < |s| && 0 <= p[k] < |s|
    ensures var v := Stepped(s, p, T)[k]; 0 <= v < |s| && (v + 1) % |s| == p[T[k]]
  {
    hide Cmp;
  }

  lemma EqualAdvance(s: seq<int>, v: int, w: int)
    requires s != [] && 0 <= v < |s| && 0 <= w < |s| && Cmp(s, v, w, |s|) == 0
    ensures Cmp(s, (v + 1) % |s|, (w + 1) % |s|, |s|) == 0
  {
    var v', w' := (v + 1) % |s|, (w + 1) % |s|;
    forall m | 0 <= m < |s| ensures Ch(s, v', m) == Ch(s, w', m) {
      ChShift(s, v, 1, m);
      ChShift(s, w, 1, m);
      EqualForEver(s, v, w, 1 + m);
    }
    CmpIsLexicographic(s, v', w', |s|);
  }

  /** Row t holds a rotation equal to the one starting at position m. */
  ghost predicate RowAt(s: seq<Byte>, p: seq<int>, t: int, m: nat) {
    s != [] && IsPerm(p, |s|) && 0 <= t < |s| && Cmp(s, p[t], m % |s|, |s|) == 0
  }

  /** Following T moves one position on in the block. */
  lemma RowStep(s: seq<Byte>, p: seq<int>, T: seq<int>, t: int, m: nat)
    requires SortedRotations(s, p) && StableOrder(LastColumn(s, p), T) && RowAt(s, p, t, m)
    ensures RowAt(s, p, T[t], m + 1)
  {
    var n := |s|;
    NextRow(s, p, T, t);
    EqualAdvance(s, p[t], m % n);
    ModAdd(m, 1, n);
    CmpTransitive(s, p[T[t]], (p[t] + 1) % n, (m + 1) % n, n);
  }

  /** The last-column byte of the row at position m+1 is the block byte at m. */
  lemma RowByte(s: seq<Byte>, p: seq<int>, t: int, m: nat)
    requires RowAt(s, p, t, m + 1)
    ensures LastColumn(s, p)[t] == s[m % |s|]
  {
    var n := |s|;
    EqualForEver(s, p[t], (m + 1) % n, n - 1);
    ModAdd(m + 1, n - 1, n);
    assert Ch(s, (m + 1) % n, n - 1) == s[(m + n) % n];
    ModAdd(n, m, n);
    DivModUnique(n, n, 1, 0);
    assert Ch(s, p[t], n - 1) == s[(p[t] + n - 1) % n];
    if p[t] == 0 { DivModUnique(n - 1, n, 0, n - 1); } else { DivModUnique(p[t] + n - 1, n, 1, p[t] - 1); }
  }

  /** Bytes met when walking from row t by T: the last-column byte, then on along T. */
  function Walk(col: seq<Byte>, T: seq<int>, t: int, m: nat): (r: seq<Byte>)
    requires IsPerm(T, |col|) && 0 <= t < |col|
    ensures |r| == m
    decreases m
  {
    if m == 0 then [] else [col[t]] + Walk(col, T, T[t], m - 1)
  }

  lemma {:induction false} WalkFrom(s: seq<Byte>, p: seq<int>, T: seq<int>, t: int, i: nat, m: nat)
    requires SortedRotations(s, p) && StableOrder(LastColumn(s, p), T) && RowAt(s, p, t, i + 1) && i + m <= |s|
    ensures Walk(LastColumn(s, p), T, t, m) == s[i..i + m]
    decreases m
  {
    if m > 0 {
      var col := LastColumn(s, p);
      RowByte(s, p, t, i);
      DivModUnique(i, |s|, 0, i);
      RowStep(s, p, T, t, i + 1);
      WalkFrom(s, p, T, T[t], i + 1, m - 1);
      assert Walk(col, T, t, m) == [col[t]] + Walk(col, T, T[t], m - 1);
      assert s[i..i + m] == [s[i]] + s[i + 1..i + m];
      hide *;
    }
  }

  /** The inverse transform: from the last column of any sorted order of the rotations and the row of the block
      itself, walking |s| steps along the stable order of the column gives the block, periodic or not. */
  lemma InverseTransform(s: seq<Byte>, p: seq<int>, T: seq<int>, origPtr: int)
    requires SortedRotations(s, p) && StableOrder(LastColumn(s, p), T)
    requires 0 <= origPtr < |s| && p[origPtr] == 0
    ensures 0 <= T[origPtr] < |s| && Walk(LastColumn(s, p), T, T[origPtr], |s|) == s
  {
    OriginRow(s, p, T, origPtr);
    WholeWalk(s, p, T, T[origPtr]);
  }

  lemma WholeWalk(s: seq<Byte>, p: seq<int>, T: seq<int>, t: int)
    requires SortedRotations(s, p) && StableOrder(LastColumn(s, p), T) && RowAt(s, p, t, 1)
    ensures Walk(LastColumn(s, p), T, t, |s|) == s
  {
    WalkFrom(s, p, T, t, 0, |s|);
    assert s[0..0 + |s|] == s;
  }

  lemma OriginRow(s: seq<Byte>, p: seq<int>, T: seq<int>, origPtr: int)
    requires SortedRotations(s, p) && StableOrder(LastColumn(s, p), T)
    requires 0 <= origPtr < |s| && p[origPtr] == 0
    ensures RowAt(s, p, origPtr, 0) && RowAt(s, p, T[origPtr], 1)
  {
    DivModUnique(0, |s|, 0, 0);
    CmpAntisymmetric(s, 0, 0, |s|);
    RowStep(s, p, T, origPtr, 0);
  }
}
