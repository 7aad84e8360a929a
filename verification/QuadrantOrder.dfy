/** What the quadrant values of Step 3 of mainSort say about the order of rotations. */
module QuadrantOrder {
  import opened Common
  import opened Rotations
  import MS = MainSimpleSort

  /** The rotations that begin with the same letter as rotation v and compare with it as most, or less. */
  ghost function NotAfter(s: seq<int>, v: int, most: int): (r: set<int>)
    requires s != [] && 0 <= v < |s|
  {
    set u | 0 <= u < |s| && s[u] == s[v] && Cmp(s, u, v, |s|) <= most
  }

  /** How many of them come strictly before v. */
  ghost function Fewer(s: seq<int>, v: int): nat
    requires s != [] && 0 <= v < |s|
  {
    |NotAfter(s, v, -1)|
  }

  /** How many of them come before v or are equal to it. */
  ghost function UpTo(s: seq<int>, v: int): nat
    requires s != [] && 0 <= v < |s|
  {
    |NotAfter(s, v, 0)|
  }

  /** In the big bucket of the letter c, no two equal rotations fall into different classes of w places. */
  ghost predicate Unsplit(s: seq<int>, c: int, w: int)
    requires s != [] && w > 0
  {
    forall v :: 0 <= v < |s| && s[v] == c ==> Fewer(s, v) / w == (UpTo(s, v) - 1) / w
  }

  /** Unequal quadrants of rotations that begin with c give their strict order. */
  ghost predicate Strict(s: seq<int>, q: seq<int>, c: int)
    requires s != [] && |s| <= |q|
  {
    forall i, j :: 0 <= i < |s| && 0 <= j < |s| && s[i] == c && s[j] == c && q[i] < q[j] ==> Cmp(s, i, j, |s|) < 0
  }

  /** The big bucket of c lies at lo .. hi - 1, in order. */
  ghost predicate Placed(s: seq<int>, p: seq<int>, c: int, lo: int, hi: int)
    requires s != []
  {
    IsPerm(p, |s|) && 0 <= lo <= hi <= |p| && (forall x :: 0 <= x < |p| ==> 0 <= p[x] < |s| && (s[p[x]] == c <==> lo <= x < hi))
    && forall x, y :: lo <= x <= y < hi ==> Cmp(s, p[x], p[y], |s|) <= 0
  }

  lemma {:induction false} ImageSize(p: seq<int>, lo: int, m: int)
    requires Distinct(p) && 0 <= lo <= m <= |p|
    ensures |set x | lo <= x < m :: p[x]| == m - lo
    decreases m - lo
  {
    if lo < m {
      ImageSize(p, lo, m - 1);
      var a, b := set x | lo <= x < m :: p[x], set x | lo <= x < m - 1 :: p[x];
      assert a == b + {p[m - 1]};
    }
  }

  /** Where the rotations below v end. */
  lemma {:induction false} Edge(s: seq<int>, p: seq<int>, c: int, lo: int, hi: int, v: int, most: int, m0: int) returns (m: int)
    requires s != [] && Placed(s, p, c, lo, hi) && 0 <= v < |s| && lo <= m0 <= hi && -1 <= most <= 0
    requires forall x :: lo <= x < m0 ==> Cmp(s, p[x], v, |s|) <= most
    ensures lo <= m <= hi && forall x :: lo <= x < hi ==> (Cmp(s, p[x], v, |s|) <= most <==> x < m)
    decreases hi - m0
  {
    if m0 < hi && Cmp(s, p[m0], v, |s|) <= most {
      m := Edge(s, p, c, lo, hi, v, most, m0 + 1);
    } else {
      m := m0;
      forall x | m0 <= x < hi ensures Cmp(s, p[x], v, |s|) > most { NotBack(s, p[m0], p[x], v, most); }
    }
  }

  /** What is not before a rotation has nothing after it that is. */
  lemma NotBack(s: seq<int>, a: int, b: int, v: int, most: int)
    requires s != [] && 0 <= a && 0 <= b && 0 <= v && Cmp(s, a, b, |s|) <= 0 && Cmp(s, a, v, |s|) > most && -1 <= most <= 0
    ensures Cmp(s, b, v, |s|) > most
  {
    if Cmp(s, b, v, |s|) <= most { CmpTransitive(s, a, b, v, |s|); }
  }

  /** The rotations not after v stand in front of the bucket, as many as there are. */
  lemma Front(s: seq<int>, p: seq<int>, c: int, lo: int, hi: int, v: int, most: int)
    requires s != [] && Placed(s, p, c, lo, hi) && 0 <= v < |s| && s[v] == c && -1 <= most <= 0
    ensures lo + |NotAfter(s, v, most)| <= hi
    ensures forall x :: lo <= x < hi ==> (Cmp(s, p[x], v, |s|) <= most <==> x < lo + |NotAfter(s, v, most)|)
  {
    var m := Edge(s, p, c, lo, hi, v, most, lo);
    ImageSize(p, lo, m);
    var front := set x | lo <= x < m :: p[x];
    forall u | u in NotAfter(s, v, most) ensures u in front { PermOnto(p, |s|, u); }
    assert front == NotAfter(s, v, most);
  }

  lemma EqualsItself(s: seq<int>, v: int)
    requires s != [] && 0 <= v < |s|
    ensures Cmp(s, v, v, |s|) == 0 && Fewer(s, v) < UpTo(s, v)
  {
    CmpAntisymmetric(s, v, v, |s|);
    assert v in NotAfter(s, v, 0) && v !in NotAfter(s, v, -1);
    MS.Cardinality(NotAfter(s, v, -1), NotAfter(s, v, 0) - {v});
  }

  lemma Classes(a: int, b: int, w: int)
    requires 0 <= a <= b && w > 0
    ensures a / w <= b / w
  {
    if a / w > b / w { Scaled(b / w + 1, a / w, w); }
  }

  lemma Scaled(x: int, y: int, w: int)
    requires x <= y && w > 0
    ensures x * w <= y * w
  {
  }

  /** Unequal quadrants give the strict order exactly when no two equal rotations of the bucket are put into different
      classes, which the block, the letter and the shift decide. */
  lemma StrictWhen(s: seq<int>, p: seq<int>, q: seq<int>, c: int, lo: int, hi: int, w: int)
    requires s != [] && Placed(s, p, c, lo, hi) && |s| <= |q| && w > 0 && forall x :: lo <= x < hi ==> q[p[x]] == (x - lo) / w
    ensures Strict(s, q, c) <==> Unsplit(s, c, w)
  {
    if Unsplit(s, c, w) {
      forall i, j | 0 <= i < |s| && 0 <= j < |s| && s[i] == c && s[j] == c && q[i] < q[j] ensures Cmp(s, i, j, |s|) < 0 {
        StrictPair(s, p, q, c, lo, hi, w, i, j);
      }
    } else {
      var v :| 0 <= v < |s| && s[v] == c && Fewer(s, v) / w != (UpTo(s, v) - 1) / w;
      SplitPair(s, p, q, c, lo, hi, w, v);
    }
  }

  lemma StrictPair(s: seq<int>, p: seq<int>, q: seq<int>, c: int, lo: int, hi: int, w: int, i: int, j: int)
    requires s != [] && Placed(s, p, c, lo, hi) && |s| <= |q| && w > 0 && forall x :: lo <= x < hi ==> q[p[x]] == (x - lo) / w
    requires Unsplit(s, c, w) && 0 <= i < |s| && 0 <= j < |s| && s[i] == c && s[j] == c && q[i] < q[j]
    ensures Cmp(s, i, j, |s|) < 0
  {
    hide Unsplit, Cmp;
    PermOnto(p, |s|, i);
    PermOnto(p, |s|, j);
    var x :| 0 <= x < |p| && p[x] == i;
    var y :| 0 <= y < |p| && p[y] == j;
    if y <= x { Classes(y - lo, x - lo, w); }
    if Cmp(s, i, j, |s|) == 0 { SameClass(s, p, c, lo, hi, w, x, y); }
  }

  /** Equal rotations of the bucket are in one class. */
  lemma SameClass(s: seq<int>, p: seq<int>, c: int, lo: int, hi: int, w: int, x: int, y: int)
    requires s != [] && Placed(s, p, c, lo, hi) && w > 0 && Unsplit(s, c, w) && lo <= x <= y < hi && Cmp(s, p[x], p[y], |s|) == 0
    ensures (x - lo) / w == (y - lo) / w
  {
    var v := p[x];
    EqualsItself(s, v);
    CmpAntisymmetric(s, v, p[y], |s|);
    Front(s, p, c, lo, hi, v, -1);
    Front(s, p, c, lo, hi, v, 0);
    var k, l := Fewer(s, v), UpTo(s, v) - 1;
    assert k <= x - lo <= y - lo <= l && k / w == l / w;
    Classes(k, x - lo, w);
    Classes(x - lo, y - lo, w);
    Classes(y - lo, l, w);
  }

  lemma SplitPair(s: seq<int>, p: seq<int>, q: seq<int>, c: int, lo: int, hi: int, w: int, v: int)
    requires s != [] && Placed(s, p, c, lo, hi) && |s| <= |q| && w > 0 && forall x :: lo <= x < hi ==> q[p[x]] == (x - lo) / w
    requires 0 <= v < |s| && s[v] == c && Fewer(s, v) / w != (UpTo(s, v) - 1) / w
    ensures !Strict(s, q, c)
  {
    EqualsItself(s, v);
    Front(s, p, c, lo, hi, v, -1);
    Front(s, p, c, lo, hi, v, 0);
    var k, l := Fewer(s, v), UpTo(s, v) - 1;
    Classes(k, l, w);
    var i, j := p[lo + k], p[lo + l];
    CmpAntisymmetric(s, j, v, |s|);
    CmpTransitive(s, v, j, v, |s|);
    CmpAntisymmetric(s, i, v, |s|);
    assert Cmp(s, i, v, |s|) == 0 && Cmp(s, v, j, |s|) == 0;
    CmpTransitive(s, i, v, j, |s|);
    assert q[i] < q[j];
  }

  // ---- a block for which it fails ----

  /** Two copies of 4999 noughts and a one: long enough for the main sort. */
  function TwoCopies(): (s: seq<int>)
    ensures |s| == 10000
  {
    seq(10000, i => if i % 5000 == 4999 then 1 else 0)
  }

  lemma CopiesEqual(m: nat)
    ensures Ch(TwoCopies(), 4999, m) == Ch(TwoCopies(), 9999, m)
  {
    var i, j := (4999 + m) % 10000, (9999 + m) % 10000;
    assert i % 5000 == j % 5000 == (4999 + m) % 5000;
  }

  /** Its rotations 4999 and 9999 are equal. */
  lemma CopiesAgree()
    ensures Cmp(TwoCopies(), 4999, 9999, 10000) == 0 && Cmp(TwoCopies(), 9999, 4999, 10000) == 0
  {
    var s := TwoCopies();
    forall m | 0 <= m < 10000 ensures Ch(s, 4999, m) == Ch(s, 9999, m) { CopiesEqual(m); }
    CmpIsLexicographic(s, 4999, 9999, 10000);
    CmpAntisymmetric(s, 4999, 9999, 10000);
  }

  /** They are the bucket of the letter 1, and with the one-place classes of a bucket this small they get different quadrants:
      unequal quadrants are not a strict order. */
  lemma TwoCopiesNotStrict(p: seq<int>, q: seq<int>, lo: int, hi: int)
    requires Placed(TwoCopies(), p, 1, lo, hi) && |q| >= 10000 && forall x :: lo <= x < hi ==> q[p[x]] == x - lo
    ensures !Strict(TwoCopies(), q, 1) && q[4999] != q[9999] && Cmp(TwoCopies(), 4999, 9999, 10000) == 0
  {
    CopiesAgree();
    PermOnto(p, 10000, 4999);
    PermOnto(p, 10000, 9999);
    hide Cmp;
  }

  /** The condition on the block fails. */
  lemma TwoCopiesSplit()
    ensures !Unsplit(TwoCopies(), 1, 1)
  {
    var s := TwoCopies();
    CopiesAgree();
    CmpAntisymmetric(s, 4999, 4999, 10000);
    hide Cmp;
    var a, b := NotAfter(s, 4999, -1), NotAfter(s, 4999, 0);
    assert s[4999] == s[9999] == 1;
    SubsetSize(a + {4999, 9999}, b);
    assert Fewer(s, 4999) + 2 <= UpTo(s, 4999);
  }

  lemma AtMostTwo(p: seq<int>, lo: int, hi: int, a: int, b: int)
    requires Distinct(p) && 0 <= lo <= hi <= |p| && forall x :: lo <= x < hi ==> p[x] == a || p[x] == b
    ensures hi - lo <= 2
  {
    ImageSize(p, lo, hi);
    SubsetSize(set x | lo <= x < hi :: p[x], {a, b});
  }

  lemma SubsetSize(a: set<int>, b: set<int>)
    requires a <= b
    ensures |a| <= |b|
  {
    assert |b| == |a| + |b - a| by { assert b == a + (b - a); }
  }
}
