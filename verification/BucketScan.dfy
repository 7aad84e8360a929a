/** The pointer scans of mainSort (Step 2): from one sorted big bucket, the sorted order of every small bucket that ends in its letter. */
module BucketScan {
  import opened Common
  import opened Rotations

  // ---- letters before and after ----

  /** The rotation that starts one place earlier. */
  function Pred(s: seq<int>, i: int): (k: int)
    requires 0 <= i < |s|
    ensures 0 <= k < |s|
  {
    if i == 0 then |s| - 1 else i - 1
  }

  function Succ(s: seq<int>, i: int): (k: int)
    requires 0 <= i < |s|
    ensures 0 <= k < |s|
  {
    (i + 1) % |s|
  }

  lemma PredSucc(s: seq<int>, i: int)
    requires 0 <= i < |s|
    ensures Succ(s, Pred(s, i)) == i && Pred(s, Succ(s, i)) == i
  {
    var n := |s|;
    if i == 0 { DivModUnique(n, n, 1, 0); } else { DivModUnique(i, n, 0, i); }
    if i == n - 1 { DivModUnique(n, n, 1, 0); } else { DivModUnique(i + 1, n, 0, i + 1); }
  }

  lemma ChSucc(s: seq<int>, i: int, k: nat)
    requires 0 <= i < |s|
    ensures Ch(s, i, k + 1) == Ch(s, Succ(s, i), k) && Ch(s, i, 0) == s[i]
  {
    ChShift(s, i, 1, k);
    DivModUnique(i, |s|, 0, i);
    assert Ch(s, i, 0) == s[i];
    hide Ch;
    assert 1 + k == k + 1;
  }

  /** m times the letter c, then a smaller (low) or a larger one. */
  ghost predicate Run(s: seq<int>, i: int, c: int, low: bool, m: nat) {
    0 <= i < |s| && m > 0 && (forall k :: 0 <= k < m ==> Ch(s, i, k) == c) && if low then Ch(s, i, m) < c else Ch(s, i, m) > c
  }

  ghost predicate Side(s: seq<int>, i: int, c: int, low: bool) {
    exists m: nat :: Run(s, i, c, low, m)
  }

  lemma RunShort(s: seq<int>, i: int, c: int, low: bool, m: nat)
    requires Run(s, i, c, low, m)
    ensures m < |s|
  {
    if m >= |s| {
      var n, k := |s|, m - |s|;
      assert Ch(s, i, k) == c;
      DivModUnique(i + m, n, (i + k) / n + 1, (i + k) % n);
    }
  }

  lemma RunGrows(s: seq<int>, i: int, c: int, low: bool, m: nat)
    requires Run(s, i, c, low, m) && s[Pred(s, i)] == c
    ensures Run(s, Pred(s, i), c, low, m + 1)
  {
    var p := Pred(s, i);
    PredSucc(s, i);
    forall k | 0 <= k < m + 1 ensures Ch(s, p, k) == c {
      if k > 0 { ChSucc(s, p, k - 1); }
    }
    ChSucc(s, p, m);
  }

  lemma RunShrinks(s: seq<int>, i: int, c: int, low: bool, m: nat)
    requires Run(s, i, c, low, m) && m > 1
    ensures Run(s, Succ(s, i), c, low, m - 1) && s[i] == c
  {
    var q := Succ(s, i);
    forall k | 0 <= k < m - 1 ensures Ch(s, q, k) == c {
      ChSucc(s, i, k);
      assert Ch(s, i, k + 1) == c;
    }
    ChSucc(s, i, m - 1);
    assert Ch(s, i, 0) == c;
  }

  /** Every low rotation sorts before every high one. */
  lemma LowBeforeHigh(s: seq<int>, i: int, j: int, c: int)
    requires Side(s, i, c, true) && Side(s, j, c, false)
    ensures Cmp(s, i, j, |s|) < 0 && i != j
  {
    var a: nat :| Run(s, i, c, true, a);
    var b: nat :| Run(s, j, c, false, b);
    RunShort(s, i, c, true, a);
    RunShort(s, j, c, false, b);
    var k := if a < b then a else b;
    assert Ch(s, i, k) < Ch(s, j, k);
    CmpIsLexicographic(s, i, j, |s|);
    CmpIsLexicographic(s, j, i, |s|);
  }

  /** Unless the block is all c, a rotation that starts with c is low or high. */
  lemma LowOrHigh(s: seq<int>, i: int, c: int)
    requires 0 <= i < |s| && s[i] == c
    ensures Side(s, i, c, true) || Side(s, i, c, false) || forall k :: 0 <= k < |s| ==> s[k] == c
  {
    ChSucc(s, i, 0);
    hide Ch;
    var m := 0;
    while m < |s| && Ch(s, i, m) == c
      invariant m <= |s| && (m == 0 ==> Ch(s, i, m) == c) && forall k :: 0 <= k < m ==> Ch(s, i, k) == c
    {
      m := m + 1;
    }
    if m == |s| {
      AllOfIt(s, i, c);
    } else {
      assert Run(s, i, c, true, m) || Run(s, i, c, false, m);
    }
  }

  lemma AllOfIt(s: seq<int>, i: int, c: int)
    requires 0 <= i < |s| && forall k :: 0 <= k < |s| ==> Ch(s, i, k) == c
    ensures forall k :: 0 <= k < |s| ==> s[k] == c
  {
    forall k | 0 <= k < |s| ensures s[k] == c {
      var d := if k >= i then k - i else k + |s| - i;
      if k < i { DivModUnique(i + d, |s|, 1, k); }
      assert Ch(s, i, d) == c;
    }
  }

  lemma FirstDecides(s: seq<int>, i: int, j: int)
    requires 0 <= i < |s| && 0 <= j < |s|
    ensures Cmp(s, i, j, 1) == if s[i] < s[j] then -1 else if s[i] > s[j] then 1 else 0
  {
    ChSucc(s, i, 0);
    ChSucc(s, j, 0);
    hide Ch;
    assert Cmp(s, i, j, 0) == 0;
  }

  // ---- order ----

  ghost predicate Before(s: seq<int>, i: int, j: int, up: bool) {
    0 <= i < |s| && 0 <= j < |s| && if up then Cmp(s, i, j, |s|) <= 0 else Cmp(s, j, i, |s|) <= 0
  }

  /** The same letter in front keeps the order. */
  lemma PredBefore(s: seq<int>, i: int, j: int, up: bool)
    requires Before(s, i, j, up) && s[Pred(s, i)] == s[Pred(s, j)]
    ensures Before(s, Pred(s, i), Pred(s, j), up)
  {
    if up { PredCmp(s, i, j); } else { PredCmp(s, j, i); }
  }

  lemma PredCmp(s: seq<int>, i: int, j: int)
    requires 0 <= i < |s| && 0 <= j < |s| && Cmp(s, i, j, |s|) <= 0 && s[Pred(s, i)] == s[Pred(s, j)]
    ensures Cmp(s, Pred(s, i), Pred(s, j), |s|) <= 0
  {
    var p, q := Pred(s, i), Pred(s, j);
    PredSucc(s, i);
    PredSucc(s, j);
    FirstDecides(s, p, q);
    CmpSplit(s, p, q, 1, |s| - 1);
    hide Cmp;
    if Cmp(s, i, j, |s| - 1) != 0 { CmpPrefix(s, i, j, |s| - 1, |s|); }
  }

  /** The second letter decides. */
  lemma SecondDecides(s: seq<int>, i: int, j: int)
    requires 0 <= i < |s| && 0 <= j < |s| && s[i] == s[j] && s[Succ(s, i)] < s[Succ(s, j)]
    ensures Cmp(s, i, j, |s|) < 0
  {
    assert Succ(s, i) != Succ(s, j);
    FirstDecides(s, i, j);
    assert Ch(s, i, 1) == s[Succ(s, i)] && Ch(s, j, 1) == s[Succ(s, j)];
    hide Ch, Succ;
    CmpPrefix(s, i, j, 2, |s|);
  }

  // ---- the predecessors of a list ----

  /** In order, the rotations one before those of q, where they start with c. */
  function Preds(s: seq<int>, q: seq<int>, c: int): seq<int>
    requires InRange(q, |s|)
  {
    if q == [] then [] else
      var k := Pred(s, q[|q| - 1]);
      Preds(s, q[..|q| - 1], c) + if s[k] == c then [k] else []
  }

  lemma PredsAppend(s: seq<int>, q: seq<int>, i: int, c: int)
    requires InRange(q, |s|) && 0 <= i < |s|
    ensures InRange(q + [i], |s|)
    ensures Preds(s, q + [i], c) == Preds(s, q, c) + if s[Pred(s, i)] == c then [Pred(s, i)] else []
  {
    assert (q + [i])[..|q|] == q;
  }

  /** Where an entry of Preds comes from. */
  lemma {:induction false} PredsFrom(s: seq<int>, q: seq<int>, c: int, y: int)
    requires InRange(q, |s|) && 0 <= y < |Preds(s, q, c)|
    ensures var e := Preds(s, q, c)[y]; 0 <= e < |s| && s[e] == c && Succ(s, e) in q
  {
    var front := q[..|q| - 1];
    PredSucc(s, q[|q| - 1]);
    if y < |Preds(s, front, c)| {
      PredsFrom(s, front, c, y);
      assert forall e :: e in front ==> e in q;
    }
  }

  lemma {:induction false} PredsHas(s: seq<int>, q: seq<int>, c: int, e: int)
    requires InRange(q, |s|) && 0 <= e < |s| && s[e] == c && Succ(s, e) in q
    ensures e in Preds(s, q, c)
  {
    var front := q[..|q| - 1];
    PredSucc(s, e);
    if Succ(s, e) != q[|q| - 1] {
      var x :| 0 <= x < |q| && q[x] == Succ(s, e);
      assert front[x] == Succ(s, e);
      PredsHas(s, front, c, e);
    }
  }

  /** Distinct and in order, if q is. */
  ghost predicate Listed(s: seq<int>, q: seq<int>, up: bool) {
    InRange(q, |s|) && Distinct(q) && forall x, y :: 0 <= x <= y < |q| ==> Before(s, q[x], q[y], up)
  }

  lemma ListedAppend(s: seq<int>, q: seq<int>, e: int, up: bool)
    requires Listed(s, q, up) && 0 <= e < |s| && forall x :: 0 <= x < |q| ==> q[x] != e && Before(s, q[x], e, up)
    ensures Listed(s, q + [e], up)
  {
    var r := q + [e];
    assert Cmp(s, e, e, |s|) == 0 by { CmpAntisymmetric(s, e, e, |s|); }
    forall x, y | 0 <= x <= y < |r| ensures Before(s, r[x], r[y], up) {
      if y < |q| { assert Before(s, q[x], q[y], up); }
    }
  }

  lemma {:induction false} PredsListed(s: seq<int>, q: seq<int>, c: int, up: bool)
    requires Listed(s, q, up)
    ensures Listed(s, Preds(s, q, c), up)
  {
    if q != [] {
      var front, i := q[..|q| - 1], q[|q| - 1];
      assert Listed(s, front, up);
      PredsListed(s, front, c, up);
      var k, r := Pred(s, i), Preds(s, front, c);
      if s[k] == c {
        forall y | 0 <= y < |r| ensures r[y] != k && Before(s, r[y], k, up) {
          PredsFrom(s, front, c, y);
          FrontBefore(s, q, up, Succ(s, r[y]));
          PredSucc(s, r[y]);
          PredSucc(s, i);
          PredBefore(s, Succ(s, r[y]), i, up);
        }
        ListedAppend(s, r, k, up);
      }
    }
  }

  lemma FrontBefore(s: seq<int>, q: seq<int>, up: bool, e: int)
    requires Listed(s, q, up) && q != [] && e in q[..|q| - 1]
    ensures Before(s, e, q[|q| - 1], up) && e != q[|q| - 1]
  {
    var x :| 0 <= x < |q| - 1 && q[..|q| - 1][x] == e;
    assert q[x] == e;
  }

  /** A list of distinct elements of a set is no longer than the set; if as long, it has them all. */
  lemma {:induction false} ListInSet(q: seq<int>, t: set<int>)
    requires Distinct(q) && forall x :: 0 <= x < |q| ==> q[x] in t
    ensures |q| <= |t|
    ensures |q| == |t| ==> forall e :: e in t ==> e in q
  {
    if q != [] {
      var front, e := q[..|q| - 1], q[|q| - 1];
      ListInSet(front, t - {e});
      assert q == front + [e];
    }
  }

  lemma {:induction false} SetInList(q: seq<int>, t: set<int>)
    requires forall e :: e in t ==> e in q
    ensures |t| <= |q|
  {
    if q != [] {
      var front, e := q[..|q| - 1], q[|q| - 1];
      forall d | d in t - {e} ensures d in front {
        var x :| 0 <= x < |q| && q[x] == d;
        assert front[x] == d;
      }
      SetInList(front, t - {e});
    } else {
      assert forall e :: e in t ==> e in q;
      assert forall e :: e !in t;
      assert t == {};
    }
  }
}
