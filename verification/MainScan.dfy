/** Step 2 of mainSort over ptr: two cursors read one sorted big bucket from both ends and write the small buckets that end in its letter. */
module MainScan {
  import opened Common
  import opened Rotations
  import opened BucketScan

  const SETMASK := 0x20_0000

  /** First place of the small bucket [a, b]; [a, 256] is where [a + 1, 0] begins. */
  function Start(st: seq<int>, a: int, b: int): int
    requires |st| == 65537 && 0 <= a < 256 && 0 <= b <= 256
  {
    st[a * 256 + b]
  }

  function Size(st: seq<int>, a: int, b: int): int
    requires |st| == 65537 && 0 <= a < 256 && 0 <= b < 256
  {
    Start(st, a, b + 1) - Start(st, a, b)
  }

  /** The small bucket of a rotation, by its first two letters. */
  function Key(s: seq<int>, i: int): int
    requires 0 <= i < |s|
  {
    s[i] * 256 + s[Succ(s, i)]
  }

  /** The starts of the small buckets, in order, over all places. */
  ghost predicate Starts(st: seq<int>, n: int) {
    |st| == 65537 && st[0] == 0 && st[65536] == n && forall x, y :: 0 <= x <= y < |st| ==> st[x] <= st[y]
  }

  ghost predicate Letters(s: seq<int>) {
    s != [] && InRange(s, 256)
  }

  /** What the radix sort leaves: every rotation lies in its own small bucket. */
  ghost predicate Bucketed(s: seq<int>, p: seq<int>, st: seq<int>) {
    Letters(s) && Starts(st, |s|) && IsPerm(p, |s|) && forall x :: 0 <= x < |p| ==> Home(s, st, p[x], x)
  }

  ghost predicate Home(s: seq<int>, st: seq<int>, i: int, x: int)
    requires Letters(s) && Starts(st, |s|) && 0 <= i < |s|
  {
    st[Key(s, i)] <= x < st[Key(s, i) + 1]
  }

  /** The small bucket [a, b] is in order. */
  ghost predicate SmallSorted(s: seq<int>, p: seq<int>, st: seq<int>, a: int, b: int)
    requires Letters(s) && Starts(st, |s|) && 0 <= a < 256 && 0 <= b < 256 && |p| == |s| && InRange(p, |s|)
  {
    forall x, y :: Start(st, a, b) <= x <= y < Start(st, a, b + 1) ==> Cmp(s, p[x], p[y], |s|) <= 0
  }

  /** A place inside a bucket tells the letters. */
  lemma HomeKey(s: seq<int>, st: seq<int>, i: int, x: int, q: int, r: int)
    requires Letters(s) && Starts(st, |s|) && 0 <= i < |s| && Home(s, st, i, x)
    requires 0 <= q <= r < 65537 && st[q] <= x < st[r]
    ensures q <= Key(s, i) < r
  {
  }

  /** The rotations that start with a, b. */
  ghost function Pairs(s: seq<int>, a: int, b: int): set<int> {
    set i | 0 <= i < |s| && s[i] == a && s[Succ(s, i)] == b
  }

  lemma PairsFill(s: seq<int>, p: seq<int>, st: seq<int>, a: int, b: int)
    requires Bucketed(s, p, st) && 0 <= a < 256 && 0 <= b < 256
    ensures |Pairs(s, a, b)| == Size(st, a, b)
  {
    var lo, hi, t := Start(st, a, b), Start(st, a, b + 1), Pairs(s, a, b);
    var q := p[lo..hi];
    forall x | 0 <= x < |q| ensures q[x] in t {
      HomeKey(s, st, p[lo + x], lo + x, a * 256 + b, a * 256 + b + 1);
    }
    ListInSet(q, t);
    forall e | e in t ensures e in q {
      PermOnto(p, |s|, e);
      var x :| 0 <= x < |p| && p[x] == e;
      assert Home(s, st, p[x], x);
      assert q[x - lo] == e;
    }
    SetInList(q, t);
  }

  // ---- the state of the scan ----

  /** The places from lo on, upwards or downwards. */
  function Along(p: seq<int>, from: int, len: nat, up: bool): (q: seq<int>)
    requires if up then 0 <= from && from + len <= |p| else len - 1 <= from < |p|
    ensures |q| == len
  {
    seq(len, x requires 0 <= x < len => if up then p[from + x] else p[from - x])
  }

  /** Where reading starts, how much is given, and where the bucket [c, ss] is filled from. */
  function From(st: seq<int>, ss: int, up: bool): int
    requires |st| == 65537 && 0 <= ss < 256
  {
    if up then Start(st, ss, 0) else Start(st, ss, 256) - 1
  }

  function Given(st: seq<int>, ss: int, up: bool): int
    requires |st| == 65537 && 0 <= ss < 256
  {
    if up then Start(st, ss, ss) - Start(st, ss, 0) else Start(st, ss, 256) - Start(st, ss, ss + 1)
  }

  function Base(st: seq<int>, c: int, ss: int, up: bool): int
    requires |st| == 65537 && 0 <= ss < 256 && 0 <= c < 256
  {
    if up then Start(st, c, ss) else Start(st, c, ss + 1) - 1
  }

  /** What stays as it is: letters, starts and which big buckets are done. */
  ghost predicate Setting(s: seq<int>, st: seq<int>, done: seq<bool>, ss: int) {
    Letters(s) && Starts(st, |s|) && |done| == 256 && 0 <= ss < 256 && !done[ss]
    && forall c :: 0 <= c < 256 ==> |Pairs(s, c, ss)| == Size(st, c, ss)
  }

  /** How many places of each [c, ss] a cursor has filled. */
  ghost predicate Filled(st: seq<int>, done: seq<bool>, ss: int, f: seq<int>)
    requires |st| == 65537 && |done| == 256 && 0 <= ss < 256
  {
    |f| == 256 && forall c :: 0 <= c < 256 ==> 0 <= f[c] <= Size(st, c, ss) && (done[c] ==> f[c] == 0)
  }

  /** The rotations a cursor reads: those given, then those it has itself put into [ss, ss]. */
  function List(p: seq<int>, st: seq<int>, ss: int, up: bool, m: int): (l: seq<int>)
    requires |st| == 65537 && 0 <= ss < 256 && Starts(st, |p|) && 0 <= m <= Size(st, ss, ss)
  {
    assert st[ss * 256] <= st[ss * 256 + ss] <= st[ss * 256 + ss + 1] <= st[ss * 256 + 256] <= st[65536] && 0 == st[0] <= st[ss * 256];
    Along(p, From(st, ss, up), Given(st, ss, up) + m, up)
  }

  function Bucket(p: seq<int>, st: seq<int>, c: int, ss: int, up: bool, m: int): (l: seq<int>)
    requires |st| == 65537 && 0 <= ss < 256 && 0 <= c < 256 && Starts(st, |p|) && 0 <= m <= Size(st, c, ss)
  {
    assert 0 == st[0] <= st[c * 256 + ss] <= st[c * 256 + ss + 1] <= st[65536];
    Along(p, Base(st, c, ss, up), m, up)
  }

  /** A good list: rotations of one side that start with ss, in order; the given ones go on with another letter. */
  ghost predicate Good(s: seq<int>, l: seq<int>, given: int, ss: int, up: bool) {
    0 <= given <= |l| && Listed(s, l, up) && (forall x :: 0 <= x < |l| ==> Side(s, l[x], ss, up))
    && forall x :: 0 <= x < given ==> s[Succ(s, l[x])] != ss
  }

  /** The filled parts of the buckets hold the predecessors of q. */
  ghost predicate Holds(s: seq<int>, p: seq<int>, st: seq<int>, done: seq<bool>, ss: int, up: bool, f: seq<int>, q: seq<int>)
    requires Setting(s, st, done, ss) && |p| == |s| && Filled(st, done, ss, f) && InRange(q, |s|)
  {
    forall c :: 0 <= c < 256 && !done[c] ==> Bucket(p, st, c, ss, up, f[c]) == Preds(s, q, c)
  }

  /** One cursor has read j rotations and put the predecessors of exactly these, in order, into the buckets of big buckets not done. */
  ghost predicate Scan(s: seq<int>, p: seq<int>, st: seq<int>, done: seq<bool>, ss: int, up: bool, f: seq<int>, j: int)
    requires Setting(s, st, done, ss) && |p| == |s|
  {
    Filled(st, done, ss, f) && var l := List(p, st, ss, up, f[ss]);
    0 <= j <= |l| && Good(s, l, Given(st, ss, up), ss, up) && Holds(s, p, st, done, ss, up, f, l[..j])
  }

  // ---- one step ----

  predicate InRegion(x: int, from: int, len: int, up: bool) {
    if up then from <= x < from + len else from - len < x <= from
  }

  /** The next place to fill. */
  function Place(st: seq<int>, c: int, ss: int, up: bool, m: int): int
    requires |st| == 65537 && 0 <= ss < 256 && 0 <= c < 256
  {
    if up then Base(st, c, ss, up) + m else Base(st, c, ss, up) - m
  }

  lemma AlongKept(p: seq<int>, from: int, len: nat, up: bool, x: int, v: int)
    requires 0 <= x < |p| && !InRegion(x, from, len, up) && if up then 0 <= from && from + len <= |p| else len - 1 <= from < |p|
    ensures Along(p[x := v], from, len, up) == Along(p, from, len, up)
  {
  }

  lemma AlongGrown(p: seq<int>, from: int, len: nat, up: bool, x: int, v: int)
    requires 0 <= x < |p| && (if up then 0 <= from && from + len < |p| else len <= from < |p|) && x == if up then from + len else from - len
    ensures Along(p[x := v], from, len + 1, up) == Along(p, from, len, up) + [v]
  {
  }

  /** What is known of starts: buckets do not overlap. */
  lemma Disjoint(st: seq<int>, n: int, c: int, d: int, ss: int)
    requires Starts(st, n) && 0 <= c < 256 && 0 <= d < 256 && 0 <= ss < 256
    ensures 0 <= Start(st, c, 0) <= Start(st, c, ss) <= Start(st, c, ss + 1) <= Start(st, c, 256) <= n
    ensures c < d ==> Start(st, c, 256) <= Start(st, d, 0)
  {
    assert st[0] <= st[c * 256] <= st[c * 256 + ss] <= st[c * 256 + ss + 1] <= st[c * 256 + 256] <= st[65536];
    if c < d { assert st[c * 256 + 256] <= st[d * 256]; }
  }

  /** A list is what was given and what its cursor put into [ss, ss]. */
  lemma ListTail(p: seq<int>, st: seq<int>, ss: int, up: bool, m: int)
    requires |st| == 65537 && 0 <= ss < 256 && Starts(st, |p|) && 0 <= m <= Size(st, ss, ss)
    ensures var g := Given(st, ss, up); 0 <= g && |List(p, st, ss, up, m)| == g + m && List(p, st, ss, up, m)[g..] == Bucket(p, st, ss, ss, up, m)
  {
    Disjoint(st, |p|, ss, ss, ss);
  }

  /** A place in the bucket [c, ss] is in no other bucket [d, ss], and in the list only if c is ss. */
  lemma FreeOfBucket(st: seq<int>, n: int, c: int, ss: int, x: int, d: int, l: int, up: bool)
    requires Starts(st, n) && 0 <= c < 256 && 0 <= d < 256 && 0 <= ss < 256 && Start(st, c, ss) <= x < Start(st, c, ss + 1)
    requires d != c && 0 <= l <= Size(st, d, ss)
    ensures !InRegion(x, Base(st, d, ss, up), l, up)
  {
    Disjoint(st, n, c, d, ss);
    Disjoint(st, n, d, c, ss);
  }

  lemma FreeOfList(st: seq<int>, n: int, c: int, ss: int, x: int, l: int, up: bool)
    requires Starts(st, n) && 0 <= c < 256 && 0 <= ss < 256 && Start(st, c, ss) <= x < Start(st, c, ss + 1)
    requires c != ss && 0 <= l <= Size(st, ss, ss)
    ensures !InRegion(x, From(st, ss, up), Given(st, ss, up) + l, up)
  {
    Disjoint(st, n, c, ss, ss);
    Disjoint(st, n, ss, c, ss);
  }

  /** While there is room the next place of one cursor is ahead of the other cursor. */
  lemma FreeOfOther(st: seq<int>, n: int, c: int, ss: int, up: bool, m: int, m2: int, x: int)
    requires Starts(st, n) && 0 <= c < 256 && 0 <= ss < 256 && 0 <= m && 0 <= m2 && m + m2 < Size(st, c, ss) && x == Place(st, c, ss, up, m)
    ensures 0 <= x < n && Start(st, c, ss) <= x < Start(st, c, ss + 1)
    ensures !InRegion(x, Base(st, c, ss, !up), m2, !up)
    ensures c == ss ==> !InRegion(x, From(st, ss, !up), Given(st, ss, !up) + m2, !up)
  {
    Disjoint(st, n, c, ss, ss);
    Disjoint(st, n, ss, c, ss);
  }

  /** A given rotation and one of [ss, ss]. */
  lemma GivenBefore(s: seq<int>, i: int, k: int, ss: int, up: bool)
    requires Side(s, i, ss, up) && s[Succ(s, i)] != ss && 0 <= k < |s| && s[k] == ss && s[Succ(s, k)] == ss
    ensures Before(s, i, k, up) && i != k
  {
    var m: nat :| Run(s, i, ss, up, m);
    ChSucc(s, i, 0);
    ChSucc(s, Succ(s, i), 0);
    assert Ch(s, i, 0) == ss;
    assert Ch(s, i, 1) == s[Succ(s, i)];
    assert m == 1;
    hide Succ, Ch;
    if up { SecondDecides(s, i, k); } else { SecondDecides(s, k, i); }
  }

  /** The list goes on with the predecessor of its entry j. */
  lemma GoodAppend(s: seq<int>, l: seq<int>, given: int, ss: int, up: bool, j: int)
    requires Good(s, l, given, ss, up) && 0 <= j < |l| && l[given..] == Preds(s, l[..j], ss) && s[Pred(s, l[j])] == ss
    ensures Good(s, l + [Pred(s, l[j])], given, ss, up)
  {
    var i, k := l[j], Pred(s, l[j]);
    hide Pred, Succ, Side, Before;
    PredSucc(s, i);
    SideStarts(s, i, ss, up);
    forall x | 0 <= x < |l| ensures l[x] != k && Before(s, l[x], k, up) {
      if x < given {
        GivenBefore(s, l[x], k, ss, up);
      } else {
        var q, y := l[..j], x - given;
        assert l[given..][y] == l[x];
        PredsFrom(s, q, ss, y);
        var z :| 0 <= z < |q| && q[z] == Succ(s, l[x]);
        assert l[z] == q[z];
        PredSucc(s, l[x]);
        assert Before(s, l[z], l[j], up);
        PredBefore(s, l[z], i, up);
      }
    }
    ListedAppend(s, l, k, up);
    SideGrows(s, i, ss, up);
  }

  lemma SideStarts(s: seq<int>, i: int, ss: int, up: bool)
    requires Side(s, i, ss, up)
    ensures 0 <= i < |s| && s[i] == ss
  {
    var m: nat :| Run(s, i, ss, up, m);
    ChSucc(s, i, 0);
    assert Ch(s, i, 0) == ss;
  }

  lemma SideGrows(s: seq<int>, i: int, ss: int, up: bool)
    requires Side(s, i, ss, up) && s[Pred(s, i)] == ss
    ensures Side(s, Pred(s, i), ss, up)
  {
    var m: nat :| Run(s, i, ss, up, m);
    RunGrows(s, i, ss, up, m);
  }

  /** What becomes of a cursor's list when the predecessor of its entry j is put in its place. */
  lemma ListWritten(s: seq<int>, p: seq<int>, st: seq<int>, ss: int, up: bool, m: int, c: int, fc: int, x: int, k: int)
    requires Letters(s) && Starts(st, |s|) && |p| == |s| && 0 <= ss < 256 && 0 <= m <= Size(st, ss, ss) && 0 <= c < 256 && 0 <= fc < Size(st, c, ss)
    requires x == Place(st, c, ss, up, fc) && (c == ss ==> fc == m)
    ensures 0 <= x < |p| && Start(st, c, ss) <= x < Start(st, c, ss + 1)
    ensures c != ss ==> List(p[x := k], st, ss, up, m) == List(p, st, ss, up, m)
    ensures c == ss ==> List(p[x := k], st, ss, up, m + 1) == List(p, st, ss, up, m) + [k]
  {
    Disjoint(st, |s|, c, ss, ss);
    Disjoint(st, |s|, ss, c, ss);
    if c == ss {
      AlongGrown(p, From(st, ss, up), Given(st, ss, up) + m, up, x, k);
    } else {
      FreeOfList(st, |s|, c, ss, x, m, up);
      AlongKept(p, From(st, ss, up), Given(st, ss, up) + m, up, x, k);
    }
  }

  lemma BucketWritten(p: seq<int>, st: seq<int>, c: int, ss: int, up: bool, m: int, x: int, k: int)
    requires 0 <= c < 256 && 0 <= ss < 256 && Starts(st, |p|) && 0 <= m < Size(st, c, ss) && x == Place(st, c, ss, up, m)
    ensures 0 <= x < |p| && Bucket(p[x := k], st, c, ss, up, m + 1) == Bucket(p, st, c, ss, up, m) + [k]
  {
    Disjoint(st, |p|, c, ss, ss);
    AlongGrown(p, Base(st, c, ss, up), m, up, x, k);
  }

  lemma BucketKept(p: seq<int>, st: seq<int>, d: int, ss: int, up: bool, m: int, c: int, x: int, k: int)
    requires 0 <= c < 256 && 0 <= d < 256 && 0 <= ss < 256 && Starts(st, |p|) && 0 <= m <= Size(st, d, ss)
    requires d != c && Start(st, c, ss) <= x < Start(st, c, ss + 1)
    ensures 0 <= x < |p| && Bucket(p[x := k], st, d, ss, up, m) == Bucket(p, st, d, ss, up, m)
  {
    Disjoint(st, |p|, c, d, ss);
    Disjoint(st, |p|, d, c, ss);
    FreeOfBucket(st, |p|, c, ss, x, d, m, up);
    AlongKept(p, Base(st, d, ss, up), m, up, x, k);
  }

  lemma HoldsWrite(s: seq<int>, p: seq<int>, st: seq<int>, done: seq<bool>, ss: int, up: bool, f: seq<int>, q: seq<int>, i: int, x: int, k: int, c: int)
    requires Setting(s, st, done, ss) && |p| == |s| && Filled(st, done, ss, f) && InRange(q, |s|) && Holds(s, p, st, done, ss, up, f, q)
    requires 0 <= i < |s| && k == Pred(s, i) && c == s[k] && 0 <= c < 256 && !done[c] && f[c] < Size(st, c, ss) && x == Place(st, c, ss, up, f[c])
    ensures 0 <= x < |p| && InRange(q + [i], |s|) && Filled(st, done, ss, f[c := f[c] + 1])
    ensures Holds(s, p[x := k], st, done, ss, up, f[c := f[c] + 1], q + [i])
  {
    StartsLength(st, |s|);
    hide Bucket, Pred, Starts, Preds, Letters, Base, Start;
    PlaceInside(st, |s|, c, ss, up, f[c], x);
    var p', f' := p[x := k], f[c := f[c] + 1];
    forall d | 0 <= d < 256 && !done[d] ensures Bucket(p', st, d, ss, up, f'[d]) == Preds(s, q + [i], d) {
      BucketStep(s, p, st, d, ss, up, f[d], q, i, x, k, c);
    }
  }

  lemma BucketStep(s: seq<int>, p: seq<int>, st: seq<int>, d: int, ss: int, up: bool, m: int, q: seq<int>, i: int, x: int, k: int, c: int)
    requires Starts(st, |s|) && |p| == |s| && InRange(q, |s|) && 0 <= ss < 256 && 0 <= d < 256 && 0 <= c < 256 && 0 <= i < |s|
    requires k == Pred(s, i) && c == s[k] && Start(st, c, ss) <= x < Start(st, c, ss + 1) && 0 <= m <= Size(st, d, ss)
    requires Bucket(p, st, d, ss, up, m) == Preds(s, q, d) && (d == c ==> m < Size(st, c, ss) && x == Place(st, c, ss, up, m))
    ensures 0 <= x < |p| && InRange(q + [i], |s|)
    ensures Bucket(p[x := k], st, d, ss, up, if d == c then m + 1 else m) == Preds(s, q + [i], d)
  {
    hide Bucket, Pred, Preds;
    PredsAppend(s, q, i, d);
    if d == c { BucketWritten(p, st, c, ss, up, m, x, k); } else { BucketKept(p, st, d, ss, up, m, c, x, k); }
  }

  lemma StartsLength(st: seq<int>, n: int)
    requires Starts(st, n)
    ensures |st| == 65537
  {
  }

  lemma GoodRange(s: seq<int>, l: seq<int>, given: int, ss: int, up: bool, j: int)
    requires Good(s, l, given, ss, up) && 0 <= j <= |l|
    ensures InRange(l, |s|) && InRange(l[..j], |s|)
  {
  }

  lemma PlaceInside(st: seq<int>, n: int, c: int, ss: int, up: bool, m: int, x: int)
    requires Starts(st, n) && 0 <= c < 256 && 0 <= ss < 256 && 0 <= m < Size(st, c, ss) && x == Place(st, c, ss, up, m)
    ensures 0 <= x < n && Start(st, c, ss) <= x < Start(st, c, ss + 1)
  {
    Disjoint(st, n, c, ss, ss);
  }

  /** The list after a step: the same, or one longer. */
  lemma ListStep(s: seq<int>, p: seq<int>, st: seq<int>, ss: int, up: bool, m: int, j: int, c: int, fc: int, x: int, k: int)
    requires Letters(s) && Starts(st, |s|) && |p| == |s| && 0 <= ss < 256 && 0 <= m <= Size(st, ss, ss) && 0 <= c < 256 && 0 <= fc < Size(st, c, ss)
    requires var l := List(p, st, ss, up, m);
             0 <= j < |l| && Good(s, l, Given(st, ss, up), ss, up) && Bucket(p, st, ss, ss, up, m) == Preds(s, l[..j], ss) && k == Pred(s, l[j]) && c == s[k]
    requires x == Place(st, c, ss, up, fc) && (c == ss ==> fc == m)
    ensures 0 <= x < |p|
    ensures var l, l' := List(p, st, ss, up, m), List(p[x := k], st, ss, up, if c == ss then m + 1 else m);
            Good(s, l', Given(st, ss, up), ss, up) && j < |l'| && l'[..j + 1] == l[..j] + [l[j]]
  {
    hide *;
    StartsLength(st, |s|);
    var l := List(p, st, ss, up, m);
    ListWritten(s, p, st, ss, up, m, c, fc, x, k);
    ListTail(p, st, ss, up, m);
    if c == ss { GoodAppend(s, l, Given(st, ss, up), ss, up, j); }
  }

  /** The cursor's step: the predecessor of its next rotation goes to the next place of its bucket. */
  lemma ScanWrite(s: seq<int>, p: seq<int>, st: seq<int>, done: seq<bool>, ss: int, up: bool, f: seq<int>, j: int, x: int, k: int, c: int)
    requires Setting(s, st, done, ss) && |p| == |s| && Scan(s, p, st, done, ss, up, f, j) && j < |List(p, st, ss, up, f[ss])|
    requires 0 <= List(p, st, ss, up, f[ss])[j] < |s| && k == Pred(s, List(p, st, ss, up, f[ss])[j]) && c == s[k] && 0 <= c < 256
    requires !done[c] && f[c] < Size(st, c, ss) && x == Place(st, c, ss, up, f[c])
    ensures 0 <= x < |p| && Scan(s, p[x := k], st, done, ss, up, f[c := f[c] + 1], j + 1)
  {
    hide *;
    ScanParts(s, p, st, done, ss, up, f, j);
    var l := List(p, st, ss, up, f[ss]);
    GoodRange(s, l, Given(st, ss, up), ss, up, j);
    ListStep(s, p, st, ss, up, f[ss], j, c, f[c], x, k);
    HoldsWrite(s, p, st, done, ss, up, f, l[..j], l[j], x, k, c);
    ScanIs(s, p[x := k], st, done, ss, up, f[c := f[c] + 1], l[..j] + [l[j]], j + 1);
  }

  lemma ScanIs(s: seq<int>, p: seq<int>, st: seq<int>, done: seq<bool>, ss: int, up: bool, f: seq<int>, q: seq<int>, j: int)
    requires Setting(s, st, done, ss) && |p| == |s| && |st| == 65537 && Starts(st, |p|) && |done| == 256 && 0 <= ss < 256 && Filled(st, done, ss, f) && InRange(q, |s|)
    requires |f| == 256 && 0 <= f[ss] <= Size(st, ss, ss)
    requires var l := List(p, st, ss, up, f[ss]); 0 <= j <= |l| && Good(s, l, Given(st, ss, up), ss, up) && l[..j] == q
    requires Holds(s, p, st, done, ss, up, f, q)
    ensures Scan(s, p, st, done, ss, up, f, j)
  {
    hide List, Good, Given, Holds, Filled, Starts, Letters;
  }

  lemma ScanParts(s: seq<int>, p: seq<int>, st: seq<int>, done: seq<bool>, ss: int, up: bool, f: seq<int>, j: int)
    requires Setting(s, st, done, ss) && |p| == |s| && Scan(s, p, st, done, ss, up, f, j)
    ensures |st| == 65537 && |f| == 256 && |done| == 256 && 0 <= ss < 256 && !done[ss] && Letters(s) && Starts(st, |s|) && Filled(st, done, ss, f)
    ensures 0 <= f[ss] <= Size(st, ss, ss) && forall d :: 0 <= d < 256 && !done[d] ==> 0 <= f[d]
    ensures var l := List(p, st, ss, up, f[ss]);
            0 <= j <= |l| && Good(s, l, Given(st, ss, up), ss, up) && Holds(s, p, st, done, ss, up, f, l[..j]) && Bucket(p, st, ss, ss, up, f[ss]) == Preds(s, l[..j], ss)
  {
    StartsLength(st, |s|);
    GoodRange(s, List(p, st, ss, up, f[ss]), Given(st, ss, up), ss, up, j);
    hide List, Bucket, Good, Pred, Starts, Given, Letters, Start, Preds, InRange;
  }

  /** Nothing is put into a big bucket that is done. */
  lemma ScanSkip(s: seq<int>, p: seq<int>, st: seq<int>, done: seq<bool>, ss: int, up: bool, f: seq<int>, j: int)
    requires Setting(s, st, done, ss) && |p| == |s| && Scan(s, p, st, done, ss, up, f, j) && j < |List(p, st, ss, up, f[ss])|
    requires var i := List(p, st, ss, up, f[ss])[j]; 0 <= i < |s| && 0 <= s[Pred(s, i)] < 256 && done[s[Pred(s, i)]]
    ensures Scan(s, p, st, done, ss, up, f, j + 1)
  {
    var l := List(p, st, ss, up, f[ss]);
    StartsLength(st, |s|);
    GoodRange(s, l, Given(st, ss, up), ss, up, j);
    hide List, Bucket, Good, Pred, Starts, Given, Letters, Start, Preds, InRange;
    assert l[..j + 1] == l[..j] + [l[j]];
    forall d | 0 <= d < 256 && !done[d] ensures Bucket(p, st, d, ss, up, f[d]) == Preds(s, l[..j] + [l[j]], d) {
      PredsAppend(s, l[..j], l[j], d);
    }
  }

  /** A step of one cursor leaves the other's list and buckets alone while there is room between them. */
  lemma ScanOther(s: seq<int>, p: seq<int>, st: seq<int>, done: seq<bool>, ss: int, up: bool, f: seq<int>, j: int, x: int, k: int, c: int, m: int)
    requires Setting(s, st, done, ss) && |p| == |s| && Scan(s, p, st, done, ss, up, f, j) && 0 <= c < 256
    requires 0 <= m && m + f[c] < Size(st, c, ss) && x == Place(st, c, ss, !up, m)
    ensures 0 <= x < |p| && Scan(s, p[x := k], st, done, ss, up, f, j)
  {
    var l := List(p, st, ss, up, f[ss]);
    StartsLength(st, |s|);
    FreeOfOther(st, |s|, c, ss, !up, m, f[c], x);
    ListUntouched(p, st, ss, up, f[ss], c, x, k);
    hide List, Good, Pred, Starts, Letters, Preds, InRange, InRegion, Base, Start, Bucket;
    forall d | 0 <= d < 256 && !done[d] ensures Bucket(p[x := k], st, d, ss, up, f[d]) == Bucket(p, st, d, ss, up, f[d]) {
      if d == c { BucketUntouched(p, st, c, ss, up, f[c], x, k); } else { BucketKept(p, st, d, ss, up, f[d], c, x, k); }
    }
  }

  lemma ListUntouched(p: seq<int>, st: seq<int>, ss: int, up: bool, m: int, c: int, x: int, k: int)
    requires Starts(st, |p|) && 0 <= c < 256 && 0 <= ss < 256 && 0 <= m <= Size(st, ss, ss) && Start(st, c, ss) <= x < Start(st, c, ss + 1)
    requires c == ss ==> !InRegion(x, From(st, ss, up), Given(st, ss, up) + m, up)
    ensures 0 <= x < |p| && List(p[x := k], st, ss, up, m) == List(p, st, ss, up, m)
  {
    Disjoint(st, |p|, c, ss, ss);
    Disjoint(st, |p|, ss, ss, ss);
    if c != ss { FreeOfList(st, |p|, c, ss, x, m, up); }
    AlongKept(p, From(st, ss, up), Given(st, ss, up) + m, up, x, k);
  }

  lemma BucketUntouched(p: seq<int>, st: seq<int>, c: int, ss: int, up: bool, m: int, x: int, k: int)
    requires Starts(st, |p|) && 0 <= c < 256 && 0 <= ss < 256 && 0 <= m <= Size(st, c, ss) && 0 <= x < |p|
    requires !InRegion(x, Base(st, c, ss, up), m, up)
    ensures Bucket(p[x := k], st, c, ss, up, m) == Bucket(p, st, c, ss, up, m)
  {
    Disjoint(st, |p|, c, ss, ss);
    AlongKept(p, Base(st, c, ss, up), m, up, x, k);
  }

  // ---- both cursors ----

  /** Predecessors of low and of high rotations with the same first letter c: distinct, all of them starting with c and ss. */
  lemma BothSides(s: seq<int>, l: seq<int>, r: seq<int>, c: int, ss: int)
    requires Listed(s, l, true) && Listed(s, r, false)
    requires (forall x :: 0 <= x < |l| ==> Side(s, l[x], ss, true)) && forall x :: 0 <= x < |r| ==> Side(s, r[x], ss, false)
    ensures var q := Preds(s, l, c) + Preds(s, r, c); Distinct(q) && forall x :: 0 <= x < |q| ==> q[x] in Pairs(s, c, ss)
  {
    var a, b := Preds(s, l, c), Preds(s, r, c);
    ListedDistinct(s, l, true);
    ListedDistinct(s, r, false);
    PredsListed(s, l, c, true);
    PredsListed(s, r, c, false);
    hide Preds, Side, Succ, Before, Listed;
    forall x | 0 <= x < |a| ensures a[x] in Pairs(s, c, ss) && Side(s, Succ(s, a[x]), ss, true) { OneSide(s, l, c, ss, true, x); }
    forall x | 0 <= x < |b| ensures b[x] in Pairs(s, c, ss) && Side(s, Succ(s, b[x]), ss, false) { OneSide(s, r, c, ss, false, x); }
    forall x, y | 0 <= x < |a| && 0 <= y < |b| ensures a[x] != b[y] {
      LowBeforeHigh(s, Succ(s, a[x]), Succ(s, b[y]), ss);
    }
    ListedDistinct(s, a, true);
    ListedDistinct(s, b, false);
    hide Pairs;
    DistinctJoin(a, b);
  }

  lemma OneSide(s: seq<int>, l: seq<int>, c: int, ss: int, up: bool, x: int)
    requires InRange(l, |s|) && (forall z :: 0 <= z < |l| ==> Side(s, l[z], ss, up)) && 0 <= x < |Preds(s, l, c)|
    ensures var e := Preds(s, l, c)[x]; e in Pairs(s, c, ss) && Side(s, Succ(s, e), ss, up)
  {
    PredsFrom(s, l, c, x);
    var e := Preds(s, l, c)[x];
    hide Preds, Side, Succ;
    var z :| 0 <= z < |l| && l[z] == Succ(s, e);
    SideStarts(s, l[z], ss, up);
  }

  lemma ListedDistinct(s: seq<int>, q: seq<int>, up: bool)
    requires Listed(s, q, up)
    ensures Distinct(q) && InRange(q, |s|)
  {
  }

  lemma DistinctJoin(a: seq<int>, b: seq<int>)
    requires Distinct(a) && Distinct(b) && forall x, y :: 0 <= x < |a| && 0 <= y < |b| ==> a[x] != b[y]
    ensures Distinct(a + b)
  {
  }

  /** Before a cursor puts another rotation into [c, ss] there is room for it. */
  lemma Room(s: seq<int>, p: seq<int>, st: seq<int>, done: seq<bool>, ss: int, f: seq<int>, j: int, g: seq<int>, h: int, c: int, up: bool)
    requires Setting(s, st, done, ss) && |p| == |s| && Scan(s, p, st, done, ss, true, f, j) && Scan(s, p, st, done, ss, false, g, h)
    requires 0 <= c < 256 && !done[c]
    requires var l, n := List(p, st, ss, up, if up then f[ss] else g[ss]), if up then j else h;
             n < |l| && 0 <= l[n] < |s| && s[Pred(s, l[n])] == c
    ensures f[c] + g[c] < Size(st, c, ss)
  {
    hide *;
    PairsCount(s, st, done, ss, c);
    ScanRead(s, p, st, done, ss, true, f, j, c);
    ScanRead(s, p, st, done, ss, false, g, h, c);
    var l, r := List(p, st, ss, true, f[ss]), List(p, st, ss, false, g[ss]);
    RoomFor(s, l, r, if up then j + 1 else j, if up then h else h + 1, c, ss);
    if up { OneMorePred(s, l, j, c); } else { OneMorePred(s, r, h, c); }
  }

  lemma PairsCount(s: seq<int>, st: seq<int>, done: seq<bool>, ss: int, c: int)
    requires Setting(s, st, done, ss) && 0 <= c < 256
    ensures |st| == 65537 && 0 <= ss < 256 && |Pairs(s, c, ss)| == Size(st, c, ss)
  {
    hide Pairs, Size;
  }

  lemma OneMorePred(s: seq<int>, l: seq<int>, j: int, c: int)
    requires 0 <= j < |l| && InRange(l, |s|) && 0 <= l[j] < |s| && s[Pred(s, l[j])] == c
    ensures InRange(l[..j], |s|) && InRange(l[..j + 1], |s|) && |Preds(s, l[..j + 1], c)| == |Preds(s, l[..j], c)| + 1
  {
    assert l[..j + 1] == l[..j] + [l[j]];
    PredsAppend(s, l[..j], l[j], c);
    hide Preds, Pred;
  }

  /** What a cursor has read and filled. */
  lemma ScanRead(s: seq<int>, p: seq<int>, st: seq<int>, done: seq<bool>, ss: int, up: bool, f: seq<int>, j: int, c: int)
    requires Setting(s, st, done, ss) && |p| == |s| && Scan(s, p, st, done, ss, up, f, j) && 0 <= c < 256 && !done[c]
    ensures |st| == 65537 && Starts(st, |p|) && |f| == 256 && 0 <= f[ss] <= Size(st, ss, ss)
    ensures var l := List(p, st, ss, up, f[ss]); 0 <= j <= |l| && InRange(l, |s|) && InRange(l[..j], |s|) && |Preds(s, l[..j], c)| == f[c]
    ensures var l := List(p, st, ss, up, f[ss]); Listed(s, l, up) && forall x :: 0 <= x < |l| ==> Side(s, l[x], ss, up)
  {
    var l := List(p, st, ss, up, f[ss]);
    assert |Bucket(p, st, c, ss, up, f[c])| == f[c];
    GoodRange(s, l, Given(st, ss, up), ss, up, j);
    hide List, Bucket, Preds, Starts, Letters;
  }

  lemma RoomFor(s: seq<int>, l: seq<int>, r: seq<int>, j: int, h: int, c: int, ss: int)
    requires 0 <= j <= |l| && 0 <= h <= |r| && Listed(s, l, true) && Listed(s, r, false)
    requires (forall x :: 0 <= x < |l| ==> Side(s, l[x], ss, true)) && forall x :: 0 <= x < |r| ==> Side(s, r[x], ss, false)
    ensures InRange(l[..j], |s|) && InRange(r[..h], |s|) && |Preds(s, l[..j], c)| + |Preds(s, r[..h], c)| <= |Pairs(s, c, ss)|
  {
    assert Listed(s, l[..j], true) && Listed(s, r[..h], false);
    hide Listed, Side;
    ListedDistinct(s, l[..j], true);
    ListedDistinct(s, r[..h], false);
    BothSides(s, l[..j], r[..h], c, ss);
    hide Pairs, Preds;
    ListInSet(Preds(s, l[..j], c) + Preds(s, r[..h], c), Pairs(s, c, ss));
  }

  lemma GoodPrefix(s: seq<int>, l: seq<int>, given: int, ss: int, up: bool, j: int)
    requires Good(s, l, given, ss, up) && 0 <= j <= |l|
    ensures Listed(s, l[..j], up) && forall x :: 0 <= x < j ==> Side(s, l[..j][x], ss, up)
  {
  }

  // ---- before the scan ----

  /** In a big bucket whose small buckets but [ss, ss] are sorted, the rotations that do not go on with ss are in order. */
  lemma GivenOrdered(s: seq<int>, p: seq<int>, st: seq<int>, ss: int, x: int, y: int)
    requires Bucketed(s, p, st) && 0 <= ss < 256 && forall b :: 0 <= b < 256 && b != ss ==> SmallSorted(s, p, st, ss, b)
    requires 0 <= x <= y < |p| && s[p[x]] == ss == s[p[y]] && s[Succ(s, p[x])] != ss
    ensures Cmp(s, p[x], p[y], |s|) <= 0
  {
    var a, b := s[Succ(s, p[x])], s[Succ(s, p[y])];
    assert Home(s, st, p[x], x) && Home(s, st, p[y], y);
    if a < b {
      SecondDecides(s, p[x], p[y]);
    } else {
      assert SmallSorted(s, p, st, ss, a);
    }
  }

  lemma GivenGood(s: seq<int>, p: seq<int>, st: seq<int>, ss: int, up: bool)
    requires Bucketed(s, p, st) && 0 <= ss < 256 && forall b :: 0 <= b < 256 && b != ss ==> SmallSorted(s, p, st, ss, b)
    requires Size(st, ss, ss) >= 0
    ensures Good(s, List(p, st, ss, up, 0), Given(st, ss, up), ss, up)
  {
    Disjoint(st, |s|, ss, ss, ss);
    var l := List(p, st, ss, up, 0);
    var a := From(st, ss, up);
    forall x | 0 <= x < |l|
      ensures var z := if up then a + x else a - x; 0 <= z < |p| && l[x] == p[z] && 0 <= p[z] < |s| && s[p[z]] == ss && s[Succ(s, p[z])] != ss && Side(s, p[z], ss, up)
    {
      GivenAt(s, p, st, ss, up, x);
    }
    hide *;
    BucketedPerm(s, p, st);
    PermRange(p, |s|);
    GivenDistinct(p, l, a, up, |s|);
    forall x, y | 0 <= x <= y < |l| ensures Before(s, l[x], l[y], up) {
      var u, v := if up then a + x else a - x, if up then a + y else a - y;
      assert 0 <= u < |p| && 0 <= v < |p| && l[x] == p[u] && l[y] == p[v];
      if up { GivenOrdered(s, p, st, ss, u, v); } else { GivenOrdered(s, p, st, ss, v, u); }
      BeforeIs(s, l[x], l[y], up);
    }
    GoodJoin(s, l, Given(st, ss, up), ss, up);
  }

  lemma BucketedPerm(s: seq<int>, p: seq<int>, st: seq<int>)
    requires Bucketed(s, p, st)
    ensures IsPerm(p, |s|) && |p| == |s|
  {
  }

  lemma BeforeIs(s: seq<int>, i: int, j: int, up: bool)
    requires 0 <= i < |s| && 0 <= j < |s| && if up then Cmp(s, i, j, |s|) <= 0 else Cmp(s, j, i, |s|) <= 0
    ensures Before(s, i, j, up)
  {
  }

  lemma GoodJoin(s: seq<int>, l: seq<int>, given: int, ss: int, up: bool)
    requires 0 <= given <= |l| && InRange(l, |s|) && Distinct(l) && forall x, y :: 0 <= x <= y < |l| ==> Before(s, l[x], l[y], up)
    requires (forall x :: 0 <= x < |l| ==> Side(s, l[x], ss, up)) && forall x :: 0 <= x < given ==> 0 <= l[x] < |s| && s[Succ(s, l[x])] != ss
    ensures Good(s, l, given, ss, up)
  {
  }

  lemma PermRange(p: seq<int>, n: int)
    requires IsPerm(p, n)
    ensures forall x :: 0 <= x < |p| ==> 0 <= p[x] < n
  {
  }

  lemma GivenDistinct(p: seq<int>, l: seq<int>, a: int, up: bool, n: int)
    requires IsPerm(p, n) && forall x :: 0 <= x < |l| ==> var z := if up then a + x else a - x; 0 <= z < |p| && l[x] == p[z]
    ensures InRange(l, n) && Distinct(l)
  {
    forall x, y | 0 <= x < y < |l| ensures l[x] != l[y] {
      var lx, ly := l[x], l[y];
      var u, v := if up then a + x else a - x, if up then a + y else a - y;
      assert lx == p[u] && ly == p[v];
    }
  }

  /** Entry x of the given part of the list. */
  lemma GivenAt(s: seq<int>, p: seq<int>, st: seq<int>, ss: int, up: bool, x: int)
    requires Bucketed(s, p, st) && 0 <= ss < 256 && Size(st, ss, ss) >= 0 && 0 <= x < |List(p, st, ss, up, 0)|
    ensures var a, l := From(st, ss, up), List(p, st, ss, up, 0);
            var z := if up then a + x else a - x;
            0 <= z < |p| && l[x] == p[z] && 0 <= p[z] < |s| && s[p[z]] == ss && s[Succ(s, p[z])] != ss && Side(s, p[z], ss, up)
  {
    Disjoint(st, |s|, ss, ss, ss);
    var lo, hi := Start(st, ss, 0), Start(st, ss, 256);
    assert up ==> From(st, ss, up) + x < Start(st, ss, ss);
    assert !up ==> Start(st, ss, ss + 1) <= From(st, ss, up) - x;
    if up { GivenSide(s, p, st, ss, true, lo + x); } else { GivenSide(s, p, st, ss, false, hi - 1 - x); }
  }

  /** A place of the big bucket ss below or above [ss, ss]. */
  lemma GivenSide(s: seq<int>, p: seq<int>, st: seq<int>, ss: int, up: bool, z: int)
    requires Bucketed(s, p, st) && 0 <= ss < 256 && 0 <= z < |p|
    requires if up then Start(st, ss, 0) <= z < Start(st, ss, ss) else Start(st, ss, ss + 1) <= z < Start(st, ss, 256)
    ensures 0 <= p[z] < |s| && s[p[z]] == ss && s[Succ(s, p[z])] != ss && Side(s, p[z], ss, up)
  {
    assert Home(s, st, p[z], z);
    if up { HomeKey(s, st, p[z], z, ss * 256, ss * 256 + ss); } else { HomeKey(s, st, p[z], z, ss * 256 + ss + 1, ss * 256 + 256); }
    var i := p[z];
    assert 0 <= i < |s| && 0 <= s[i] < 256 && 0 <= s[Succ(s, i)] < 256;
    hide Bucketed, Starts, Letters;
    OneRun(s, i, ss, up);
  }

  lemma OneRun(s: seq<int>, i: int, ss: int, up: bool)
    requires 0 <= i < |s| && s[i] == ss && if up then s[Succ(s, i)] < ss else s[Succ(s, i)] > ss
    ensures Side(s, i, ss, up)
  {
    ChSucc(s, i, 0);
    assert Ch(s, i, 1) == s[Succ(s, i)];
    hide Ch, Succ;
    assert Run(s, i, ss, up, 1);
  }

  /** The state before the first step, for both cursors. */
  lemma ScanStart(s: seq<int>, p: seq<int>, st: seq<int>, done: seq<bool>, ss: int, f: seq<int>)
    requires Bucketed(s, p, st) && 0 <= ss < 256 && forall b :: 0 <= b < 256 && b != ss ==> SmallSorted(s, p, st, ss, b)
    requires |done| == 256 && !done[ss] && |f| == 256 && forall c :: 0 <= c < 256 ==> f[c] == 0
    ensures Setting(s, st, done, ss) && Scan(s, p, st, done, ss, true, f, 0) && Scan(s, p, st, done, ss, false, f, 0)
  {
    forall c | 0 <= c < 256 ensures |Pairs(s, c, ss)| == Size(st, c, ss) { PairsFill(s, p, st, c, ss); }
    GivenGood(s, p, st, ss, true);
    GivenGood(s, p, st, ss, false);
    hide Good, Listed, Pairs, Bucketed, Starts;
    var l, r := List(p, st, ss, true, 0), List(p, st, ss, false, 0);
    assert l[..0] == [] && r[..0] == [];
  }

  /** A place keeps its rotation unless a cursor has filled it. */
  ghost predicate Kept(s: seq<int>, was: seq<int>, p: seq<int>, st: seq<int>, done: seq<bool>, ss: int, f: seq<int>, g: seq<int>)
    requires Letters(s) && |was| == |p| == |s| && InRange(was, |s|) && |st| == 65537 && |done| == 256 && |f| == 256 && |g| == 256 && 0 <= ss < 256
  {
    forall x :: 0 <= x < |p| ==> p[x] == was[x] || Taken(s, was[x], st, done, ss, f, g, x)
  }

  /** The place x of rotation i has been filled. */
  ghost predicate Taken(s: seq<int>, i: int, st: seq<int>, done: seq<bool>, ss: int, f: seq<int>, g: seq<int>, x: int)
    requires Letters(s) && 0 <= i < |s| && |st| == 65537 && |done| == 256 && |f| == 256 && |g| == 256 && 0 <= ss < 256
  {
    var c := s[i]; s[Succ(s, i)] == ss && !done[c] && (x < Start(st, c, ss) + f[c] || Start(st, c, ss + 1) - g[c] <= x)
  }

  lemma KeptStep(s: seq<int>, was: seq<int>, p: seq<int>, st: seq<int>, done: seq<bool>, ss: int, f: seq<int>, g: seq<int>, up: bool, c: int, x: int, k: int)
    requires Bucketed(s, was, st) && |p| == |s| && |done| == 256 && |f| == 256 && |g| == 256 && 0 <= ss < 256 && Kept(s, was, p, st, done, ss, f, g)
    requires 0 <= c < 256 && !done[c] && 0 <= f[c] && 0 <= g[c] && f[c] + g[c] < Size(st, c, ss) && x == Place(st, c, ss, up, if up then f[c] else g[c])
    ensures 0 <= x < |p|
    ensures up ==> Kept(s, was, p[x := k], st, done, ss, f[c := f[c] + 1], g)
    ensures !up ==> Kept(s, was, p[x := k], st, done, ss, f, g[c := g[c] + 1])
  {
    var f', g' := if up then f[c := f[c] + 1] else f, if up then g else g[c := g[c] + 1];
    WrittenTaken(s, was, st, done, ss, f', g', up, c, x);
    hide Bucketed, Starts, Letters, Taken, Place, Size, Start;
    forall y | 0 <= y < |p| ensures p[x := k][y] == was[y] || Taken(s, was[y], st, done, ss, f', g', y) {
      if y != x && p[y] != was[y] { TakenGrows(s, was[y], st, done, ss, f, g, f', g', y); }
    }
  }

  lemma TakenGrows(s: seq<int>, i: int, st: seq<int>, done: seq<bool>, ss: int, f: seq<int>, g: seq<int>, f': seq<int>, g': seq<int>, x: int)
    requires Letters(s) && 0 <= i < |s| && |st| == 65537 && |done| == 256 && |f| == |g| == |f'| == |g'| == 256 && 0 <= ss < 256
    requires Taken(s, i, st, done, ss, f, g, x) && forall c :: 0 <= c < 256 ==> f[c] <= f'[c] && g[c] <= g'[c]
    ensures Taken(s, i, st, done, ss, f', g', x)
  {
    hide Succ, Start;
  }

  /** The place just written is a place of the bucket it belongs to, and now counted as filled. */
  lemma WrittenTaken(s: seq<int>, was: seq<int>, st: seq<int>, done: seq<bool>, ss: int, f: seq<int>, g: seq<int>, up: bool, c: int, x: int)
    requires Bucketed(s, was, st) && |done| == 256 && |f| == 256 && |g| == 256 && 0 <= ss < 256 && 0 <= c < 256 && !done[c]
    requires 0 <= f[c] && 0 <= g[c] && f[c] + g[c] <= Size(st, c, ss) && (if up then f[c] > 0 else g[c] > 0)
    requires x == Place(st, c, ss, up, (if up then f[c] else g[c]) - 1)
    ensures Letters(s) && 0 <= x < |s| == |was| && 0 <= was[x] < |s| && Taken(s, was[x], st, done, ss, f, g, x)
  {
    Disjoint(st, |s|, c, ss, ss);
    assert Home(s, st, was[x], x);
    HomeKey(s, st, was[x], x, c * 256 + ss, c * 256 + ss + 1);
    KeySplit(s, was[x], c, ss);
    hide Bucketed, Succ, Starts;
  }

  lemma KeySplit(s: seq<int>, i: int, c: int, ss: int)
    requires Letters(s) && 0 <= i < |s| && 0 <= ss < 256 && Key(s, i) == c * 256 + ss
    ensures s[i] == c && s[Succ(s, i)] == ss
  {
  }

  // ---- after the scan ----

  /** A cursor that has come to the end of its list has read every rotation of its side. */
  lemma {:induction false} ReadAll(s: seq<int>, was: seq<int>, p: seq<int>, st: seq<int>, done: seq<bool>, ss: int, f: seq<int>, g: seq<int>, up: bool, e: seq<int>, i: int, m: nat)
    requires Bucketed(s, was, st) && |p| == |s| && Setting(s, st, done, ss) && |f| == 256 && |g| == 256 && Kept(s, was, p, st, done, ss, f, g)
    requires e == (if up then f else g) && Filled(st, done, ss, e) && Scan(s, p, st, done, ss, up, e, |List(p, st, ss, up, e[ss])|) && Run(s, i, ss, up, m)
    ensures i in List(p, st, ss, up, e[ss])
    decreases m
  {
    var l := List(p, st, ss, up, e[ss]);
    ListTail(p, st, ss, up, e[ss]);
    GoodRange(s, l, Given(st, ss, up), ss, up, |l|);
    ChSucc(s, i, 0);
    assert Ch(s, i, 0) == ss;
    if m == 1 {
      assert Ch(s, i, 1) == s[Succ(s, i)];
      GivenIn(s, was, p, st, done, ss, f, g, up, e[ss], i);
    } else {
      RunShrinks(s, i, ss, up, m);
      ReadAll(s, was, p, st, done, ss, f, g, up, e, Succ(s, i), m - 1);
      assert Ch(s, i, 1) == ss;
      assert l[..|l|] == l;
      hide List, Scan, Kept, Bucketed, Good, Run, Given, Ch;
      PredsHas(s, l, ss, i);
      InTail(l, Given(st, ss, up), i);
    }
  }

  lemma InTail(l: seq<int>, k: int, i: int)
    requires 0 <= k <= |l| && i in l[k..]
    ensures i in l
  {
  }

  lemma GivenIn(s: seq<int>, was: seq<int>, p: seq<int>, st: seq<int>, done: seq<bool>, ss: int, f: seq<int>, g: seq<int>, up: bool, m: int, i: int)
    requires Bucketed(s, was, st) && |p| == |s| && 0 <= ss < 256 && |done| == 256 && |f| == 256 && |g| == 256 && Kept(s, was, p, st, done, ss, f, g)
    requires 0 <= m <= Size(st, ss, ss) && 0 <= i < |s| && s[i] == ss && if up then s[Succ(s, i)] < ss else s[Succ(s, i)] > ss
    ensures i in List(p, st, ss, up, m)
  {
    hide *;
    var x := PlaceOf(s, was, st, i);
    GivenRange(st, |s|, ss, s[Succ(s, i)], x, up);
    NotTaken(s, was, p, st, done, ss, f, g, x);
    ListHas(p, st, ss, up, m, x);
  }

  lemma PlaceOf(s: seq<int>, was: seq<int>, st: seq<int>, i: int) returns (x: int)
    requires Bucketed(s, was, st) && 0 <= i < |s|
    ensures Letters(s) && Starts(st, |s|) && |st| == 65537 && InRange(was, |s|) && 0 <= x < |s| == |was| && was[x] == i && 0 <= s[i] < 256 && 0 <= s[Succ(s, i)] < 256
    ensures st[s[i] * 256 + s[Succ(s, i)]] <= x < st[s[i] * 256 + s[Succ(s, i)] + 1]
  {
    PermOnto(was, |s|, i);
    x :| 0 <= x < |was| && was[x] == i;
    assert Home(s, st, was[x], x);
    hide Succ;
  }

  lemma GivenRange(st: seq<int>, n: int, ss: int, b: int, x: int, up: bool)
    requires Starts(st, n) && |st| == 65537 && 0 <= ss < 256 && 0 <= b < 256 && st[ss * 256 + b] <= x < st[ss * 256 + b + 1]
    requires if up then b < ss else b > ss
    ensures if up then Start(st, ss, 0) <= x < Start(st, ss, ss) else Start(st, ss, ss + 1) <= x < Start(st, ss, 256)
  {
    if up {
      assert st[ss * 256] <= st[ss * 256 + b] && st[ss * 256 + b + 1] <= st[ss * 256 + ss];
    } else {
      assert st[ss * 256 + ss + 1] <= st[ss * 256 + b] && st[ss * 256 + b + 1] <= st[ss * 256 + 256];
    }
  }

  lemma NotTaken(s: seq<int>, was: seq<int>, p: seq<int>, st: seq<int>, done: seq<bool>, ss: int, f: seq<int>, g: seq<int>, x: int)
    requires Letters(s) && |was| == |p| == |s| && InRange(was, |s|) && |st| == 65537 && |done| == 256 && |f| == 256 && |g| == 256 && 0 <= ss < 256
    requires Kept(s, was, p, st, done, ss, f, g) && 0 <= x < |p| && 0 <= was[x] < |s| && s[Succ(s, was[x])] != ss
    ensures p[x] == was[x]
  {
    hide Succ, Start;
  }

  /** The given places are in the list. */
  lemma ListHas(p: seq<int>, st: seq<int>, ss: int, up: bool, m: int, x: int)
    requires |st| == 65537 && 0 <= ss < 256 && Starts(st, |p|) && 0 <= m <= Size(st, ss, ss) && 0 <= x < |p|
    requires if up then Start(st, ss, 0) <= x < Start(st, ss, ss) else Start(st, ss, ss + 1) <= x < Start(st, ss, 256)
    ensures p[x] in List(p, st, ss, up, m)
  {
    var k := if up then x - Start(st, ss, 0) else Start(st, ss, 256) - 1 - x;
    ListAt(p, st, ss, up, m, k);
    hide List, Start;
    assert List(p, st, ss, up, m)[k] == p[x];
  }

  /** With both lists read to the end, the buckets of big buckets not done are full. */
  lemma Full(s: seq<int>, l: seq<int>, r: seq<int>, c: int, ss: int)
    requires Listed(s, l, true) && Listed(s, r, false) && !AllAre(s, ss)
    requires (forall x :: 0 <= x < |l| ==> Side(s, l[x], ss, true)) && forall x :: 0 <= x < |r| ==> Side(s, r[x], ss, false)
    requires forall i :: (Side(s, i, ss, true) ==> i in l) && (Side(s, i, ss, false) ==> i in r)
    ensures |Preds(s, l, c)| + |Preds(s, r, c)| == |Pairs(s, c, ss)|
  {
    var q := Preds(s, l, c) + Preds(s, r, c);
    BothSides(s, l, r, c, ss);
    ListInSet(q, Pairs(s, c, ss));
    hide Preds, Side, Succ, Listed;
    forall i | i in Pairs(s, c, ss) ensures i in q {
      LowOrHigh(s, Succ(s, i), ss);
      if Side(s, Succ(s, i), ss, true) { PredsHas(s, l, c, i); } else { PredsHas(s, r, c, i); }
    }
    SetInList(q, Pairs(s, c, ss));
  }

  /** In a block of one letter there is nothing to read and nothing is written. */
  lemma NothingRead(s: seq<int>, l: seq<int>, ss: int, up: bool)
    requires forall x :: 0 <= x < |l| ==> Side(s, l[x], ss, up)
    ensures l == [] || !AllAre(s, ss)
  {
    if l != [] {
      var m: nat :| Run(s, l[0], ss, up, m);
      assert s[(l[0] + m) % |s|] != ss;
    }
  }

  lemma OneLetterEqual(s: seq<int>, c: int, i: int, j: int)
    requires AllAre(s, c) && 0 <= i < |s| && 0 <= j < |s|
    ensures Cmp(s, i, j, |s|) == 0
  {
    CmpIsLexicographic(s, i, j, |s|);
  }

  /** A full bucket, place by place: predecessors of low rotations from below, of high ones from above. */
  ghost predicate FullBucket(s: seq<int>, p: seq<int>, st: seq<int>, c: int, ss: int, l: seq<int>, r: seq<int>)
    requires Letters(s) && Starts(st, |s|) && |p| == |s| && 0 <= c < 256 && 0 <= ss < 256 && InRange(l, |s|) && InRange(r, |s|)
  {
    var a, b, lo, hi := Preds(s, l, c), Preds(s, r, c), Start(st, c, ss), Start(st, c, ss + 1);
    0 <= lo <= hi <= |p| && |a| + |b| == hi - lo && forall x :: lo <= x < hi ==> p[x] == if x - lo < |a| then a[x - lo] else b[hi - 1 - x]
  }

  lemma BucketSizes(s: seq<int>, st: seq<int>, done: seq<bool>, ss: int, f: seq<int>, g: seq<int>, c: int)
    requires Setting(s, st, done, ss) && Filled(st, done, ss, f) && Filled(st, done, ss, g) && 0 <= c < 256
    ensures |st| == 65537 && 0 <= ss < 256 && |Pairs(s, c, ss)| == Size(st, c, ss) && Letters(s) && Starts(st, |s|) && |f| == |g| == 256
    ensures 0 <= f[c] <= Size(st, c, ss) && 0 <= g[c] <= Size(st, c, ss) && 0 <= Start(st, c, ss) <= Start(st, c, ss + 1) <= |s|
  {
    Disjoint(st, |s|, c, ss, ss);
  }

  lemma BucketFull(s: seq<int>, p: seq<int>, st: seq<int>, done: seq<bool>, ss: int, f: seq<int>, g: seq<int>, c: int, l: seq<int>, r: seq<int>)
    requires Setting(s, st, done, ss) && |p| == |s| && Filled(st, done, ss, f) && Filled(st, done, ss, g) && InRange(l, |s|) && InRange(r, |s|)
    requires 0 <= c < 256 && Bucket(p, st, c, ss, true, f[c]) == Preds(s, l, c) && Bucket(p, st, c, ss, false, g[c]) == Preds(s, r, c)
    requires |Preds(s, l, c)| + |Preds(s, r, c)| == |Pairs(s, c, ss)|
    ensures f[c] + g[c] == Size(st, c, ss) && FullBucket(s, p, st, c, ss, l, r)
  {
    hide *;
    BucketSizes(s, st, done, ss, f, g, c);
    FullJoin(s, p, st, c, ss, f[c], g[c], l, r);
  }

  lemma FullJoin(s: seq<int>, p: seq<int>, st: seq<int>, c: int, ss: int, m: int, n: int, l: seq<int>, r: seq<int>)
    requires Letters(s) && Starts(st, |s|) && |p| == |s| && 0 <= c < 256 && 0 <= ss < 256 && InRange(l, |s|) && InRange(r, |s|)
    requires 0 <= m <= Size(st, c, ss) && 0 <= n <= Size(st, c, ss)
    requires Bucket(p, st, c, ss, true, m) == Preds(s, l, c) && Bucket(p, st, c, ss, false, n) == Preds(s, r, c)
    requires |Preds(s, l, c)| + |Preds(s, r, c)| == Size(st, c, ss) && 0 <= Start(st, c, ss) <= Start(st, c, ss + 1) <= |s|
    ensures m + n == Size(st, c, ss) && FullBucket(s, p, st, c, ss, l, r)
  {
    hide *;
    StartsLength(st, |s|);
    BucketLength(p, st, c, ss, true, m);
    BucketLength(p, st, c, ss, false, n);
    FromBelow(p, st, c, ss, m, Preds(s, l, c));
    FromAbove(p, st, c, ss, n, Preds(s, r, c));
    FullBucketJoin(s, p, st, c, ss, l, r);
  }

  lemma FromBelow(p: seq<int>, st: seq<int>, c: int, ss: int, m: int, a: seq<int>)
    requires |st| == 65537 && 0 <= ss < 256 && 0 <= c < 256 && Starts(st, |p|) && 0 <= m <= Size(st, c, ss) && |a| == m
    requires Bucket(p, st, c, ss, true, m) == a && 0 <= Start(st, c, ss) && Start(st, c, ss) + m <= |p|
    ensures forall x :: Start(st, c, ss) <= x < Start(st, c, ss) + m ==> p[x] == a[x - Start(st, c, ss)]
  {
    hide *;
    forall x | Start(st, c, ss) <= x < Start(st, c, ss) + m ensures p[x] == a[x - Start(st, c, ss)] {
      BucketAt(p, st, c, ss, true, m, x - Start(st, c, ss));
    }
  }

  lemma FromAbove(p: seq<int>, st: seq<int>, c: int, ss: int, n: int, b: seq<int>)
    requires |st| == 65537 && 0 <= ss < 256 && 0 <= c < 256 && Starts(st, |p|) && 0 <= n <= Size(st, c, ss) && |b| == n
    requires Bucket(p, st, c, ss, false, n) == b && 0 <= Start(st, c, ss + 1) - n && Start(st, c, ss + 1) <= |p|
    ensures forall x :: Start(st, c, ss + 1) - n <= x < Start(st, c, ss + 1) ==> p[x] == b[Start(st, c, ss + 1) - 1 - x]
  {
    hide *;
    forall x | Start(st, c, ss + 1) - n <= x < Start(st, c, ss + 1) ensures p[x] == b[Start(st, c, ss + 1) - 1 - x] {
      BucketAt(p, st, c, ss, false, n, Start(st, c, ss + 1) - 1 - x);
    }
  }

  lemma BucketLength(p: seq<int>, st: seq<int>, c: int, ss: int, up: bool, m: int)
    requires |st| == 65537 && 0 <= ss < 256 && 0 <= c < 256 && Starts(st, |p|) && 0 <= m <= Size(st, c, ss)
    ensures |Bucket(p, st, c, ss, up, m)| == m && Size(st, c, ss) == Start(st, c, ss + 1) - Start(st, c, ss)
  {
  }

  lemma FullBucketJoin(s: seq<int>, p: seq<int>, st: seq<int>, c: int, ss: int, l: seq<int>, r: seq<int>)
    requires Letters(s) && Starts(st, |s|) && |p| == |s| && 0 <= c < 256 && 0 <= ss < 256 && InRange(l, |s|) && InRange(r, |s|)
    requires 0 <= Start(st, c, ss) <= Start(st, c, ss + 1) <= |p|
    requires |Preds(s, l, c)| + |Preds(s, r, c)| == Start(st, c, ss + 1) - Start(st, c, ss)
    requires var a, lo := Preds(s, l, c), Start(st, c, ss); forall x :: lo <= x < lo + |a| ==> p[x] == a[x - lo]
    requires var b, hi := Preds(s, r, c), Start(st, c, ss + 1); forall x :: hi - |b| <= x < hi ==> p[x] == b[hi - 1 - x]
    ensures FullBucket(s, p, st, c, ss, l, r)
  {
    hide Preds, Start, Letters, Starts, InRange;
  }

  lemma BucketAt(p: seq<int>, st: seq<int>, c: int, ss: int, up: bool, m: int, k: int)
    requires |st| == 65537 && 0 <= c < 256 && 0 <= ss < 256 && Starts(st, |p|) && 0 <= k < m <= Size(st, c, ss)
    ensures var x := if up then Start(st, c, ss) + k else Start(st, c, ss + 1) - 1 - k; 0 <= x < |p| && Bucket(p, st, c, ss, up, m)[k] == p[x]
  {
    Disjoint(st, |p|, c, ss, ss);
  }

  /** What a full bucket holds: rotations of its own, each once, in order. */
  lemma FullBucketSorted(s: seq<int>, p: seq<int>, st: seq<int>, c: int, ss: int, l: seq<int>, r: seq<int>)
    requires Letters(s) && Starts(st, |s|) && |p| == |s| && 0 <= c < 256 && 0 <= ss < 256 && Listed(s, l, true) && Listed(s, r, false)
    requires (forall x :: 0 <= x < |l| ==> Side(s, l[x], ss, true)) && forall x :: 0 <= x < |r| ==> Side(s, r[x], ss, false)
    requires FullBucket(s, p, st, c, ss, l, r)
    ensures forall x :: Start(st, c, ss) <= x < Start(st, c, ss + 1) ==> 0 <= x < |p| && p[x] in Pairs(s, c, ss)
    ensures forall x, y :: Start(st, c, ss) <= x < y < Start(st, c, ss + 1) ==> p[x] != p[y] && Before(s, p[x], p[y], true)
  {
    var a, b, lo, hi := Preds(s, l, c), Preds(s, r, c), Start(st, c, ss), Start(st, c, ss + 1);
    var q := a + b;
    BothSides(s, l, r, c, ss);
    PredsListed(s, l, c, true);
    PredsListed(s, r, c, false);
    hide Preds, Side, Succ, Listed, Letters, Cmp;
    forall x | lo <= x < hi ensures p[x] in Pairs(s, c, ss) {
      assert p[x] == q[if x - lo < |a| then x - lo else |a| + (hi - 1 - x)];
    }
    forall x, y | lo <= x < y < hi ensures p[x] != p[y] && Before(s, p[x], p[y], true) {
      var u, v := if x - lo < |a| then x - lo else |a| + (hi - 1 - x), if y - lo < |a| then y - lo else |a| + (hi - 1 - y);
      assert p[x] == q[u] && p[y] == q[v] && u != v;
      if y - lo < |a| {
        ListedBefore(s, a, true, u, v);
      } else if x - lo < |a| {
        AcrossSides(s, l, r, c, ss, u, hi - 1 - y);
      } else {
        ListedBefore(s, b, false, hi - 1 - y, hi - 1 - x);
      }
    }
  }

  lemma ListedBefore(s: seq<int>, q: seq<int>, up: bool, x: int, y: int)
    requires Listed(s, q, up) && 0 <= x <= y < |q|
    ensures Before(s, q[x], q[y], up)
  {
  }

  lemma AcrossSides(s: seq<int>, l: seq<int>, r: seq<int>, c: int, ss: int, x: int, y: int)
    requires InRange(l, |s|) && InRange(r, |s|) && 0 <= x < |Preds(s, l, c)| && 0 <= y < |Preds(s, r, c)|
    requires (forall x :: 0 <= x < |l| ==> Side(s, l[x], ss, true)) && forall x :: 0 <= x < |r| ==> Side(s, r[x], ss, false)
    ensures var i, k := Preds(s, l, c)[x], Preds(s, r, c)[y]; 0 <= i < |s| && 0 <= k < |s| && Cmp(s, i, k, |s|) <= 0
  {
    var i, k := Preds(s, l, c)[x], Preds(s, r, c)[y];
    PredsFrom(s, l, c, x);
    PredsFrom(s, r, c, y);
    hide Preds, Side, Succ;
    var u :| 0 <= u < |l| && l[u] == Succ(s, i);
    var v :| 0 <= v < |r| && r[v] == Succ(s, k);
    LowBeforeHigh(s, l[u], r[v], ss);
    PredSucc(s, i);
    PredSucc(s, k);
    hide Pred, Cmp;
    PredCmp(s, l[u], r[v]);
  }

  /** The result of Step 2: still every rotation in its bucket, the buckets [c, ss] of big buckets not done in order, the others untouched. */
  ghost predicate Scanned(s: seq<int>, was: seq<int>, p: seq<int>, st: seq<int>, done: seq<bool>, ss: int)
    requires Bucketed(s, was, st) && |done| == 256 && 0 <= ss < 256
  {
    Bucketed(s, p, st) && (forall c :: 0 <= c < 256 && !done[c] ==> SmallSorted(s, p, st, c, ss))
    && forall x :: 0 <= x < |p| && (s[Succ(s, was[x])] != ss || done[s[was[x]]]) ==> p[x] == was[x]
  }

  /** The bucket [c, ss] has its own rotations, each once, in order. */
  ghost predicate BucketSorted(s: seq<int>, p: seq<int>, st: seq<int>, c: int, ss: int)
    requires Letters(s) && Starts(st, |s|) && |p| == |s| && 0 <= c < 256 && 0 <= ss < 256
  {
    (forall x :: Start(st, c, ss) <= x < Start(st, c, ss + 1) ==> 0 <= x < |p| && p[x] in Pairs(s, c, ss))
    && forall x, y :: Start(st, c, ss) <= x < y < Start(st, c, ss + 1) ==> p[x] != p[y] && Before(s, p[x], p[y], true)
  }

  lemma KeyKept(s: seq<int>, was: seq<int>, p: seq<int>, st: seq<int>, done: seq<bool>, ss: int, f: seq<int>, g: seq<int>, x: int)
    requires Bucketed(s, was, st) && |p| == |s| && 0 <= ss < 256 && |done| == 256 && |f| == 256 && |g| == 256 && Kept(s, was, p, st, done, ss, f, g)
    requires (forall c :: 0 <= c < 256 && !done[c] ==> BucketSorted(s, p, st, c, ss)) && 0 <= x < |p|
    ensures 0 <= p[x] < |s| && Key(s, p[x]) == Key(s, was[x]) && Home(s, st, p[x], x)
  {
    assert Home(s, st, was[x], x);
    var c := s[was[x]];
    if p[x] != was[x] { assert BucketSorted(s, p, st, c, ss); }
  }

  /** From sorted buckets, and places kept elsewhere, to the result. */
  lemma FromSorted(s: seq<int>, was: seq<int>, p: seq<int>, st: seq<int>, done: seq<bool>, ss: int, f: seq<int>, g: seq<int>)
    requires Bucketed(s, was, st) && |p| == |s| && 0 <= ss < 256 && |done| == 256 && |f| == 256 && |g| == 256 && Kept(s, was, p, st, done, ss, f, g)
    requires forall c :: 0 <= c < 256 && !done[c] ==> BucketSorted(s, p, st, c, ss)
    ensures Scanned(s, was, p, st, done, ss)
  {
    forall x | 0 <= x < |p| ensures 0 <= p[x] < |s| && Home(s, st, p[x], x) { KeyKept(s, was, p, st, done, ss, f, g, x); }
    forall x, y | 0 <= x < y < |p| ensures p[x] != p[y] { StaysDistinct(s, was, p, st, done, ss, f, g, x, y); }
    forall c | 0 <= c < 256 && !done[c] ensures SmallSorted(s, p, st, c, ss) {
      assert BucketSorted(s, p, st, c, ss);
      SelfEqual(s, p);
      hide Pairs, Succ, Cmp;
    }
  }

  lemma SelfEqual(s: seq<int>, p: seq<int>)
    requires s != [] && InRange(p, |s|)
    ensures forall x :: 0 <= x < |p| ==> Cmp(s, p[x], p[x], |s|) == 0
  {
    forall x | 0 <= x < |p| ensures Cmp(s, p[x], p[x], |s|) == 0 { CmpAntisymmetric(s, p[x], p[x], |s|); }
  }

  lemma StaysDistinct(s: seq<int>, was: seq<int>, p: seq<int>, st: seq<int>, done: seq<bool>, ss: int, f: seq<int>, g: seq<int>, x: int, y: int)
    requires Bucketed(s, was, st) && |p| == |s| && 0 <= ss < 256 && |done| == 256 && |f| == 256 && |g| == 256 && Kept(s, was, p, st, done, ss, f, g)
    requires (forall c :: 0 <= c < 256 && !done[c] ==> BucketSorted(s, p, st, c, ss)) && 0 <= x < y < |p|
    ensures p[x] != p[y]
  {
    KeyKept(s, was, p, st, done, ss, f, g, x);
    KeyKept(s, was, p, st, done, ss, f, g, y);
    var c := s[was[x]];
    assert Home(s, st, was[x], x) && Home(s, st, was[y], y);
    if s[Succ(s, was[x])] == ss && !done[c] { assert BucketSorted(s, p, st, c, ss); }
    hide Succ;
  }

  lemma OneLetterSorted(s: seq<int>, p: seq<int>, st: seq<int>, c: int, ss: int)
    requires Bucketed(s, p, st) && 0 <= c < 256 && 0 <= ss < 256 && AllAre(s, ss)
    ensures BucketSorted(s, p, st, c, ss)
  {
    Disjoint(st, |s|, c, ss, ss);
    forall x | Start(st, c, ss) <= x < Start(st, c, ss + 1) ensures p[x] in Pairs(s, c, ss) {
      HomeKey(s, st, p[x], x, c * 256 + ss, c * 256 + ss + 1);
    }
    forall x, y | Start(st, c, ss) <= x < y < Start(st, c, ss + 1) ensures p[x] != p[y] && Before(s, p[x], p[y], true) {
      OneLetterEqual(s, ss, p[x], p[y]);
    }
  }

  /** Both cursors at the end of their lists: they have met, unless the block is all one letter, and Step 2 has done its work. */
  lemma ScanEnd(s: seq<int>, was: seq<int>, p: seq<int>, st: seq<int>, done: seq<bool>, ss: int, f: seq<int>, g: seq<int>)
    requires Bucketed(s, was, st) && |p| == |s| && Setting(s, st, done, ss) && Filled(st, done, ss, f) && Filled(st, done, ss, g)
    requires Kept(s, was, p, st, done, ss, f, g)
    requires Scan(s, p, st, done, ss, true, f, |List(p, st, ss, true, f[ss])|) && Scan(s, p, st, done, ss, false, g, |List(p, st, ss, false, g[ss])|)
    ensures Scanned(s, was, p, st, done, ss)
    ensures f[ss] + g[ss] == Size(st, ss, ss) || (AllAre(s, ss) && f[ss] == g[ss] == 0)
    ensures AllAre(s, ss) ==> p == was
  {
    var l, r := List(p, st, ss, true, f[ss]), List(p, st, ss, false, g[ss]);
    assert l[..|l|] == l && r[..|r|] == r;
    GoodPrefix(s, l, Given(st, ss, true), ss, true, |l|);
    GoodPrefix(s, r, Given(st, ss, false), ss, false, |r|);
    NothingRead(s, l, ss, true);
    NothingRead(s, r, ss, false);
    if AllAre(s, ss) {
      NoneFilled(s, was, p, st, done, ss, f, g);
      forall c | 0 <= c < 256 && !done[c] ensures BucketSorted(s, p, st, c, ss) { OneLetterSorted(s, p, st, c, ss); }
    } else {
      forall i, up: bool | Side(s, i, ss, up) ensures i in if up then l else r {
        var m: nat :| Run(s, i, ss, up, m);
        ReadAll(s, was, p, st, done, ss, f, g, up, if up then f else g, i, m);
      }
      forall c | 0 <= c < 256 && !done[c] ensures BucketSorted(s, p, st, c, ss) && f[c] + g[c] == Size(st, c, ss) {
        Full(s, l, r, c, ss);
        BucketFull(s, p, st, done, ss, f, g, c, l, r);
        FullBucketSorted(s, p, st, c, ss, l, r);
      }
    }
    FromSorted(s, was, p, st, done, ss, f, g);
  }

  lemma NoneFilled(s: seq<int>, was: seq<int>, p: seq<int>, st: seq<int>, done: seq<bool>, ss: int, f: seq<int>, g: seq<int>)
    requires Bucketed(s, was, st) && |p| == |s| && Setting(s, st, done, ss) && Filled(st, done, ss, f) && Filled(st, done, ss, g)
    requires Kept(s, was, p, st, done, ss, f, g)
    requires Scan(s, p, st, done, ss, true, f, |List(p, st, ss, true, f[ss])|) && Scan(s, p, st, done, ss, false, g, |List(p, st, ss, false, g[ss])|)
    requires List(p, st, ss, true, f[ss]) == [] == List(p, st, ss, false, g[ss])
    ensures p == was && f[ss] == g[ss] == 0
  {
  }

  // ---- the scan itself ----

  /** Both cursors under way: f and g say how much each has filled, j and h how much each has read. */
  ghost predicate Both(s: seq<int>, was: seq<int>, p: seq<int>, st: seq<int>, done: seq<bool>, ss: int, f: seq<int>, j: int, g: seq<int>, h: int) {
    Bucketed(s, was, st) && |p| == |s| && Setting(s, st, done, ss) && Filled(st, done, ss, f) && Filled(st, done, ss, g)
    && Kept(s, was, p, st, done, ss, f, g) && Scan(s, p, st, done, ss, true, f, j) && Scan(s, p, st, done, ss, false, g, h)
  }

  lemma BothParts(s: seq<int>, was: seq<int>, p: seq<int>, st: seq<int>, done: seq<bool>, ss: int, f: seq<int>, j: int, g: seq<int>, h: int)
    requires Both(s, was, p, st, done, ss, f, j, g, h)
    ensures Bucketed(s, was, st) && Letters(s) && Starts(st, |s|) && |st| == 65537 && |was| == |p| == |s| && InRange(was, |s|)
    ensures Setting(s, st, done, ss) && |done| == 256 && 0 <= ss < 256 && Filled(st, done, ss, f) && Filled(st, done, ss, g) && |f| == |g| == 256
    ensures Kept(s, was, p, st, done, ss, f, g) && Scan(s, p, st, done, ss, true, f, j) && Scan(s, p, st, done, ss, false, g, h)
    ensures forall c :: 0 <= c < 256 ==> 0 <= f[c] && 0 <= g[c]
  {
  }

  lemma BothJoin(s: seq<int>, was: seq<int>, p: seq<int>, st: seq<int>, done: seq<bool>, ss: int, f: seq<int>, j: int, g: seq<int>, h: int)
    requires Bucketed(s, was, st) && |p| == |s| && Setting(s, st, done, ss) && |f| == 256 && |g| == 256 && Kept(s, was, p, st, done, ss, f, g)
    requires Scan(s, p, st, done, ss, true, f, j) && Scan(s, p, st, done, ss, false, g, h)
    ensures Both(s, was, p, st, done, ss, f, j, g, h)
  {
    hide Kept, Bucketed, Holds, Good, Letters, Starts, List;
  }

  /** What the low cursor reads next. */
  lemma NextUp(s: seq<int>, was: seq<int>, p: seq<int>, st: seq<int>, done: seq<bool>, ss: int, f: seq<int>, j: int, g: seq<int>, h: int)
    requires Both(s, was, p, st, done, ss, f, j, g, h)
    ensures var l := List(p, st, ss, true, f[ss]); |l| == Start(st, ss, ss) + f[ss] - Start(st, ss, 0)
    ensures var l, x := List(p, st, ss, true, f[ss]), Start(st, ss, 0) + j; j < |l| ==> 0 <= x < |p| && l[j] == p[x] && 0 <= p[x] < |s| && 0 <= s[Pred(s, p[x])] < 256
  {
    hide *;
    BothParts(s, was, p, st, done, ss, f, j, g, h);
    NotDoneItself(s, st, done, ss);
    ScanRead(s, p, st, done, ss, true, f, j, ss);
    ListAt(p, st, ss, true, f[ss], j);
    var l := List(p, st, ss, true, f[ss]);
    if j < |l| { PredLetter(s, l, j); }
  }

  lemma NextDown(s: seq<int>, was: seq<int>, p: seq<int>, st: seq<int>, done: seq<bool>, ss: int, f: seq<int>, j: int, g: seq<int>, h: int)
    requires Both(s, was, p, st, done, ss, f, j, g, h)
    ensures var r := List(p, st, ss, false, g[ss]); |r| == Start(st, ss, 256) - Start(st, ss, ss + 1) + g[ss]
    ensures var r, x := List(p, st, ss, false, g[ss]), Start(st, ss, 256) - 1 - h; h < |r| ==> 0 <= x < |p| && r[h] == p[x] && 0 <= p[x] < |s| && 0 <= s[Pred(s, p[x])] < 256
  {
    hide *;
    BothParts(s, was, p, st, done, ss, f, j, g, h);
    NotDoneItself(s, st, done, ss);
    ScanRead(s, p, st, done, ss, false, g, h, ss);
    ListAt(p, st, ss, false, g[ss], h);
    var r := List(p, st, ss, false, g[ss]);
    if h < |r| { PredLetter(s, r, h); }
  }

  lemma NotDoneItself(s: seq<int>, st: seq<int>, done: seq<bool>, ss: int)
    requires Setting(s, st, done, ss)
    ensures Letters(s) && |done| == 256 && 0 <= ss < 256 && !done[ss]
  {
  }

  /** Entry k of a list is read at a place of ptr. */
  lemma ListAt(p: seq<int>, st: seq<int>, ss: int, up: bool, m: int, k: int)
    requires |st| == 65537 && 0 <= ss < 256 && Starts(st, |p|) && 0 <= m <= Size(st, ss, ss) && 0 <= k
    ensures var l := List(p, st, ss, up, m);
            |l| == if up then Start(st, ss, ss) + m - Start(st, ss, 0) else Start(st, ss, 256) - Start(st, ss, ss + 1) + m
    ensures var l, x := List(p, st, ss, up, m), if up then Start(st, ss, 0) + k else Start(st, ss, 256) - 1 - k; k < |l| ==> 0 <= x < |p| && l[k] == p[x]
  {
    Disjoint(st, |p|, ss, ss, ss);
  }

  lemma PredLetter(s: seq<int>, l: seq<int>, k: int)
    requires Letters(s) && InRange(l, |s|) && 0 <= k < |l|
    ensures 0 <= l[k] < |s| && 0 <= s[Pred(s, l[k])] < 256
  {
  }

  lemma PlaceIs(st: seq<int>, c: int, ss: int, up: bool, m: int)
    requires |st| == 65537 && 0 <= ss < 256 && 0 <= c < 256
    ensures Place(st, c, ss, up, m) == if up then Start(st, c, ss) + m else Start(st, c, ss + 1) - 1 - m
  {
  }

  lemma WriteUp(s: seq<int>, was: seq<int>, p: seq<int>, st: seq<int>, done: seq<bool>, ss: int, f: seq<int>, j: int, g: seq<int>, h: int, k: int, c: int)
    requires Both(s, was, p, st, done, ss, f, j, g, h) && j < |List(p, st, ss, true, f[ss])|
    requires var i := List(p, st, ss, true, f[ss])[j]; 0 <= i < |s| && k == Pred(s, i) && c == s[k] && 0 <= c < 256 && !done[c]
    ensures var x := Start(st, c, ss) + f[c]; 0 <= x < |p| && Both(s, was, p[x := k], st, done, ss, f[c := f[c] + 1], j + 1, g, h)
  {
    hide *;
    BothParts(s, was, p, st, done, ss, f, j, g, h);
    var x := Start(st, c, ss) + f[c];
    PlaceIs(st, c, ss, true, f[c]);
    Room(s, p, st, done, ss, f, j, g, h, c, true);
    ScanWrite(s, p, st, done, ss, true, f, j, x, k, c);
    ScanOther(s, p, st, done, ss, false, g, h, x, k, c, f[c]);
    KeptStep(s, was, p, st, done, ss, f, g, true, c, x, k);
    BothJoin(s, was, p[x := k], st, done, ss, f[c := f[c] + 1], j + 1, g, h);
  }

  lemma WriteDown(s: seq<int>, was: seq<int>, p: seq<int>, st: seq<int>, done: seq<bool>, ss: int, f: seq<int>, j: int, g: seq<int>, h: int, k: int, c: int)
    requires Both(s, was, p, st, done, ss, f, j, g, h) && h < |List(p, st, ss, false, g[ss])|
    requires var i := List(p, st, ss, false, g[ss])[h]; 0 <= i < |s| && k == Pred(s, i) && c == s[k] && 0 <= c < 256 && !done[c]
    ensures var x := Start(st, c, ss + 1) - 1 - g[c]; 0 <= x < |p| && Both(s, was, p[x := k], st, done, ss, f, j, g[c := g[c] + 1], h + 1)
  {
    hide *;
    BothParts(s, was, p, st, done, ss, f, j, g, h);
    var x := Start(st, c, ss + 1) - 1 - g[c];
    PlaceIs(st, c, ss, false, g[c]);
    Room(s, p, st, done, ss, f, j, g, h, c, false);
    ScanWrite(s, p, st, done, ss, false, g, h, x, k, c);
    ScanOther(s, p, st, done, ss, true, f, j, x, k, c, g[c]);
    KeptStep(s, was, p, st, done, ss, f, g, false, c, x, k);
    BothJoin(s, was, p[x := k], st, done, ss, f, j, g[c := g[c] + 1], h + 1);
  }

  /** ftab holds the starts, some of them marked with SETMASK. */
  ghost predicate Marked(ft: seq<int>, st: seq<int>) {
    |ft| == |st| == 65537 && forall i :: 0 <= i < |st| ==> 0 <= st[i] < SETMASK && (ft[i] == st[i] || ft[i] == st[i] + SETMASK)
  }

  lemma StartOf(ft: seq<int>, st: seq<int>, a: int, b: int)
    requires Marked(ft, st) && 0 <= a < 256 && 0 <= b <= 256
    ensures |ft| == |st| == 65537 && ft[a * 256 + b] % SETMASK == Start(st, a, b)
  {
  }

  /** ftab[(a << 8) + b] & CLEARMASK. */
  method Unmarked(ftab: array<int>, a: int, b: int, ghost st: seq<int>) returns (x: int)
    requires Marked(ftab[..], st) && 0 <= a < 256 && 0 <= b <= 256
    ensures |st| == 65537 && x == Start(st, a, b)
  {
    StartOf(ftab[..], st, a, b);
    x := ftab[a * 256 + b] % SETMASK;
  }

  /** copyStart or copyEnd: the next places to fill. */
  ghost predicate Cursor(copy: seq<int>, st: seq<int>, ss: int, up: bool, f: seq<int>) {
    |copy| == |f| == 256 && |st| == 65537 && 0 <= ss < 256 && forall c :: 0 <= c < 256 ==> copy[c] == Place(st, c, ss, up, f[c])
  }

  lemma CursorAt(copy: seq<int>, st: seq<int>, ss: int, up: bool, f: seq<int>, c: int)
    requires Cursor(copy, st, ss, up, f) && 0 <= c < 256
    ensures |copy| == |f| == 256 && |st| == 65537 && 0 <= ss < 256
    ensures copy[c] == if up then Start(st, c, ss) + f[c] else Start(st, c, ss + 1) - 1 - f[c]
    ensures Cursor(copy[c := if up then copy[c] + 1 else copy[c] - 1], st, ss, up, f[c := f[c] + 1])
  {
  }

  lemma BothShape(s: seq<int>, was: seq<int>, p: seq<int>, st: seq<int>, done: seq<bool>, ss: int, f: seq<int>, j: int, g: seq<int>, h: int)
    requires Both(s, was, p, st, done, ss, f, j, g, h)
    ensures |st| == 65537 && Starts(st, |p|) && |s| == |p| && 0 <= ss < 256 && |done| == 256 && |f| == |g| == 256
    ensures 0 <= f[ss] <= Size(st, ss, ss) && 0 <= g[ss] <= Size(st, ss, ss) && 0 <= j && 0 <= h
    ensures j <= |List(p, st, ss, true, f[ss])| && h <= |List(p, st, ss, false, g[ss])|
  {
  }

  lemma Skip(s: seq<int>, was: seq<int>, p: seq<int>, st: seq<int>, done: seq<bool>, ss: int, f: seq<int>, j: int, g: seq<int>, h: int, up: bool)
    requires Both(s, was, p, st, done, ss, f, j, g, h)
    requires var l, n := List(p, st, ss, up, if up then f[ss] else g[ss]), if up then j else h;
             n < |l| && 0 <= l[n] < |s| && 0 <= s[Pred(s, l[n])] < 256 && done[s[Pred(s, l[n])]]
    ensures up ==> Both(s, was, p, st, done, ss, f, j + 1, g, h)
    ensures !up ==> Both(s, was, p, st, done, ss, f, j, g, h + 1)
  {
    hide Scan, Kept, Setting, List, Bucketed, Pred;
    if up { ScanSkip(s, p, st, done, ss, true, f, j); } else { ScanSkip(s, p, st, done, ss, false, g, h); }
  }

  lemma PredIs(s: seq<int>, i: int, k: int)
    requires 0 <= i < |s| && k == if i - 1 < 0 then i - 1 + |s| else i - 1
    ensures k == Pred(s, i)
  {
  }

  /** The rotation before the one at place x, and its first letter. */
  method Preceding(ptr: array<int>, block: array<int>, nblock: int, x: int, ghost s: seq<int>) returns (k: int, c1: int)
    requires nblock == |s| <= block.Length && block[..nblock] == s && 0 <= x < ptr.Length && 0 <= ptr[x] < |s|
    ensures k == Pred(s, ptr[x]) && 0 <= k < |s| && c1 == s[k]
  {
    k := ptr[x] - 1;
    if k < 0 { k := k + nblock; }
    PredIs(s, ptr[x], k);
    hide *;
    c1 := block[k];
    assert c1 == block[..nblock][k];
  }

  /** A turn of the first loop of Step 2. */
  method TurnUp(ptr: array<int>, block: array<int>, nblock: int, x: int, bigDone: array<bool>, copyStart: array<int>,
                ghost s: seq<int>, ghost was: seq<int>, ghost st: seq<int>, ghost ss: int, ghost f0: seq<int>, ghost j: int, ghost g: seq<int>)
    returns (ghost f: seq<int>)
    requires ptr != block && ptr != copyStart && copyStart != block && nblock == |s| <= block.Length && block[..nblock] == s && ptr.Length == nblock
    requires bigDone.Length == 256 && Both(s, was, ptr[..], st, bigDone[..], ss, f0, j, g, 0) && Cursor(copyStart[..], st, ss, true, f0)
    requires |st| == 65537 && 0 <= ss < 256 && copyStart.Length == 256 && x == Start(st, ss, 0) + j < copyStart[ss]
    modifies ptr, copyStart
    ensures Both(s, was, ptr[..], st, bigDone[..], ss, f, j + 1, g, 0) && Cursor(copyStart[..], st, ss, true, f)
  {
    f := f0;
    hide *;
    UpPlace(s, was, ptr[..], st, bigDone[..], ss, f, j, g, copyStart[..]);
    var k, c1 := Preceding(ptr, block, nblock, x, s);
    if !bigDone[c1] {
      f := StepUp(ptr, bigDone, copyStart, k, c1, s, was, st, ss, f, j, g);
    } else {
      Skip(s, was, ptr[..], st, bigDone[..], ss, f, j, g, 0, true);
    }
  }

  /** The entry the low cursor reads at x. */
  lemma UpPlace(s: seq<int>, was: seq<int>, p: seq<int>, st: seq<int>, done: seq<bool>, ss: int, f: seq<int>, j: int, g: seq<int>, copy: seq<int>)
    requires Both(s, was, p, st, done, ss, f, j, g, 0) && Cursor(copy, st, ss, true, f)
    requires |st| == 65537 && 0 <= ss < 256 && |copy| == 256 && Start(st, ss, 0) + j < copy[ss]
    ensures |f| == 256 && Starts(st, |p|) && |done| == 256 && 0 <= f[ss] <= Size(st, ss, ss)
    ensures var l, x := List(p, st, ss, true, f[ss]), Start(st, ss, 0) + j;
            0 <= j < |l| && 0 <= x < |p| && l[j] == p[x] && 0 <= p[x] < |s| && 0 <= s[Pred(s, p[x])] < 256
  {
    hide *;
    BothShape(s, was, p, st, done, ss, f, j, g, 0);
    NextUp(s, was, p, st, done, ss, f, j, g, 0);
    CursorAt(copy, st, ss, true, f, ss);
  }

  /** Rotation k is put at the next place of its bucket, from below. */
  method StepUp(ptr: array<int>, bigDone: array<bool>, copyStart: array<int>, k: int, c1: int,
                ghost s: seq<int>, ghost was: seq<int>, ghost st: seq<int>, ghost ss: int, ghost f0: seq<int>, ghost j: int, ghost g: seq<int>)
    returns (ghost f: seq<int>)
    requires ptr != copyStart && Both(s, was, ptr[..], st, bigDone[..], ss, f0, j, g, 0) && Cursor(copyStart[..], st, ss, true, f0)
    requires |st| == 65537 && 0 <= ss < 256 && |f0| == 256 && Starts(st, |ptr[..]|) && 0 <= f0[ss] <= Size(st, ss, ss)
    requires 0 <= j < |List(ptr[..], st, ss, true, f0[ss])| && 0 <= c1 < 256 && bigDone.Length == 256 && !bigDone[c1]
    requires var i := List(ptr[..], st, ss, true, f0[ss])[j]; 0 <= i < |s| && k == Pred(s, i) && c1 == s[k]
    modifies ptr, copyStart
    ensures Both(s, was, ptr[..], st, bigDone[..], ss, f, j + 1, g, 0) && Cursor(copyStart[..], st, ss, true, f)
  {
    hide *;
    ghost var p, copy := ptr[..], copyStart[..];
    WriteUp(s, was, p, st, bigDone[..], ss, f0, j, g, 0, k, c1);
    CursorAt(copy, st, ss, true, f0, c1);
    ptr[copyStart[c1]] := k;
    copyStart[c1] := copyStart[c1] + 1;
    f := f0[c1 := f0[c1] + 1];
    assert copyStart[..] == copy[c1 := copy[c1] + 1];
  }

  /** The first loop of Step 2. */
  method ScanUp(ptr: array<int>, block: array<int>, ftab: array<int>, nblock: int, ss: int, bigDone: array<bool>, copyStart: array<int>,
                ghost s: seq<int>, ghost was: seq<int>, ghost st: seq<int>, ghost f0: seq<int>, ghost g: seq<int>) returns (ghost f: seq<int>, ghost j: int)
    requires ptr != block && ptr != ftab && ptr != copyStart && copyStart != block && copyStart != ftab
    requires nblock == |s| <= block.Length && block[..nblock] == s && ptr.Length == nblock && bigDone.Length == 256 && Marked(ftab[..], st)
    requires Both(s, was, ptr[..], st, bigDone[..], ss, f0, 0, g, 0) && Cursor(copyStart[..], st, ss, true, f0)
    modifies ptr, copyStart
    ensures Both(s, was, ptr[..], st, bigDone[..], ss, f, j, g, 0) && |st| == 65537 && 0 <= ss < 256 && |f| == 256 && Cursor(copyStart[..], st, ss, true, f)
    ensures Starts(st, |ptr[..]|) && 0 <= f[ss] <= Size(st, ss, ss) && j == |List(ptr[..], st, ss, true, f[ss])|
  {
    f, j := f0, 0;
    BothShape(s, was, ptr[..], st, bigDone[..], ss, f, j, g, 0);
    CursorAt(copyStart[..], st, ss, true, f, ss);
    hide *;
    var x := Unmarked(ftab, ss, 0, st);
    while x < copyStart[ss]
      invariant Both(s, was, ptr[..], st, bigDone[..], ss, f, j, g, 0) && Cursor(copyStart[..], st, ss, true, f) && x == Start(st, ss, 0) + j
      decreases nblock - x
    {
      f := TurnUp(ptr, block, nblock, x, bigDone, copyStart, s, was, st, ss, f, j, g);
      x, j := x + 1, j + 1;
      BothShape(s, was, ptr[..], st, bigDone[..], ss, f, j, g, 0);
      NextUp(s, was, ptr[..], st, bigDone[..], ss, f, j, g, 0);
    }
    BothShape(s, was, ptr[..], st, bigDone[..], ss, f, j, g, 0);
    NextUp(s, was, ptr[..], st, bigDone[..], ss, f, j, g, 0);
    CursorAt(copyStart[..], st, ss, true, f, ss);
  }

  /** A turn of the second loop. */
  method TurnDown(ptr: array<int>, block: array<int>, nblock: int, x: int, bigDone: array<bool>, copyEnd: array<int>,
                  ghost s: seq<int>, ghost was: seq<int>, ghost st: seq<int>, ghost ss: int, ghost f: seq<int>, ghost j: int, ghost g0: seq<int>, ghost h: int)
    returns (ghost g: seq<int>)
    requires ptr != block && ptr != copyEnd && copyEnd != block && nblock == |s| <= block.Length && block[..nblock] == s && ptr.Length == nblock
    requires bigDone.Length == 256 && Both(s, was, ptr[..], st, bigDone[..], ss, f, j, g0, h) && Cursor(copyEnd[..], st, ss, false, g0)
    requires |st| == 65537 && 0 <= ss < 256 && copyEnd.Length == 256 && copyEnd[ss] < x == Start(st, ss, 256) - 1 - h
    requires |f| == 256 && Starts(st, nblock) && 0 <= f[ss] <= Size(st, ss, ss) && j == |List(ptr[..], st, ss, true, f[ss])|
    modifies ptr, copyEnd
    ensures Both(s, was, ptr[..], st, bigDone[..], ss, f, j, g, h + 1) && Cursor(copyEnd[..], st, ss, false, g)
    ensures j == |List(ptr[..], st, ss, true, f[ss])|
  {
    g := g0;
    hide *;
    DownPlace(s, was, ptr[..], st, bigDone[..], ss, f, j, g, h, copyEnd[..]);
    var k, c1 := Preceding(ptr, block, nblock, x, s);
    if !bigDone[c1] {
      g := StepDown(ptr, bigDone, copyEnd, k, c1, s, was, st, ss, f, j, g, h);
    } else {
      Skip(s, was, ptr[..], st, bigDone[..], ss, f, j, g, h, false);
    }
  }

  /** The entry the high cursor reads. */
  lemma DownPlace(s: seq<int>, was: seq<int>, p: seq<int>, st: seq<int>, done: seq<bool>, ss: int, f: seq<int>, j: int, g: seq<int>, h: int, copy: seq<int>)
    requires Both(s, was, p, st, done, ss, f, j, g, h) && Cursor(copy, st, ss, false, g)
    requires |st| == 65537 && 0 <= ss < 256 && |copy| == 256 && copy[ss] < Start(st, ss, 256) - 1 - h
    ensures |g| == 256 && Starts(st, |p|) && |done| == 256 && 0 <= g[ss] <= Size(st, ss, ss)
    ensures var l, x := List(p, st, ss, false, g[ss]), Start(st, ss, 256) - 1 - h;
            0 <= h < |l| && 0 <= x < |p| && l[h] == p[x] && 0 <= p[x] < |s| && 0 <= s[Pred(s, p[x])] < 256
  {
    hide *;
    BothShape(s, was, p, st, done, ss, f, j, g, h);
    NextDown(s, was, p, st, done, ss, f, j, g, h);
    CursorAt(copy, st, ss, false, g, ss);
  }

  /** How much the low cursor has to read does not depend on what the high one writes. */
  lemma UpLength(s: seq<int>, was: seq<int>, p: seq<int>, st: seq<int>, done: seq<bool>, ss: int, f: seq<int>, j: int, g: seq<int>, h: int)
    requires Both(s, was, p, st, done, ss, f, j, g, h) && |st| == 65537 && 0 <= ss < 256 && |f| == 256 && Starts(st, |p|) && 0 <= f[ss] <= Size(st, ss, ss)
    ensures |List(p, st, ss, true, f[ss])| == Start(st, ss, ss) + f[ss] - Start(st, ss, 0)
  {
    hide *;
    NextUp(s, was, p, st, done, ss, f, j, g, h);
  }

  /** Rotation k is put at the next place of its bucket, from above. */
  method StepDown(ptr: array<int>, bigDone: array<bool>, copyEnd: array<int>, k: int, c1: int,
                  ghost s: seq<int>, ghost was: seq<int>, ghost st: seq<int>, ghost ss: int, ghost f: seq<int>, ghost j: int, ghost g0: seq<int>, ghost h: int)
    returns (ghost g: seq<int>)
    requires ptr != copyEnd && Both(s, was, ptr[..], st, bigDone[..], ss, f, j, g0, h) && Cursor(copyEnd[..], st, ss, false, g0)
    requires |st| == 65537 && 0 <= ss < 256 && |g0| == 256 && Starts(st, |ptr[..]|) && 0 <= g0[ss] <= Size(st, ss, ss)
    requires 0 <= h < |List(ptr[..], st, ss, false, g0[ss])| && 0 <= c1 < 256 && bigDone.Length == 256 && !bigDone[c1]
    requires var i := List(ptr[..], st, ss, false, g0[ss])[h]; 0 <= i < |s| && k == Pred(s, i) && c1 == s[k]
    requires |f| == 256 && 0 <= f[ss] <= Size(st, ss, ss)
    modifies ptr, copyEnd
    ensures Both(s, was, ptr[..], st, bigDone[..], ss, f, j, g, h + 1) && Cursor(copyEnd[..], st, ss, false, g)
    ensures |List(ptr[..], st, ss, true, f[ss])| == old(|List(ptr[..], st, ss, true, f[ss])|)
  {
    hide *;
    ghost var p, copy := ptr[..], copyEnd[..];
    UpLength(s, was, p, st, bigDone[..], ss, f, j, g0, h);
    WriteDown(s, was, p, st, bigDone[..], ss, f, j, g0, h, k, c1);
    CursorAt(copy, st, ss, false, g0, c1);
    ptr[copyEnd[c1]] := k;
    copyEnd[c1] := copyEnd[c1] - 1;
    g := g0[c1 := g0[c1] + 1];
    assert copyEnd[..] == copy[c1 := copy[c1] - 1];
    UpLength(s, was, ptr[..], st, bigDone[..], ss, f, j, g, h + 1);
  }

  lemma DownFacts(s: seq<int>, was: seq<int>, p: seq<int>, st: seq<int>, done: seq<bool>, ss: int, f: seq<int>, j: int, g: seq<int>, h: int, copy: seq<int>)
    requires Both(s, was, p, st, done, ss, f, j, g, h) && Cursor(copy, st, ss, false, g)
    ensures |copy| == |g| == 256 && |st| == 65537 && 0 <= ss < 256 && Starts(st, |p|) && 0 <= g[ss] <= Size(st, ss, ss)
    ensures var x := Start(st, ss, 256) - 1 - h; x >= -1 && (x <= copy[ss] ==> h == |List(p, st, ss, false, g[ss])|)
  {
    BothShape(s, was, p, st, done, ss, f, j, g, h);
    NextDown(s, was, p, st, done, ss, f, j, g, h);
    CursorAt(copy, st, ss, false, g, ss);
    hide Both, List, Cursor;
    Disjoint(st, |p|, ss, ss, ss);
  }

  /** The second loop of Step 2. */
  method ScanDown(ptr: array<int>, block: array<int>, ftab: array<int>, nblock: int, ss: int, bigDone: array<bool>, copyEnd: array<int>,
                  ghost s: seq<int>, ghost was: seq<int>, ghost st: seq<int>, ghost f: seq<int>, ghost j: int, ghost g0: seq<int>) returns (ghost g: seq<int>, ghost h: int)
    requires ptr != block && ptr != ftab && ptr != copyEnd && copyEnd != block && copyEnd != ftab
    requires nblock == |s| <= block.Length && block[..nblock] == s && ptr.Length == nblock && bigDone.Length == 256 && Marked(ftab[..], st)
    requires Both(s, was, ptr[..], st, bigDone[..], ss, f, j, g0, 0) && Cursor(copyEnd[..], st, ss, false, g0)
    requires |st| == 65537 && 0 <= ss < 256 && |f| == 256 && Starts(st, nblock) && 0 <= f[ss] <= Size(st, ss, ss) && j == |List(ptr[..], st, ss, true, f[ss])|
    modifies ptr, copyEnd
    ensures Both(s, was, ptr[..], st, bigDone[..], ss, f, j, g, h) && |g| == 256 && Cursor(copyEnd[..], st, ss, false, g)
    ensures Starts(st, |ptr[..]|) && j == |List(ptr[..], st, ss, true, f[ss])|
    ensures 0 <= g[ss] <= Size(st, ss, ss) && h == |List(ptr[..], st, ss, false, g[ss])|
  {
    g, h := g0, 0;
    hide *;
    var x := Unmarked(ftab, ss, 256, st);
    x := x - 1;
    DownFacts(s, was, ptr[..], st, bigDone[..], ss, f, j, g, h, copyEnd[..]);
    while x > copyEnd[ss]
      invariant Both(s, was, ptr[..], st, bigDone[..], ss, f, j, g, h) && Cursor(copyEnd[..], st, ss, false, g) && x == Start(st, ss, 256) - 1 - h
      invariant j == |List(ptr[..], st, ss, true, f[ss])| && x >= -1 && copyEnd.Length == 256
      decreases x
    {
      g := TurnDown(ptr, block, nblock, x, bigDone, copyEnd, s, was, st, ss, f, j, g, h);
      x, h := x - 1, h + 1;
      DownFacts(s, was, ptr[..], st, bigDone[..], ss, f, j, g, h, copyEnd[..]);
    }
    DownFacts(s, was, ptr[..], st, bigDone[..], ss, f, j, g, h, copyEnd[..]);
  }

  /** copyStart and copyEnd at the start: the small buckets [j, ss]. */
  method Cursors(ftab: array<int>, ss: int, copyStart: array<int>, copyEnd: array<int>, ghost st: seq<int>) returns (ghost zeros: seq<int>)
    requires 0 <= ss < 256 && Marked(ftab[..], st) && copyStart.Length == copyEnd.Length == 256
    requires copyStart != copyEnd && copyStart != ftab && copyEnd != ftab
    modifies copyStart, copyEnd
    ensures Cursor(copyStart[..], st, ss, true, zeros) && Cursor(copyEnd[..], st, ss, false, zeros) && |zeros| == 256 && forall c :: 0 <= c < 256 ==> zeros[c] == 0
  {
    zeros := seq(256, _ => 0);
    StartOf(ftab[..], st, ss, 0);
    var j := 0;
    while j <= 255
      invariant 0 <= j <= 256 && Marked(ftab[..], st)
      invariant forall c :: 0 <= c < j ==> copyStart[c] == Start(st, c, ss) && copyEnd[c] == Start(st, c, ss + 1) - 1
    {
      StartOf(ftab[..], st, j, ss);
      StartOf(ftab[..], st, j, ss + 1);
      hide Marked;
      copyStart[j] := ftab[j * 256 + ss] % SETMASK;
      copyEnd[j] := ftab[j * 256 + ss + 1] % SETMASK - 1;
      j := j + 1;
    }
  }

  /** ftab[(j << 8) + ss] |= SETMASK for all j. */
  method MarkBuckets(ftab: array<int>, ss: int, ghost st: seq<int>)
    requires 0 <= ss < 256 && Marked(ftab[..], st)
    modifies ftab
    ensures Marked(ftab[..], st) && forall i :: 0 <= i < ftab.Length ==> ftab[i] == if i < 65536 && i % 256 == ss then st[i] + SETMASK else old(ftab[i])
  {
    var j := 0;
    while j <= 255
      invariant 0 <= j <= 256 && Marked(ftab[..], st)
      invariant forall i :: 0 <= i < ftab.Length ==> ftab[i] == if i < j * 256 && i % 256 == ss then st[i] + SETMASK else old(ftab[i])
    {
      var i := j * 256 + ss;
      if ftab[i] < SETMASK { ftab[i] := ftab[i] + SETMASK; }
      j := j + 1;
    }
  }

  /** Step 2 of mainSort. If the small buckets [ss, j] with j not ss are sorted, it sorts the buckets [t, ss] of all big buckets t not done,
      and [ss, ss] itself; the cursors of [ss, ss] meet unless the whole block is one letter (assertion 1007). */
  method ScanBucket(ptr: array<int>, block: array<int>, ftab: array<int>, nblock: int, ss: int, bigDone: array<bool>, ghost s: seq<int>, ghost st: seq<int>)
    requires ptr != block && ptr != ftab && nblock == |s| <= block.Length && block[..nblock] == s && ptr.Length == nblock && bigDone.Length == 256
    requires Marked(ftab[..], st) && Bucketed(s, ptr[..], st) && 0 <= ss < 256 && !bigDone[ss]
    requires forall b :: 0 <= b < 256 && b != ss ==> SmallSorted(s, ptr[..], st, ss, b)
    modifies ptr, ftab
    ensures Scanned(s, old(ptr[..]), ptr[..], st, bigDone[..], ss)
    ensures AllAre(s, ss) ==> ptr[..] == old(ptr[..])
    ensures Marked(ftab[..], st) && forall i :: 0 <= i < ftab.Length ==> ftab[i] == if i < 65536 && i % 256 == ss then st[i] + SETMASK else old(ftab[i])
  {
    hide *;
    ghost var was := ptr[..];
    var copyStart, copyEnd := new int[256], new int[256];
    ghost var zeros := Cursors(ftab, ss, copyStart, copyEnd, st);
    ScanStart(s, was, st, bigDone[..], ss, zeros);
    Begins(s, was, st, bigDone[..], ss, zeros);
    ghost var f, j := ScanUp(ptr, block, ftab, nblock, ss, bigDone, copyStart, s, was, st, zeros, zeros);
    ghost var g, h := ScanDown(ptr, block, ftab, nblock, ss, bigDone, copyEnd, s, was, st, f, j, zeros);
    Ends(s, was, ptr[..], st, bigDone[..], ss, f, j, g, h);
    CursorAt(copyStart[..], st, ss, true, f, ss);
    CursorAt(copyEnd[..], st, ss, false, g, ss);
    assert copyStart[ss] - 1 == copyEnd[ss] || (copyStart[ss] == 0 && copyEnd[ss] == nblock - 1); // assertion 1007
    MarkBuckets(ftab, ss, st);
  }

  lemma Begins(s: seq<int>, was: seq<int>, st: seq<int>, done: seq<bool>, ss: int, zeros: seq<int>)
    requires Bucketed(s, was, st) && Setting(s, st, done, ss) && |zeros| == 256 && forall c :: 0 <= c < 256 ==> zeros[c] == 0
    requires Scan(s, was, st, done, ss, true, zeros, 0) && Scan(s, was, st, done, ss, false, zeros, 0)
    ensures Both(s, was, was, st, done, ss, zeros, 0, zeros, 0)
  {
  }

  lemma Ends(s: seq<int>, was: seq<int>, p: seq<int>, st: seq<int>, done: seq<bool>, ss: int, f: seq<int>, j: int, g: seq<int>, h: int)
    requires Both(s, was, p, st, done, ss, f, j, g, h)
    requires |st| == 65537 && |f| == |g| == 256 && 0 <= ss < 256 && Starts(st, |p|) && 0 <= f[ss] <= Size(st, ss, ss) && 0 <= g[ss] <= Size(st, ss, ss)
    requires j == |List(p, st, ss, true, f[ss])| && h == |List(p, st, ss, false, g[ss])|
    ensures Bucketed(s, was, st) && |done| == 256 && Scanned(s, was, p, st, done, ss)
    ensures Start(st, ss, ss) + f[ss] == Start(st, ss, ss + 1) - g[ss]
            || (Start(st, ss, ss) == 0 && Start(st, ss, ss + 1) == |p| && f[ss] == g[ss] == 0)
    ensures AllAre(s, ss) ==> p == was
  {
    ScanEnd(s, was, p, st, done, ss, f, g);
    if AllAre(s, ss) { WholeBlock(s, was, st, ss); }
  }

  lemma WholeBlock(s: seq<int>, p: seq<int>, st: seq<int>, ss: int)
    requires Bucketed(s, p, st) && 0 <= ss < 256 && AllAre(s, ss)
    ensures Start(st, ss, ss) == 0 && Start(st, ss, ss + 1) == |p|
  {
    Disjoint(st, |s|, ss, ss, ss);
    var n := |p| - 1;
    assert Home(s, st, p[0], 0) && Home(s, st, p[n], n);
  }
}
