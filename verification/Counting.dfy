/** Counting sorts: how many characters lie below a given one, and what it means to put each position in its slot. */
module Counting {
  import opened Common

  /** Number of positions of s whose character is below c. */
  function Below(s: seq<int>, c: int): (r: int)
    ensures 0 <= r <= |s|
  {
    if s == [] then 0 else Below(s[..|s| - 1], c) + if s[|s| - 1] < c then 1 else 0
  }

  /** Number of occurrences of c in s. */
  function Count(s: seq<int>, c: int): int {
    Below(s, c + 1) - Below(s, c)
  }

  lemma {:induction false} BelowMonotone(s: seq<int>, c: int, d: int)
    requires c <= d
    ensures Below(s, c) <= Below(s, d)
  {
    if s != [] { BelowMonotone(s[..|s| - 1], c, d); }
  }

  lemma BelowStep(s: seq<int>, i: int, c: int)
    requires 0 <= i < |s|
    ensures Below(s[..i + 1], c) == Below(s[..i], c) + if s[i] < c then 1 else 0
    ensures Count(s[..i + 1], c) == Count(s[..i], c) + if s[i] == c then 1 else 0
  {
    assert s[..i + 1][..i] == s[..i];
  }

  /** A longer prefix has at least as many occurrences. */
  lemma {:induction false} CountPrefix(s: seq<int>, i: int, j: int, c: int)
    requires 0 <= i <= j <= |s|
    ensures 0 <= Count(s[..i], c) <= Count(s[..j], c)
  {
    if i < j {
      CountPrefix(s, i, j - 1, c);
      BelowStep(s, j - 1, c);
    } else {
      BelowMonotone(s[..i], c, c + 1);
    }
  }

  /** All characters below c: Below is the length; none below c: Below is 0. */
  lemma {:induction false} BelowExtremes(s: seq<int>, c: int)
    ensures (forall x :: 0 <= x < |s| ==> s[x] < c) ==> Below(s, c) == |s|
    ensures (forall x :: 0 <= x < |s| ==> s[x] >= c) ==> Below(s, c) == 0
  {
    if s != [] { BelowExtremes(s[..|s| - 1], c); }
  }

  lemma OneCounted(s: seq<int>, c: int)
    requires AllAre(s, c)
    ensures Below(s, c) == 0 && Below(s, c + 1) == Count(s, c) == |s|
  {
    BelowExtremes(s, c);
    BelowExtremes(s, c + 1);
  }

  /** Where the counting pass sends position x: after all smaller characters and all earlier equal ones. */
  function Pos(s: seq<int>, x: int): int
    requires 0 <= x < |s|
  {
    Below(s, s[x]) + Count(s[..x], s[x])
  }

  lemma PosRange(s: seq<int>, x: int)
    requires 0 <= x < |s|
    ensures Below(s, s[x]) <= Pos(s, x) < Below(s, s[x] + 1)
  {
    var c := s[x];
    CountPrefix(s, 0, x, c);
    BelowStep(s, x, c);
    CountPrefix(s, x + 1, |s|, c);
    assert s[..|s|] == s;
  }

  /** Pos is strictly increasing in (character, position). */
  lemma PosOrder(s: seq<int>, x: int, y: int)
    requires 0 <= x < |s| && 0 <= y < |s| && (s[x] < s[y] || (s[x] == s[y] && x < y))
    ensures Pos(s, x) < Pos(s, y)
  {
    PosRange(s, x);
    PosRange(s, y);
    var c, d := s[x], s[y];
    if c < d {
      BelowMonotone(s, c + 1, d);
    } else {
      BelowStep(s, x, c);
      CountPrefix(s, x + 1, y, c);
    }
  }

  /** pos gives every position its own slot inside the group of its character. */
  ghost predicate Slots(s: seq<int>, pos: seq<int>) {
    |pos| == |s| && Distinct(pos) && forall x :: 0 <= x < |s| ==> Below(s, s[x]) <= pos[x] < Below(s, s[x] + 1)
  }

  /** f lists the positions of s grouped by character. */
  ghost predicate Grouped(s: seq<int>, f: seq<int>) {
    IsPerm(f, |s|) && forall k :: 0 <= k < |s| ==> Below(s, s[f[k]]) <= k < Below(s, s[f[k]] + 1)
  }

  lemma SlotsPerm(s: seq<int>, pos: seq<int>)
    requires Slots(s, pos)
    ensures IsPerm(pos, |s|)
  {
  }

  /** Filling the slots groups the positions. */
  lemma SlotsGroup(s: seq<int>, pos: seq<int>, f: seq<int>)
    requires Slots(s, pos) && |f| == |s|
    requires forall x :: 0 <= x < |s| ==> 0 <= pos[x] < |f| && f[pos[x]] == x
    ensures Grouped(s, f)
  {
    SlotsPerm(s, pos);
    forall k | 0 <= k < |s| ensures 0 <= f[k] < |s| && pos[f[k]] == k {
      PermOnto(pos, |s|, k);
    }
    forall j, k | 0 <= j < k < |s| ensures f[j] != f[k] { assert pos[f[j]] != pos[f[k]]; }
  }

  /** In a grouped list the character at k is decided by where k lies among the group boundaries. */
  lemma GroupedOrder(s: seq<int>, f: seq<int>, k: int, c: int)
    requires Grouped(s, f) && 0 <= k < |s|
    ensures k < Below(s, c) <==> s[f[k]] < c
  {
    if s[f[k]] < c { BelowMonotone(s, s[f[k]] + 1, c); } else { BelowMonotone(s, c, s[f[k]]); }
  }

  lemma {:induction false} BelowConcat(a: seq<int>, b: seq<int>, c: int)
    ensures Below(a + b, c) == Below(a, c) + Below(b, c)
  {
    if b == [] {
      assert a + b == a;
    } else {
      BelowConcat(a, b[..|b| - 1], c);
      assert (a + b)[..|a + b| - 1] == a + b[..|b| - 1];
    }
  }

  /** The characters of s in the order in which f lists their positions. */
  function Permuted(s: seq<int>, f: seq<int>): (t: seq<int>)
    requires InRange(f, |s|)
    ensures |t| == |f| && forall k :: 0 <= k < |f| ==> t[k] == s[f[k]]
  {
    seq(|f|, k requires 0 <= k < |f| => s[f[k]])
  }

  lemma BelowInsert(a: seq<int>, v: int, b: seq<int>, c: int)
    ensures Below(a + [v] + b, c) == Below(a + b, c) + if v < c then 1 else 0
  {
    BelowConcat(a, b, c);
    BelowConcat(a, [v], c);
    BelowConcat(a + [v], b, c);
    assert [v][..0] == [];
  }

  /** Removing the largest value of a permutation. */
  lemma DropLargest(f: seq<int>, n: nat) returns (k: int)
    requires IsPerm(f, n + 1)
    ensures 0 <= k <= n && f[k] == n && IsPerm(f[..k] + f[k + 1..], n)
  {
    PermOnto(f, n + 1, n);
    k :| 0 <= k <= n && f[k] == n;
    var f' := f[..k] + f[k + 1..];
    forall i | 0 <= i < n ensures f'[i] == f[if i < k then i else i + 1] {}
  }

  /** One character more at place k. */
  lemma BelowPlaced(t: seq<int>, t': seq<int>, k: nat, c: int)
    requires k < |t| == |t'| + 1 && t'[..k] == t[..k] && t'[k..] == t[k + 1..]
    ensures Below(t, c) == Below(t', c) + if t[k] < c then 1 else 0
  {
    hide Below;
    assert t == t'[..k] + [t[k]] + t'[k..] && t' == t'[..k] + t'[k..];
    BelowInsert(t'[..k], t[k], t'[k..], c);
  }

  lemma BelowLast(s: seq<int>, c: int)
    requires s != []
    ensures Below(s, c) == Below(s[..|s| - 1], c) + if s[|s| - 1] < c then 1 else 0
  {
  }

  /** Leaving out the largest entry of a permutation leaves out one character of what it lists. */
  lemma PermutedWithout(s: seq<int>, f: seq<int>, k: nat)
    requires IsPerm(f, |s|) && k < |f| && f[k] == |s| - 1 && IsPerm(f[..k] + f[k + 1..], |s| - 1)
    ensures var t, t' := Permuted(s, f), Permuted(s[..|s| - 1], f[..k] + f[k + 1..]);
            k < |t| == |t'| + 1 && t[k] == s[|s| - 1] && t'[..k] == t[..k] && t'[k..] == t[k + 1..]
  {
  }

  /** Listing the characters in another order does not change how many lie below c. */
  lemma {:induction false} PermutedBelow(s: seq<int>, f: seq<int>, c: int)
    requires IsPerm(f, |s|)
    ensures Below(Permuted(s, f), c) == Below(s, c)
  {
    if s == [] {
      assert Permuted(s, f) == [];
    } else {
      hide *;
      var n := |s| - 1;
      var k := DropLargest(f, n);
      SameLength(f, n + 1);
      var f', s' := f[..k] + f[k + 1..], s[..n];
      PermutedBelow(s', f', c);
      PermutedWithout(s, f, k);
      BelowPlaced(Permuted(s, f), Permuted(s', f'), k, c);
      BelowLast(s, c);
    }
  }

  lemma SameLength(f: seq<int>, n: nat)
    requires IsPerm(f, n)
    ensures |f| == n
  {
  }

  /** In a non-decreasing sequence the entries below c come first. */
  lemma {:induction false} SortedBelow(t: seq<int>, c: int, k: int)
    requires (forall x, y :: 0 <= x <= y < |t| ==> t[x] <= t[y]) && 0 <= k < |t|
    ensures k < Below(t, c) <==> t[k] < c
  {
    if k < |t| - 1 {
      SortedBelow(t[..|t| - 1], c, k);
      assert t[k] <= t[|t| - 1];
    } else if |t| > 1 {
      SortedBelow(t[..|t| - 1], c, k - 1);
      assert t[k - 1] <= t[k];
    }
  }

  /** A permutation that lists the characters in order groups them. */
  lemma SortedGrouped(s: seq<int>, f: seq<int>)
    requires IsPerm(f, |s|) && forall x, y :: 0 <= x <= y < |s| ==> s[f[x]] <= s[f[y]]
    ensures Grouped(s, f)
  {
    var t := Permuted(s, f);
    forall k | 0 <= k < |s| ensures Below(s, s[f[k]]) <= k < Below(s, s[f[k]] + 1) {
      PermutedBelow(s, f, t[k]);
      PermutedBelow(s, f, t[k] + 1);
      SortedBelow(t, t[k], k);
      SortedBelow(t, t[k] + 1, k);
    }
  }
}
