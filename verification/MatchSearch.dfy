/** What longest_match looks for: the candidates on a chain, and the first of the longest among them. */
module MatchSearch {
  import opened Lz77
  import opened DeflateHash

  const UINT: nat := 0x1_0000_0000

  /** A search compares up to MAX_MATCH bytes at a with those at m. */
  predicate Within(window: seq<byte>, a: int, m: int) {
    0 <= m < a && a + MAX_MATCH < |window|
  }

  /** How many bytes from k on agree, up to MAX_MATCH in all. */
  function AlikeFrom(window: seq<byte>, a: int, m: int, k: nat): (n: nat)
    requires Within(window, a, m) && k <= MAX_MATCH
    ensures k <= n <= MAX_MATCH
    decreases MAX_MATCH - k
  {
    if k == MAX_MATCH || window[a + k] != window[m + k] then k else AlikeFrom(window, a, m, k + 1)
  }

  /** The length of the common beginning. */
  function Alike(window: seq<byte>, a: int, m: int): (n: nat)
    requires Within(window, a, m)
    ensures n <= MAX_MATCH
  {
    AlikeFrom(window, a, m, 0)
  }

  lemma {:induction false} AlikeFromIs(window: seq<byte>, a: int, m: int, k: nat, n: nat)
    requires Within(window, a, m) && k <= n <= MAX_MATCH
    requires (forall i, j :: a <= i < a + n && j == i - (a - m) ==> window[i] == window[j]) && (n < MAX_MATCH ==> window[a + n] != window[m + n])
    ensures AlikeFrom(window, a, m, k) == n
    decreases n - k
  {
    if k < n {
      assert window[a + k] == window[m + k];
      AlikeFromIs(window, a, m, k + 1, n);
    }
  }

  /** The common beginning agrees, and no longer one does. */
  lemma {:induction false} AlikeAgrees(window: seq<byte>, a: int, m: int, k: nat)
    requires Within(window, a, m) && k <= MAX_MATCH
    ensures forall i, j :: a + k <= i < a + AlikeFrom(window, a, m, k) && j == i - (a - m) ==> window[i] == window[j]
    ensures AlikeFrom(window, a, m, k) < MAX_MATCH ==> window[a + AlikeFrom(window, a, m, k)] != window[m + AlikeFrom(window, a, m, k)]
    decreases MAX_MATCH - k
  {
    if k < MAX_MATCH && window[a + k] == window[m + k] {
      AlikeAgrees(window, a, m, k + 1);
      forall i, j | a + k <= i < a + AlikeFrom(window, a, m, k) && j == i - (a - m) ensures window[i] == window[j] {
        if i == a + k { assert j == m + k; }
      }
    }
  }

  /** A byte that differs bounds it. */
  lemma AlikeBelow(window: seq<byte>, a: int, m: int, k: nat)
    requires Within(window, a, m) && k <= MAX_MATCH && window[a + k] != window[m + k]
    ensures Alike(window, a, m) <= k
  {
    AlikeAgrees(window, a, m, 0);
    var i, j := a + k, m + k;
    assert window[i] != window[j] && j == i - (a - m);
  }

  /** The candidates a search visits: cur and the links from it, down to the limit, n of them at most. */
  function Visited(prev: seq<int>, cur: int, limit: nat, n: nat): (cands: seq<int>)
    requires |prev| > 0 && n > 0
    decreases n
  {
    var q := prev[cur % |prev|];
    [cur] + if q <= limit || n == 1 then [] else Visited(prev, q, limit, n - 1)
  }

  datatype Found = Found(len: nat, start: int)

  ghost predicate AllWithin(window: seq<byte>, a: int, cands: seq<int>) {
    forall i :: 0 <= i < |cands| ==> Within(window, a, cands[i])
  }

  /** Going through the candidates, a match longer than the best so far becomes the best; one of nice length ends the search. */
  ghost function Pick(window: seq<byte>, a: int, cands: seq<int>, best: Found, nice: nat): Found
    requires AllWithin(window, a, cands)
  {
    if cands == [] then best else
      var len := Alike(window, a, cands[0]);
      if len <= best.len then Pick(window, a, cands[1..], best, nice)
      else if len >= nice then Found(len, cands[0])
      else Pick(window, a, cands[1..], Found(len, cands[0]), nice)
  }

  /** The result is the first of the longest matches among the candidates looked at, if one is longer than the best before; n of
      them were looked at, all unless the last one was of nice length. */
  lemma {:induction false} PickIsLongest(window: seq<byte>, a: int, cands: seq<int>, best: Found, nice: nat) returns (n: nat)
    requires AllWithin(window, a, cands)
    ensures n <= |cands|
    ensures var r := Pick(window, a, cands, best, nice);
            && best.len <= r.len && (forall i :: 0 <= i < n ==> Alike(window, a, cands[i]) <= r.len)
            && (n < |cands| ==> n > 0 && best.len < r.len && r == Found(Alike(window, a, cands[n - 1]), cands[n - 1]) && r.len >= nice)
            && (r == best || (best.len < r.len && exists i :: 0 <= i < n && r == Found(Alike(window, a, cands[i]), cands[i])
                                                             && forall j :: 0 <= j < i ==> Alike(window, a, cands[j]) < r.len))
  {
    if cands == [] {
      n := 0;
    } else {
      var len, rest := Alike(window, a, cands[0]), cands[1..];
      if len > best.len && len >= nice {
        n := 1;
      } else {
        var best' := if len <= best.len then best else Found(len, cands[0]);
        var k := PickIsLongest(window, a, rest, best', nice);
        n := k + 1;
        var r := Pick(window, a, rest, best', nice);
        assert r == Pick(window, a, cands, best, nice);
        forall i | 0 <= i < n ensures Alike(window, a, cands[i]) <= r.len { if i > 0 { assert cands[i] == rest[i - 1]; } }
        if r != best' {
          var i :| 0 <= i < k && r == Found(Alike(window, a, rest[i]), rest[i]) && forall j :: 0 <= j < i ==> Alike(window, a, rest[j]) < r.len;
          assert cands[i + 1] == rest[i];
          forall j | 0 <= j < i + 1 ensures Alike(window, a, cands[j]) < r.len { if j > 0 { assert cands[j] == rest[j - 1]; } }
        } else if r != best {
          assert r == Found(Alike(window, a, cands[0]), cands[0]);
        }
      }
    }
  }

  /** A search under way: from cur on, with n candidates to go and this best so far, it comes to the goal. */
  ghost predicate Goal(window: seq<byte>, a: int, prev: seq<int>, cur: int, limit: nat, n: nat, best: Found, nice: nat, goal: Found) {
    |prev| > 0 && n > 0 && AllWithin(window, a, Visited(prev, cur, limit, n)) && Pick(window, a, Visited(prev, cur, limit, n), best, nice) == goal
  }

  lemma GoalStep(window: seq<byte>, a: int, prev: seq<int>, cur: int, limit: nat, n: nat, best: Found, nice: nat, goal: Found)
    requires Goal(window, a, prev, cur, limit, n, best, nice, goal)
    ensures Within(window, a, cur) && |prev| > 0
    ensures var len, q := Alike(window, a, cur), prev[cur % |prev|];
            var best' := if len <= best.len then best else Found(len, cur);
            if (len > best.len && len >= nice) || q <= limit || n == 1 then goal == best' else Goal(window, a, prev, q, limit, n - 1, best', nice, goal)
  {
    var cands, q := Visited(prev, cur, limit, n), prev[cur % |prev|];
    assert cands[0] == cur && Within(window, a, cands[0]);
    var rest := if q <= limit || n == 1 then [] else Visited(prev, q, limit, n - 1);
    assert cands == [cur] + rest;
    hide Visited, Alike;
    PickStep(window, a, cur, rest, best, nice);
  }

  lemma PickStep(window: seq<byte>, a: int, cur: int, rest: seq<int>, best: Found, nice: nat)
    requires AllWithin(window, a, [cur] + rest)
    ensures Within(window, a, cur) && AllWithin(window, a, rest)
    ensures var len := Alike(window, a, cur);
            var best' := if len <= best.len then best else Found(len, cur);
            Pick(window, a, [cur] + rest, best, nice) == (if len > best.len && len >= nice then best' else Pick(window, a, rest, best', nice))
    ensures forall b: Found {:trigger Pick(window, a, rest, b, nice)} :: rest == [] ==> Pick(window, a, rest, b, nice) == b
  {
    var cands := [cur] + rest;
    assert cands[0] == cur && cands[1..] == rest;
    forall i | 0 <= i < |rest| ensures Within(window, a, rest[i]) { assert rest[i] == cands[i + 1]; }
    hide Alike;
  }

  /** How a search is limited. */
  datatype Limits = Limits(good: nat, nice: nat, chain: nat, dist: nat)

  /** The number of candidates: a chain length of nought wraps around. */
  function Chain(l: Limits, prevLength: nat): (n: nat)
    ensures n > 0
  {
    var c := if prevLength >= l.good then l.chain / 4 else l.chain;
    if c == 0 then UINT else c
  }

  function Floor(l: Limits, str: nat): nat {
    if str > l.dist then str - l.dist else NIL
  }

  /** What longest_match visits from cur. */
  function Looked(prev: seq<int>, str: nat, cur: int, prevLength: nat, l: Limits): seq<int>
    requires |prev| > 0
  {
    Visited(prev, cur, Floor(l, str), Chain(l, prevLength))
  }

  /** What it finds: no more than there is ahead. */
  ghost function Longest(window: seq<byte>, prev: seq<int>, str: nat, lookahead: nat, cur: int, best: Found, l: Limits): Found
    requires |prev| > 0 && AllWithin(window, str, Looked(prev, str, cur, best.len, l))
  {
    var r := Pick(window, str, Looked(prev, str, cur, best.len, l), best, if l.nice > lookahead then lookahead else l.nice);
    if r.len <= lookahead then r else Found(lookahead, r.start)
  }
}
