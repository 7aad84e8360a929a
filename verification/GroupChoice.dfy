/** The first half of sendMTFValues: how many coding tables a block gets, and which table each group of fifty symbols
    uses. Whatever is chosen, the second half can send it. */
module GroupChoice {
  import opened Common
  import opened HuffmanLengths
  import opened BlockTransmission
  import C = HuffmanCodes
  import S = SymbolStream
  import opened CodingTables

  const BZ_N_ITERS := 4
  const BZ_LESSER_ICOST: Byte := 0
  const BZ_GREATER_ICOST: Byte := 15
  const MOST := 900_001

  /** One table more from 200 symbols on, and from 600, 1200 and 2400. */
  predicate EnoughGroups(nMTF: nat, nGroups: nat) {
    2 <= nGroups <= 6 && (nGroups > 2 <==> nMTF >= 200) && (nGroups > 3 <==> nMTF >= 600) && (nGroups > 4 <==> nMTF >= 1200) && (nGroups > 5 <==> nMTF >= 2400)
  }

  /** How many tables. */
  method GroupsFor(nMTF: nat) returns (nGroups: nat)
    ensures EnoughGroups(nMTF, nGroups)
  {
    nGroups := if nMTF < 200 then 2 else if nMTF < 600 then 3 else if nMTF < 1200 then 4 else if nMTF < 2400 then 5 else 6;
  }

  // ---- the first tables: ranges of the alphabet of about equal frequency ----

  /** Division as C has it. */
  function Quotient(a: int, b: nat): (q: int)
    requires b > 0
    ensures if a >= 0 then q * b <= a < q * b + b else q * b - b < a <= q * b
  {
    if a >= 0 then a / b else -(-a / b)
  }

  /** The least end at which a range from gs on has tFreq symbols, or the end of the alphabet. */
  ghost predicate Reaches(freq: seq<int>, gs: int, end: int, tFreq: int) {
    0 <= gs <= end <= |freq| && (end == |freq| || Sum(freq[gs..end]) >= tFreq) && Below(freq, gs, end, tFreq)
  }

  ghost predicate Below(freq: seq<int>, gs: int, end: int, tFreq: int)
    requires 0 <= gs && end <= |freq|
  {
    forall x :: gs <= x < end ==> Sum(freq[gs..x]) < tFreq
  }

  lemma BelowMore(freq: seq<int>, gs: int, end: int, tFreq: int)
    requires 0 <= gs <= end < |freq| && Below(freq, gs, end, tFreq) && Sum(freq[gs..end]) < tFreq
    ensures Below(freq, gs, end + 1, tFreq)
  {
  }

  lemma BelowNone(freq: seq<int>, gs: nat, tFreq: int)
    requires gs <= |freq|
    ensures Below(freq, gs, gs, tFreq) && freq[gs..gs] == [] && Sum(freq[gs..gs]) == 0
  {
  }

  /** Part i of n ends where the range reaches tFreq, or, if it is an odd one and not the last, one symbol of the alphabet earlier. */
  ghost predicate PartEnds(freq: seq<int>, gs: int, e: int, tFreq: int, n: int, i: int, end: int) {
    Reaches(freq, gs, e, tFreq) && end == if e > gs + 1 && 0 < i < n - 1 && i % 2 == 1 then e - 1 else e
  }

  ghost predicate Cut(freq: seq<int>, gs: int, tFreq: int, n: int, i: int, end: int) {
    exists e :: PartEnds(freq, gs, e, tFreq, n, i, end)
  }

  /** Part i of n ranges, from gs up to end, is for its share of the symbols left. */
  ghost predicate Part(freq: seq<int>, nMTF: nat, n: nat, i: nat, gs: int, end: int) {
    i < n && 0 <= gs <= end <= |freq| && Cut(freq, gs, Quotient(nMTF - Sum(freq[..gs]), n - i), n, i, end)
  }

  /** Cheap for the symbols from gs up to end and dear for all others. */
  ghost predicate Ranged(tab: seq<Byte>, alphaSize: nat, gs: int, end: int) {
    |tab| == C.BZ_MAX_ALPHA_SIZE >= alphaSize && forall v :: 0 <= v < alphaSize ==> tab[v] == if gs <= v < end then BZ_LESSER_ICOST else BZ_GREATER_ICOST
  }

  /** The first k of n parts, the last of them first, with their ends in b. */
  ghost predicate Parts(tabs: seq<seq<Byte>>, b: seq<int>, freq: seq<int>, nMTF: nat, n: nat, k: nat) {
    |tabs| == k <= n && |b| == k + 1 && b[0] == 0
    && forall i :: 0 <= i < k ==> Part(freq, nMTF, n, i, b[i], b[i + 1]) && Ranged(tabs[k - 1 - i], |freq|, b[i], b[i + 1])
  }

  lemma PartsMore(tabs: seq<seq<Byte>>, b: seq<int>, freq: seq<int>, nMTF: nat, n: nat, k: nat, tab: seq<Byte>, end: int)
    requires Parts(tabs, b, freq, nMTF, n, k) && Part(freq, nMTF, n, k, b[k], end) && Ranged(tab, |freq|, b[k], end)
    ensures Parts([tab] + tabs, b + [end], freq, nMTF, n, k + 1)
  {
    var tabs', b' := [tab] + tabs, b + [end];
    forall i | 0 <= i < k + 1 ensures Part(freq, nMTF, n, i, b'[i], b'[i + 1]) && Ranged(tabs'[k - i], |freq|, b'[i], b'[i + 1]) {
      hide Part, Ranged;
      if i < k { assert tabs'[k - i] == tabs[k - 1 - i]; }
    }
  }

  lemma {:induction false} SumParts(s: seq<int>, a: nat, b: nat)
    requires a <= b <= |s|
    ensures Sum(s[..b]) == Sum(s[..a]) + Sum(s[a..b])
  {
    if a < b {
      SumParts(s, a, b - 1);
      SumMore(s, 0, b - 1);
      SumMore(s, a, b - 1);
      assert s[0..b] == s[..b] && s[0..b - 1] == s[..b - 1];
    } else {
      assert s[a..b] == [];
    }
  }

  method TakeRange(mtfFreq: array<int>, alphaSize: nat, gs: nat, tFreq: int, nPart: nat, nGroups: nat) returns (ge: int, aFreq: int)
    requires gs <= alphaSize <= mtfFreq.Length && 0 < nPart <= nGroups
    ensures gs - 1 <= ge < alphaSize && aFreq == Sum(mtfFreq[gs..ge + 1])
    ensures Cut(mtfFreq[..alphaSize], gs, tFreq, nGroups, nGroups - nPart, ge + 1)
  {
    hide *;
    ge, aFreq := gs - 1, 0;
    ghost var freq := mtfFreq[..alphaSize];
    BelowNone(freq, gs, tFreq);
    while aFreq < tFreq && ge < alphaSize - 1
      invariant gs - 1 <= ge < alphaSize && aFreq == Sum(freq[gs..ge + 1]) && Below(freq, gs, ge + 1, tFreq)
      decreases alphaSize - ge
    {
      ge := ge + 1;
      BelowMore(freq, gs, ge, tFreq);
      SumMore(freq, gs, ge);
      aFreq := aFreq + mtfFreq[ge];
    }
    ghost var e := ge + 1;
    if ge > gs && nPart != nGroups && nPart != 1 && (nGroups - nPart) % 2 == 1 {
      SumMore(freq, gs, ge);
      aFreq := aFreq - mtfFreq[ge];
      ge := ge - 1;
    }
    CutAt(freq, gs, e, tFreq, nGroups, nGroups - nPart, ge + 1);
    assert freq[gs..ge + 1] == mtfFreq[gs..ge + 1];
  }

  lemma SumMore(s: seq<int>, a: nat, b: nat)
    requires a <= b < |s|
    ensures Sum(s[a..b + 1]) == Sum(s[a..b]) + s[b]
  {
    SumAppend(s[a..b], s[b]);
    assert s[a..b + 1] == s[a..b] + [s[b]];
  }

  lemma CutAt(freq: seq<int>, gs: int, e: int, tFreq: int, n: int, i: int, end: int)
    requires 0 <= gs <= e <= |freq| && (e == |freq| || Sum(freq[gs..e]) >= tFreq) && Below(freq, gs, e, tFreq)
    requires end == if e > gs + 1 && 0 < i < n - 1 && i % 2 == 1 then e - 1 else e
    ensures Cut(freq, gs, tFreq, n, i, end)
  {
    hide Below;
    assert PartEnds(freq, gs, e, tFreq, n, i, end);
  }

  method RangeTable(alphaSize: nat, gs: int, ge: int) returns (len: array<Byte>)
    requires alphaSize <= C.BZ_MAX_ALPHA_SIZE
    ensures fresh(len) && Ranged(len[..], alphaSize, gs, ge + 1)
  {
    len := new Byte[C.BZ_MAX_ALPHA_SIZE](_ => 0);
    var v := 0;
    while v < alphaSize
      invariant 0 <= v <= alphaSize
      invariant forall k :: 0 <= k < v ==> len[k] == if gs <= k <= ge then BZ_LESSER_ICOST else BZ_GREATER_ICOST
    {
      len[v] := if v >= gs && v <= ge then BZ_LESSER_ICOST else BZ_GREATER_ICOST;
      v := v + 1;
    }
  }

  /** The first tables: nGroups ranges, the last table for the first of them. */
  method FirstTables(mtfFreq: array<int>, nMTF: nat, alphaSize: nat, nGroups: nat) returns (lens: seq<array<Byte>>, ghost tabs: seq<seq<Byte>>)
    requires alphaSize <= mtfFreq.Length && alphaSize <= C.BZ_MAX_ALPHA_SIZE
    ensures fresh(lens) && Hold(lens, tabs) && |tabs| == nGroups && First(tabs, mtfFreq[..alphaSize], nMTF)
  {
    hide *;
    var nPart, remF, gs := nGroups, nMTF as int, 0;
    lens, tabs := [], [];
    ghost var b, freq := [0], mtfFreq[..alphaSize];
    NoParts(freq, nMTF, nGroups, lens);
    while nPart > 0
      invariant 0 <= nPart <= nGroups && 0 <= gs <= alphaSize && fresh(lens) && Hold(lens, tabs) && |lens| == |tabs| && mtfFreq[..alphaSize] == freq
      invariant |b| == nGroups - nPart + 1 && b[nGroups - nPart] == gs && remF == nMTF - Sum(freq[..gs])
      invariant Parts(tabs, b, freq, nMTF, nGroups, nGroups - nPart)
      modifies {}
    {
      var len, ge, aFreq := FirstTable(mtfFreq, nMTF, alphaSize, gs, remF, nPart, nGroups, b, lens, tabs);
      lens, tabs, b := [len] + lens, [len[..]] + tabs, b + [ge + 1];
      nPart := nPart - 1;
      gs := ge + 1;
      remF := remF - aFreq;
    }
    FirstIs(tabs, b, freq, nMTF, nGroups);
  }

  /** The table of one part. */
  method FirstTable(mtfFreq: array<int>, nMTF: nat, alphaSize: nat, gs: nat, remF: int, nPart: nat, nGroups: nat, ghost b: seq<int>,
                    ghost lens: seq<array<Byte>>, ghost tabs: seq<seq<Byte>>) returns (len: array<Byte>, ge: int, aFreq: int)
    requires gs <= alphaSize <= mtfFreq.Length && alphaSize <= C.BZ_MAX_ALPHA_SIZE && 0 < nPart <= nGroups && Hold(lens, tabs)
    requires Parts(tabs, b, mtfFreq[..alphaSize], nMTF, nGroups, nGroups - nPart) && |b| == nGroups - nPart + 1 && b[nGroups - nPart] == gs
    requires remF == nMTF - Sum(mtfFreq[..alphaSize][..gs])
    ensures fresh(len) && gs - 1 <= ge < alphaSize && remF - aFreq == nMTF - Sum(mtfFreq[..alphaSize][..ge + 1])
    ensures Hold([len] + lens, [len[..]] + tabs) && Parts([len[..]] + tabs, b + [ge + 1], mtfFreq[..alphaSize], nMTF, nGroups, nGroups - nPart + 1)
  {
    hide Ranged, Cut, Sum, Parts;
    ghost var freq := mtfFreq[..alphaSize];
    ge, aFreq := TakeRange(mtfFreq, alphaSize, gs, Quotient(remF, nPart), nPart, nGroups);
    SumParts(freq, gs, ge + 1);
    assert mtfFreq[gs..ge + 1] == freq[gs..ge + 1];
    len := RangeTable(alphaSize, gs, ge);
    PartsMore(tabs, b, freq, nMTF, nGroups, nGroups - nPart, len[..], ge + 1);
    RangedSize(len[..], alphaSize, gs, ge + 1);
  }

  lemma NoParts(freq: seq<int>, nMTF: nat, n: nat, lens: seq<array<Byte>>)
    requires lens == []
    ensures Parts([], [0], freq, nMTF, n, 0) && Hold(lens, []) && Sum(freq[..0]) == 0
  {
  }

  lemma FirstIs(tabs: seq<seq<Byte>>, b: seq<int>, freq: seq<int>, nMTF: nat, n: nat)
    requires Parts(tabs, b, freq, nMTF, n, n)
    ensures |tabs| == n && First(tabs, freq, nMTF)
  {
    hide Part, Ranged;
  }

  lemma RangedSize(tab: seq<Byte>, alphaSize: nat, gs: int, end: int)
    requires Ranged(tab, alphaSize, gs, end)
    ensures |tab| == C.BZ_MAX_ALPHA_SIZE
  {
  }

  ghost predicate First(tabs: seq<seq<Byte>>, freq: seq<int>, nMTF: nat) {
    exists b :: Parts(tabs, b, freq, nMTF, |tabs|, |tabs|)
  }

  /** The arrays hold the tables. */
  ghost predicate Hold(lens: seq<array<Byte>>, tabs: seq<seq<Byte>>)
    reads lens
  {
    |lens| == |tabs| && forall t :: 0 <= t < |lens| ==> lens[t].Length == |tabs[t]| == C.BZ_MAX_ALPHA_SIZE && lens[t][..] == tabs[t]
  }

  ghost predicate Tables(tabs: seq<seq<Byte>>) {
    forall t :: 0 <= t < |tabs| ==> |tabs[t]| == C.BZ_MAX_ALPHA_SIZE
  }

  // ---- choosing the table of a group ----

  /** Bits a table needs for a row of symbols. */
  function Cost(len: seq<Byte>, syms: seq<int>): nat
    requires forall k :: 0 <= k < |syms| ==> 0 <= syms[k] < |len|
  {
    if syms == [] then 0 else Cost(len, syms[..|syms| - 1]) + len[syms[|syms| - 1]]
  }

  lemma CostMore(len: seq<Byte>, syms: seq<int>, gs: nat, i: nat)
    requires gs <= i < |syms| && forall k :: 0 <= k < |syms| ==> 0 <= syms[k] < |len|
    ensures Cost(len, syms[gs..i + 1]) == Cost(len, syms[gs..i]) + len[syms[i]]
  {
    CostAppend(len, syms[gs..i], syms[i]);
    assert syms[gs..i + 1] == syms[gs..i] + [syms[i]];
  }

  lemma CostAppend(len: seq<Byte>, syms: seq<int>, v: int)
    requires 0 <= v < |len| && forall k :: 0 <= k < |syms| ==> 0 <= syms[k] < |len|
    ensures Cost(len, syms + [v]) == Cost(len, syms) + len[v]
  {
    assert (syms + [v])[..|syms|] == syms;
  }

  lemma {:induction false} CostBound(len: seq<Byte>, syms: seq<int>)
    requires forall k :: 0 <= k < |syms| ==> 0 <= syms[k] < |len|
    ensures Cost(len, syms) <= 255 * |syms|
  {
    if syms != [] { CostBound(len, syms[..|syms| - 1]); }
  }

  /** The first n symbols are in the alphabet. */
  ghost predicate Within(mtfv: seq<int>, n: nat, alphaSize: nat) {
    n <= |mtfv| && alphaSize <= C.BZ_MAX_ALPHA_SIZE && forall k :: 0 <= k < n ==> 0 <= mtfv[k] < alphaSize
  }

  /** What table t needs for the symbols gs .. i - 1. */
  ghost function GroupCost(tabs: seq<seq<Byte>>, t: nat, mtfv: seq<int>, gs: nat, i: nat): nat
    requires t < |tabs| && Tables(tabs) && gs <= i && Within(mtfv, i, C.BZ_MAX_ALPHA_SIZE)
  {
    Cost(tabs[t], mtfv[gs..i])
  }

  lemma GroupCostMore(tabs: seq<seq<Byte>>, t: nat, mtfv: seq<int>, gs: nat, i: nat)
    requires t < |tabs| && Tables(tabs) && gs <= i && i - gs < S.BZ_G_SIZE && Within(mtfv, i + 1, C.BZ_MAX_ALPHA_SIZE)
    ensures GroupCost(tabs, t, mtfv, gs, i + 1) == GroupCost(tabs, t, mtfv, gs, i) + tabs[t][mtfv[i]] < 65536
  {
    CostMore(tabs[t], mtfv[..i + 1], gs, i);
    assert mtfv[..i + 1][gs..i + 1] == mtfv[gs..i + 1] && mtfv[..i + 1][gs..i] == mtfv[gs..i];
    CostBound(tabs[t], mtfv[gs..i + 1]);
  }

  ghost predicate CostsAre(cost: seq<int>, tabs: seq<seq<Byte>>, mtfv: seq<int>, gs: nat, i: nat) {
    |cost| == |tabs| && Tables(tabs) && gs <= i && Within(mtfv, i, C.BZ_MAX_ALPHA_SIZE)
    && forall t :: 0 <= t < |tabs| ==> cost[t] == GroupCost(tabs, t, mtfv, gs, i)
  }

  /** cost[t] is what table t needs; 16 bits are enough for fifty symbols. */
  method GroupCosts(mtfv: array<int>, gs: nat, ge: nat, lens: seq<array<Byte>>, ghost tabs: seq<seq<Byte>>) returns (cost: array<int>)
    requires gs <= ge && ge - gs < S.BZ_G_SIZE && Hold(lens, tabs) && Within(mtfv[..], ge + 1, C.BZ_MAX_ALPHA_SIZE)
    ensures fresh(cost) && CostsAre(cost[..], tabs, mtfv[..], gs, ge + 1)
  {
    cost := new int[|lens|](_ => 0);
    var i := gs;
    while i <= ge
      invariant gs <= i <= ge + 1 && CostsAre(cost[..], tabs, mtfv[..], gs, i)
      modifies cost
    {
      AddSymbol(cost, lens, tabs, mtfv, gs, i);
      i := i + 1;
    }
  }

  method AddSymbol(cost: array<int>, lens: seq<array<Byte>>, ghost tabs: seq<seq<Byte>>, mtfv: array<int>, ghost gs: nat, i: nat)
    requires cost != mtfv && Hold(lens, tabs) && i - gs < S.BZ_G_SIZE && Within(mtfv[..], i + 1, C.BZ_MAX_ALPHA_SIZE) && CostsAre(cost[..], tabs, mtfv[..], gs, i)
    modifies cost
    ensures CostsAre(cost[..], tabs, mtfv[..], gs, i + 1)
  {
    hide GroupCost;
    ghost var m := mtfv[..];
    var icv := mtfv[i];
    var t := 0;
    while t < |lens|
      invariant 0 <= t <= |lens| && mtfv[..] == m && icv == m[i] && Hold(lens, tabs)
      invariant forall u :: 0 <= u < t ==> cost[u] == GroupCost(tabs, u, m, gs, i + 1)
      invariant forall u :: t <= u < |lens| ==> cost[u] == GroupCost(tabs, u, m, gs, i)
    {
      GroupCostMore(tabs, t, m, gs, i);
      assert lens[t][icv] == tabs[t][icv];
      cost[t] := (cost[t] + lens[t][icv]) % 65536;
      t := t + 1;
    }
  }

  /** The first of the cheapest tables. */
  method Cheapest(cost: array<int>, nGroups: nat) returns (bt: int)
    requires 1 <= nGroups == cost.Length && forall t :: 0 <= t < nGroups ==> cost[t] < 65536
    ensures 0 <= bt < nGroups && (forall t :: 0 <= t < nGroups ==> cost[bt] <= cost[t]) && forall t :: 0 <= t < bt ==> cost[bt] < cost[t]
  {
    var bc := 999999999;
    bt := -1;
    var t := 0;
    while t < nGroups
      invariant 0 <= t <= nGroups && -1 <= bt < t && (bt == -1 ==> t == 0 && bc == 999999999) && (bt >= 0 ==> bc == cost[bt])
      invariant (forall u :: 0 <= u < t ==> bc <= cost[u]) && forall u :: 0 <= u < bt ==> bc < cost[u]
    {
      if cost[t] < bc { bc := cost[t]; bt := t; }
      t := t + 1;
    }
  }

  // ---- counting the symbols each table is used for ----

  /** How many of the first n symbols are v in a group that uses table t. */
  ghost function Uses(selector: seq<Byte>, mtfv: seq<int>, n: nat, t: int, v: int): nat
    requires n <= |mtfv| && n <= S.BZ_G_SIZE * |selector|
  {
    if n == 0 then 0 else Uses(selector, mtfv, n - 1, t, v) + if mtfv[n - 1] == v && selector[(n - 1) / S.BZ_G_SIZE] == t then 1 else 0
  }

  /** Selectors of groups still to come do not matter. */
  lemma {:induction false} UsesKept(a: seq<Byte>, b: seq<Byte>, mtfv: seq<int>, g: nat, n: nat, t: int, v: int)
    requires n <= |mtfv| && n <= S.BZ_G_SIZE * g && g <= |a| && g <= |b| && a[..g] == b[..g]
    ensures Uses(a, mtfv, n, t, v) == Uses(b, mtfv, n, t, v)
  {
    if n > 0 {
      UsesKept(a, b, mtfv, g, n - 1, t, v);
      var i := (n - 1) / S.BZ_G_SIZE;
      assert a[..g][i] == b[..g][i];
    }
  }

  ghost function RowOf(rfreq: array2<int>, t: nat): (row: seq<int>)
    requires t < rfreq.Length0
    reads rfreq
    ensures |row| == rfreq.Length1
  {
    seq(rfreq.Length1, v requires 0 <= v < rfreq.Length1 reads rfreq => rfreq[t, v])
  }

  /** The counts are those of the first k symbols, and no table counts more than k. */
  ghost predicate Counts(rfreq: array2<int>, selector: seq<Byte>, mtfv: seq<int>, k: nat)
    reads rfreq
  {
    k <= |mtfv| && k <= S.BZ_G_SIZE * |selector|
    && (forall t, v :: 0 <= t < rfreq.Length0 && 0 <= v < rfreq.Length1 ==> rfreq[t, v] == Uses(selector, mtfv, k, t, v))
    && forall t :: 0 <= t < rfreq.Length0 ==> Sum(RowOf(rfreq, t)) <= k
  }

  method CountSymbol(rfreq: array2<int>, bt: nat, mtfv: array<int>, i: nat, ghost selector: seq<Byte>)
    requires bt < rfreq.Length0 && i < mtfv.Length && 0 <= mtfv[i] < rfreq.Length1 && Counts(rfreq, selector, mtfv[..], i)
    requires i < S.BZ_G_SIZE * |selector| && selector[i / S.BZ_G_SIZE] == bt
    modifies rfreq
    ensures Counts(rfreq, selector, mtfv[..], i + 1)
  {
    var sym := mtfv[i];
    ghost var was, m := RowOf(rfreq, bt), mtfv[..];
    SumUpdate(was, sym, was[sym] + 1);
    rfreq[bt, sym] := rfreq[bt, sym] + 1;
    assert RowOf(rfreq, bt) == was[sym := was[sym] + 1];
    forall t | 0 <= t < rfreq.Length0 && t != bt ensures RowOf(rfreq, t) == old(RowOf(rfreq, t)) {}
    assert m[i] == sym;
  }

  method CountGroup(rfreq: array2<int>, bt: nat, mtfv: array<int>, gs: nat, ge: nat, ghost selector: seq<Byte>)
    requires bt < rfreq.Length0 && gs <= ge && Within(mtfv[..], ge + 1, rfreq.Length1) && Counts(rfreq, selector, mtfv[..], gs)
    requires ge < S.BZ_G_SIZE * |selector| && forall i :: gs <= i <= ge ==> selector[i / S.BZ_G_SIZE] == bt
    modifies rfreq
    ensures Counts(rfreq, selector, mtfv[..], ge + 1)
  {
    hide Counts;
    var i := gs;
    while i <= ge
      invariant gs <= i <= ge + 1 && Counts(rfreq, selector, mtfv[..], i)
    {
      CountSymbol(rfreq, bt, mtfv, i, selector);
      i := i + 1;
    }
  }

  lemma NoCounts(rfreq: array2<int>, selector: seq<Byte>, mtfv: seq<int>)
    requires forall t, v :: 0 <= t < rfreq.Length0 && 0 <= v < rfreq.Length1 ==> rfreq[t, v] == 0
    ensures Counts(rfreq, selector, mtfv, 0)
  {
    forall t | 0 <= t < rfreq.Length0 ensures Sum(RowOf(rfreq, t)) == 0 { ZeroSum(RowOf(rfreq, t)); }
  }

  /** Another selector at the end changes no count. */
  lemma CountsKept(rfreq: array2<int>, a: seq<Byte>, b: seq<Byte>, mtfv: seq<int>, g: nat, k: nat)
    requires Counts(rfreq, a, mtfv, k) && k <= S.BZ_G_SIZE * g && g <= |a| && g <= |b| && a[..g] == b[..g]
    ensures Counts(rfreq, b, mtfv, k)
  {
    forall t, v | 0 <= t < rfreq.Length0 && 0 <= v < rfreq.Length1 ensures rfreq[t, v] == Uses(b, mtfv, k, t, v) { UsesKept(a, b, mtfv, g, k, t, v); }
  }

  // ---- one pass over the symbols ----

  /** Where the group that starts at gs ends. */
  function End(gs: nat, nMTF: nat): nat {
    if gs + S.BZ_G_SIZE > nMTF then nMTF else gs + S.BZ_G_SIZE
  }

  /** Table b is the first of the cheapest for the group that starts at gs. */
  ghost predicate Best(tabs: seq<seq<Byte>>, mtfv: seq<int>, nMTF: nat, gs: nat, b: int) {
    gs < nMTF && Tables(tabs) && Within(mtfv, nMTF, C.BZ_MAX_ALPHA_SIZE) && 0 <= b < |tabs|
    && (forall t :: 0 <= t < |tabs| ==> GroupCost(tabs, b, mtfv, gs, End(gs, nMTF)) <= GroupCost(tabs, t, mtfv, gs, End(gs, nMTF)))
    && forall t :: 0 <= t < b ==> GroupCost(tabs, b, mtfv, gs, End(gs, nMTF)) < GroupCost(tabs, t, mtfv, gs, End(gs, nMTF))
  }

  method BestTable(mtfv: array<int>, nMTF: nat, gs: nat, lens: seq<array<Byte>>, ghost tabs: seq<seq<Byte>>) returns (bt: int)
    requires gs < nMTF && Hold(lens, tabs) && 1 <= |lens| && Within(mtfv[..], nMTF, C.BZ_MAX_ALPHA_SIZE)
    ensures Best(tabs, mtfv[..], nMTF, gs, bt)
  {
    var ge := gs + S.BZ_G_SIZE - 1;
    if ge >= nMTF { ge := nMTF - 1; }
    var cost := GroupCosts(mtfv, gs, ge, lens, tabs);
    SmallCosts(cost[..], tabs, mtfv[..], gs, ge);
    bt := Cheapest(cost, |lens|);
    assert forall t :: 0 <= t < |lens| ==> cost[t] == cost[..][t];
  }

  lemma SmallCosts(cost: seq<int>, tabs: seq<seq<Byte>>, mtfv: seq<int>, gs: nat, ge: nat)
    requires gs <= ge && ge - gs < S.BZ_G_SIZE && CostsAre(cost, tabs, mtfv, gs, ge + 1)
    ensures forall t :: 0 <= t < |tabs| ==> cost[t] < 65536
  {
    forall t | 0 <= t < |tabs| ensures cost[t] < 65536 { GroupCostMore(tabs, t, mtfv, gs, ge); }
  }

  /** Selectors chosen for the groups before gs, each the first of the cheapest tables of its group. */
  ghost predicate Chosen(selector: seq<Byte>, nSelectors: nat, tabs: seq<seq<Byte>>, mtfv: seq<int>, nMTF: nat, gs: nat) {
    && nSelectors <= |selector| && gs <= nMTF && (gs == nMTF || gs == S.BZ_G_SIZE * nSelectors)
    && S.BZ_G_SIZE * (nSelectors - 1) < gs <= S.BZ_G_SIZE * nSelectors
    && forall g :: 0 <= g < nSelectors ==> 0 <= selector[g] < |tabs| && Best(tabs, mtfv, nMTF, S.BZ_G_SIZE * g, selector[g])
  }

  lemma ChosenNone(selector: seq<Byte>, tabs: seq<seq<Byte>>, mtfv: seq<int>, nMTF: nat)
    ensures Chosen(selector, 0, tabs, mtfv, nMTF, 0)
  {
  }

  lemma ChosenOne(selector: seq<Byte>, nSelectors: nat, tabs: seq<seq<Byte>>, mtfv: seq<int>, nMTF: nat, gs: nat, bt: int)
    requires Chosen(selector, nSelectors, tabs, mtfv, nMTF, gs) && nSelectors < |selector| && gs < nMTF && Best(tabs, mtfv, nMTF, gs, bt) && 0 <= bt < 256
    ensures Chosen(selector[nSelectors := bt], nSelectors + 1, tabs, mtfv, nMTF, End(gs, nMTF))
  {
    hide Best;
    BestIs(tabs, mtfv, nMTF, gs, bt);
  }

  lemma BestIs(tabs: seq<seq<Byte>>, mtfv: seq<int>, nMTF: nat, gs: nat, b: int)
    requires Best(tabs, mtfv, nMTF, gs, b)
    ensures 0 <= b < |tabs|
  {
  }

  lemma ChosenAll(selector: seq<Byte>, nSelectors: nat, tabs: seq<seq<Byte>>, mtfv: seq<int>, nMTF: nat, gs: nat)
    requires Chosen(selector, nSelectors, tabs, mtfv, nMTF, gs)
    ensures gs <= nMTF && nSelectors <= |selector| && S.BZ_G_SIZE * (nSelectors - 1) < gs <= S.BZ_G_SIZE * nSelectors
    ensures gs < nMTF ==> gs == S.BZ_G_SIZE * nSelectors
    ensures forall g :: 0 <= g < nSelectors ==> 0 <= selector[g] < |tabs|
  {
    hide Best;
  }

  /** One round: every group gets the first of the cheapest tables, and the tables' symbols are counted. */
  method Pass(mtfv: array<int>, nMTF: nat, alphaSize: nat, lens: seq<array<Byte>>, ghost tabs: seq<seq<Byte>>, selector: array<Byte>)
    returns (rfreq: array2<int>, nSelectors: nat)
    requires 1 <= nMTF <= MOST && selector.Length == BZ_MAX_SELECTORS && selector !in lens && 1 <= |lens| <= 6
    requires Hold(lens, tabs) && Within(mtfv[..], nMTF, alphaSize)
    modifies selector
    ensures fresh(rfreq) && rfreq.Length0 == |lens| && rfreq.Length1 == alphaSize && Counts(rfreq, selector[..], mtfv[..], nMTF)
    ensures Chosen(selector[..], nSelectors, tabs, mtfv[..], nMTF, nMTF)
  {
    rfreq := new int[|lens|, alphaSize]((t, v) => 0);
    NoCounts(rfreq, selector[..], mtfv[..]);
    nSelectors := 0;
    var gs := 0;
    ChosenNone(selector[..], tabs, mtfv[..], nMTF);
    hide Chosen, Counts, Within, Hold;
    while gs < nMTF
      invariant 0 <= gs <= nMTF && Chosen(selector[..], nSelectors, tabs, mtfv[..], nMTF, gs) && Counts(rfreq, selector[..], mtfv[..], gs) && Hold(lens, tabs)
      modifies selector, rfreq
      decreases nMTF - gs
    {
      gs, nSelectors := PassTurn(mtfv, nMTF, alphaSize, lens, tabs, selector, rfreq, gs, nSelectors);
    }
  }

  method PassTurn(mtfv: array<int>, nMTF: nat, alphaSize: nat, lens: seq<array<Byte>>, ghost tabs: seq<seq<Byte>>, selector: array<Byte>, rfreq: array2<int>,
                  gs: nat, nSelectors: nat) returns (gs': nat, nSelectors': nat)
    requires gs < nMTF <= MOST && selector.Length == BZ_MAX_SELECTORS && selector !in lens && 1 <= |lens| <= 6 && rfreq.Length0 == |lens| && rfreq.Length1 == alphaSize
    requires Hold(lens, tabs) && Within(mtfv[..], nMTF, alphaSize) && Chosen(selector[..], nSelectors, tabs, mtfv[..], nMTF, gs)
    requires Counts(rfreq, selector[..], mtfv[..], gs)
    modifies selector, rfreq
    ensures gs < gs' <= nMTF && Chosen(selector[..], nSelectors', tabs, mtfv[..], nMTF, gs') && Counts(rfreq, selector[..], mtfv[..], gs') && Hold(lens, tabs)
  {
    ChosenAll(selector[..], nSelectors, tabs, mtfv[..], nMTF, gs);
    var ge := gs + S.BZ_G_SIZE - 1;
    if ge >= nMTF { ge := nMTF - 1; }
    var bt := BestTable(mtfv, nMTF, gs, lens, tabs);
    BestIs(tabs, mtfv[..], nMTF, gs, bt);
    ChosenOne(selector[..], nSelectors, tabs, mtfv[..], nMTF, gs, bt);
    SameGroup(gs, nSelectors);
    hide Chosen, Counts, Best;
    ghost var was: seq<Byte>, b: Byte := selector[..], bt;
    selector[nSelectors] := bt;
    assert selector[..] == was[nSelectors := b];
    CountsKept(rfreq, was, selector[..], mtfv[..], nSelectors, gs);
    nSelectors' := nSelectors + 1;
    CountGroup(rfreq, bt, mtfv, gs, ge, selector[..]);
    gs' := ge + 1;
  }

  lemma SameGroup(gs: nat, g: nat)
    requires gs == S.BZ_G_SIZE * g
    ensures forall i :: gs <= i < gs + S.BZ_G_SIZE ==> i / S.BZ_G_SIZE == g
  {
  }

  // ---- the rounds ----

  /** A round: the tables it begins with, the selectors chosen and the counts they come to. */
  datatype Round = Round(tabs: seq<seq<Byte>>, selector: seq<Byte>, freqs: seq<seq<int>>)

  ghost predicate RoundOk(r: Round, mtfv: seq<int>, alphaSize: nat) {
    Chosen(r.selector, |r.selector|, r.tabs, mtfv, |mtfv|, |mtfv|) && |r.freqs| == |r.tabs|
    && forall t :: 0 <= t < |r.freqs| ==> |r.freqs[t]| == alphaSize && forall v :: 0 <= v < alphaSize ==> r.freqs[t][v] == Uses(r.selector, mtfv, |mtfv|, t, v)
  }

  /** n rounds, each with the tables fitted to the counts of the one before. */
  ghost predicate Rounds(rounds: seq<Round>, mtfv: seq<int>, freq: seq<int>, alphaSize: nat) {
    (forall i :: 0 <= i < |rounds| ==> RoundOk(rounds[i], mtfv, alphaSize))
    && (rounds != [] ==> EnoughGroups(|mtfv|, |rounds[0].tabs|) && First(rounds[0].tabs, freq, |mtfv|))
    && forall i, j :: 0 <= i && j == i + 1 < |rounds| ==> Fitted(rounds[i].freqs, rounds[j].tabs)
  }

  /** How often each symbol occurs. */
  ghost function Occurrences(syms: seq<int>, alphaSize: nat): seq<int> {
    seq(alphaSize, v requires 0 <= v < alphaSize => multiset(syms)[v])
  }

  /** The tables sent and their selectors come of four rounds: the selectors are those of the last, and the tables are fitted to its counts. */
  ghost predicate Tailored(x: Layout) {
    exists rounds: seq<Round> :: |rounds| == BZ_N_ITERS && Rounds(rounds, x.syms, Occurrences(x.syms, x.alphaSize), x.alphaSize)
                                 && x.selector == rounds[BZ_N_ITERS - 1].selector && Fitted(rounds[BZ_N_ITERS - 1].freqs, x.lens)
  }

  /** The counts of one table, as an array of its own. */
  method CopyRow(rfreq: array2<int>, t: nat, ghost selector: seq<Byte>, ghost mtfv: seq<int>) returns (row: array<int>)
    requires t < rfreq.Length0 && Counts(rfreq, selector, mtfv, |mtfv|) && |mtfv| <= MOST && rfreq.Length1 <= C.BZ_MAX_ALPHA_SIZE
    ensures fresh(row) && row.Length == rfreq.Length1 && row[..] == RowOf(rfreq, t) && Frequencies(row, rfreq.Length1)
  {
    row := new int[rfreq.Length1](v requires 0 <= v < rfreq.Length1 reads rfreq => rfreq[t, v]);
    assert row[..] == RowOf(rfreq, t);
    FilledSum(row[..]);
    assert row[..rfreq.Length1] == row[..];
  }

  /** Counting zeros as one adds at most one a symbol. */
  lemma {:induction false} FilledSum(s: seq<int>)
    ensures Sum(Filled(s)) <= Sum(s) + |s|
  {
    if s != [] {
      var n := |s| - 1;
      FilledSum(s[..n]);
      assert Filled(s)[..n] == Filled(s[..n]);
    }
  }

  method CopyRows(rfreq: array2<int>, ghost selector: seq<Byte>, ghost mtfv: seq<int>) returns (rows: seq<array<int>>, ghost freqs: seq<seq<int>>)
    requires Counts(rfreq, selector, mtfv, |mtfv|) && |mtfv| <= MOST && rfreq.Length1 <= C.BZ_MAX_ALPHA_SIZE
    ensures |rows| == rfreq.Length0 && HoldCounts(rows, freqs, rfreq.Length1) && fresh(rows)
    ensures forall t :: 0 <= t < |rows| ==> freqs[t] == RowOf(rfreq, t)
  {
    rows, freqs := [], [];
    hide Frequencies, Counts;
    while |rows| < rfreq.Length0
      invariant |rows| <= rfreq.Length0 && HoldCounts(rows, freqs, rfreq.Length1) && fresh(rows) && forall t :: 0 <= t < |rows| ==> freqs[t] == RowOf(rfreq, t)
      modifies {}
    {
      var row := CopyRow(rfreq, |rows|, selector, mtfv);
      rows, freqs := rows + [row], freqs + [row[..]];
    }
  }

  /** The tables for the next round. */
  method BetterTables(rfreq: seq<array<int>>, alphaSize: nat, ghost freqs: seq<seq<int>>) returns (lens: seq<array<Byte>>, ghost tabs: seq<seq<Byte>>)
    requires 1 <= alphaSize <= C.BZ_MAX_ALPHA_SIZE && HoldCounts(rfreq, freqs, alphaSize) && forall t :: 0 <= t < |freqs| ==> |freqs[t]| == alphaSize
    ensures Hold(lens, tabs) && fresh(lens) && Fitted(freqs, tabs)
  {
    lens, tabs := [], [];
    hide Kept, Frequencies;
    while |lens| < |rfreq|
      invariant |lens| <= |rfreq| && Hold(lens, tabs) && fresh(lens) && Fitted(freqs[..|lens|], tabs) && HoldCounts(rfreq, freqs, alphaSize)
      modifies {}
    {
      var len := BetterTable(rfreq[|lens|], alphaSize);
      lens, tabs := lens + [len], tabs + [len[..]];
    }
    assert freqs[..|lens|] == freqs;
  }

  method BetterTable(freq: array<int>, alphaSize: nat) returns (len: array<Byte>)
    requires 1 <= alphaSize <= C.BZ_MAX_ALPHA_SIZE && Frequencies(freq, alphaSize)
    ensures fresh(len) && len.Length == C.BZ_MAX_ALPHA_SIZE && alphaSize <= freq.Length && Kept(Filled(freq[..alphaSize]), len[..alphaSize], MAX_LEN)
  {
    len := new Byte[C.BZ_MAX_ALPHA_SIZE](_ => 0);
    FibForAlphabet(alphaSize);
    MakeCodeLengths(len, freq, alphaSize, MAX_LEN);
  }

  /** The rounds: tables, selectors and counts improve in turn; the counts of the last round make the tables to be sent. */
  method ChooseGroups(mtfv: array<int>, nMTF: nat, mtfFreq: array<int>, alphaSize: nat)
    returns (rfreq: seq<array<int>>, selector: array<Byte>, nSelectors: nat, ghost rounds: seq<Round>)
    requires 1 <= nMTF <= MOST && 1 <= alphaSize <= mtfFreq.Length && Within(mtfv[..], nMTF, alphaSize)
    ensures |rounds| == BZ_N_ITERS && Rounds(rounds, mtfv[..nMTF], mtfFreq[..alphaSize], alphaSize)
    ensures selector.Length == BZ_MAX_SELECTORS && nSelectors <= selector.Length && selector[..nSelectors] == rounds[BZ_N_ITERS - 1].selector
    ensures HoldCounts(rfreq, rounds[BZ_N_ITERS - 1].freqs, alphaSize)
  {
    var nGroups := GroupsFor(nMTF);
    ghost var syms, freq := mtfv[..nMTF], mtfFreq[..alphaSize];
    var len;
    ghost var tabs, freqs;
    len, tabs := FirstTables(mtfFreq, nMTF, alphaSize, nGroups);
    selector := new Byte[BZ_MAX_SELECTORS](_ => 0);
    nSelectors, rfreq, rounds, freqs := 0, [], [], [];
    hide First, Rounds, RoundOk, Fitted, HoldCounts, Hold, Within, Chosen;
    NoRounds(syms, freq, alphaSize);
    var iter := 0;
    while iter < BZ_N_ITERS
      invariant 0 <= iter <= BZ_N_ITERS && |rounds| == iter && Rounds(rounds, syms, freq, alphaSize) && fresh(selector)
      invariant iter < BZ_N_ITERS ==> Hold(len, tabs) && |len| == |tabs| == nGroups && selector !in len
      invariant if iter == 0 then First(tabs, freq, nMTF) else nSelectors <= selector.Length && selector[..nSelectors] == rounds[iter - 1].selector && HoldCounts(rfreq, rounds[iter - 1].freqs, alphaSize)
      invariant 0 < iter < BZ_N_ITERS ==> Fitted(rounds[iter - 1].freqs, tabs)
      invariant iter > 0 ==> |rounds[iter - 1].freqs| == nGroups
      modifies selector
    {
      rfreq, nSelectors, freqs := OneRound(mtfv, nMTF, alphaSize, len, tabs, selector);
      ghost var r := Round(tabs, selector[..nSelectors], freqs);
      NextRound(rounds, r, syms, freq, alphaSize);
      rounds := rounds + [r];
      if iter + 1 < BZ_N_ITERS {
        RoundFacts(r, syms, alphaSize);
        len, tabs := BetterTables(rfreq, alphaSize, freqs);
        FittedSize(freqs, tabs);
        HoldSize(len, tabs);
      }
      iter := iter + 1;
    }
  }

  lemma NoRounds(mtfv: seq<int>, freq: seq<int>, alphaSize: nat)
    ensures Rounds([], mtfv, freq, alphaSize)
  {
  }

  /** Every round has as many tables as the first. */
  lemma {:induction false} AsManyTables(rounds: seq<Round>, mtfv: seq<int>, freq: seq<int>, alphaSize: nat, i: nat)
    requires Rounds(rounds, mtfv, freq, alphaSize) && i < |rounds|
    ensures 2 <= |rounds[i].freqs| == |rounds[i].tabs| == |rounds[0].tabs| <= 6
  {
    RoundFacts(rounds[i], mtfv, alphaSize);
    if i > 0 {
      AsManyTables(rounds, mtfv, freq, alphaSize, i - 1);
      FittedSize(rounds[i - 1].freqs, rounds[i].tabs);
    }
    hide RoundOk, Fitted, First;
  }

  lemma NextRound(rounds: seq<Round>, r: Round, mtfv: seq<int>, freq: seq<int>, alphaSize: nat)
    requires Rounds(rounds, mtfv, freq, alphaSize) && RoundOk(r, mtfv, alphaSize)
    requires if rounds == [] then EnoughGroups(|mtfv|, |r.tabs|) && First(r.tabs, freq, |mtfv|) else Fitted(rounds[|rounds| - 1].freqs, r.tabs)
    ensures Rounds(rounds + [r], mtfv, freq, alphaSize)
  {
    hide RoundOk, Fitted, First;
  }

  lemma RoundFacts(r: Round, mtfv: seq<int>, alphaSize: nat)
    requires RoundOk(r, mtfv, alphaSize)
    ensures |r.freqs| == |r.tabs| && forall t :: 0 <= t < |r.freqs| ==> |r.freqs[t]| == alphaSize
  {
    hide Chosen;
  }

  lemma FittedSize(freqs: seq<seq<int>>, lens: seq<seq<int>>)
    requires Fitted(freqs, lens)
    ensures |lens| == |freqs|
  {
  }

  lemma HoldSize(lens: seq<array<Byte>>, tabs: seq<seq<Byte>>)
    requires Hold(lens, tabs)
    ensures |lens| == |tabs|
  {
  }

  /** Only the symbols counted and the selectors in use matter. */
  lemma {:induction false} UsesFront(selector: seq<Byte>, mtfv: seq<int>, m: nat, n: nat, t: int, v: int)
    requires n <= m <= |mtfv| && n <= S.BZ_G_SIZE * |selector|
    ensures Uses(selector, mtfv[..m], n, t, v) == Uses(selector, mtfv, n, t, v)
  {
    if n > 0 { UsesFront(selector, mtfv, m, n - 1, t, v); }
  }

  lemma CountsFront(rfreq: array2<int>, selector: seq<Byte>, mtfv: seq<int>, n: nat)
    requires Counts(rfreq, selector, mtfv, n)
    ensures n <= |mtfv| && Counts(rfreq, selector, mtfv[..n], n)
  {
    forall t, v | 0 <= t < rfreq.Length0 && 0 <= v < rfreq.Length1 ensures rfreq[t, v] == Uses(selector, mtfv[..n], n, t, v) {
      UsesFront(selector, mtfv, n, n, t, v);
    }
  }

  lemma BestFront(tabs: seq<seq<Byte>>, mtfv: seq<int>, nMTF: nat, gs: nat, b: int)
    requires Best(tabs, mtfv, nMTF, gs, b)
    ensures nMTF <= |mtfv| && Best(tabs, mtfv[..nMTF], nMTF, gs, b)
  {
    var m, e := mtfv[..nMTF], End(gs, nMTF);
    assert m[gs..e] == mtfv[gs..e];
    forall t | 0 <= t < |tabs| ensures GroupCost(tabs, t, m, gs, e) == GroupCost(tabs, t, mtfv, gs, e) {}
    hide GroupCost;
  }

  lemma ChosenIn(selector: seq<Byte>, n: nat, tabs: seq<seq<Byte>>, mtfv: seq<int>, nMTF: nat)
    requires Chosen(selector, n, tabs, mtfv, nMTF, nMTF) && nMTF <= |mtfv|
    ensures n <= |selector| && Chosen(selector[..n], n, tabs, mtfv[..nMTF], nMTF, nMTF)
  {
    hide Best;
    forall g | 0 <= g < n ensures Best(tabs, mtfv[..nMTF], nMTF, S.BZ_G_SIZE * g, selector[..n][g]) { BestFront(tabs, mtfv, nMTF, S.BZ_G_SIZE * g, selector[g]); }
  }

  lemma RoundIs(rfreq: array2<int>, selector: seq<Byte>, n: nat, tabs: seq<seq<Byte>>, mtfv: seq<int>, nMTF: nat, freqs: seq<seq<int>>)
    requires nMTF <= |mtfv| && Chosen(selector, n, tabs, mtfv, nMTF, nMTF) && Counts(rfreq, selector, mtfv[..nMTF], nMTF)
    requires |freqs| == rfreq.Length0 == |tabs| && forall t :: 0 <= t < |freqs| ==> freqs[t] == RowOf(rfreq, t)
    ensures n <= |selector| && RoundOk(Round(tabs, selector[..n], freqs), mtfv[..nMTF], rfreq.Length1)
  {
    ChosenAll(selector, n, tabs, mtfv, nMTF, nMTF);
    ChosenIn(selector, n, tabs, mtfv, nMTF);
    hide Chosen;
    forall t, v | 0 <= t < |freqs| && 0 <= v < rfreq.Length1 ensures freqs[t][v] == Uses(selector[..n], mtfv[..nMTF], nMTF, t, v) {
      UsesKept(selector, selector[..n], mtfv[..nMTF], n, nMTF, t, v);
    }
  }

  method OneRound(mtfv: array<int>, nMTF: nat, alphaSize: nat, lens: seq<array<Byte>>, ghost tabs: seq<seq<Byte>>, selector: array<Byte>)
    returns (rfreq: seq<array<int>>, nSelectors: nat, ghost freqs: seq<seq<int>>)
    requires 1 <= nMTF <= MOST && selector.Length == BZ_MAX_SELECTORS && selector !in lens && 1 <= |lens| <= 6
    requires Hold(lens, tabs) && Within(mtfv[..], nMTF, alphaSize)
    modifies selector
    ensures nSelectors <= selector.Length && RoundOk(Round(tabs, selector[..nSelectors], freqs), mtfv[..nMTF], alphaSize) && HoldCounts(rfreq, freqs, alphaSize)
    ensures |freqs| == |lens| && fresh(rfreq)
  {
    var counts;
    counts, nSelectors := Pass(mtfv, nMTF, alphaSize, lens, tabs, selector);
    ghost var all, sel := mtfv[..], selector[..];
    CountsFront(counts, sel, all, nMTF);
    rfreq, freqs := CopyRows(counts, sel, mtfv[..nMTF]);
    RoundIs(counts, sel, nSelectors, tabs, all, nMTF, freqs);
  }
}
