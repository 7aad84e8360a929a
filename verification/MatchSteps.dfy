/** The turns of deflate_fast and deflate_slow as steps from one state of the matcher to the next. */
module MatchSteps {
  import opened Lz77
  import opened DeflateHash
  import opened HashChains
  import opened MatchSearch

  const TOO_FAR := 4096

  /** The first n cells of the window hold the stream from base to its end so far. */
  ghost predicate Stored(window: seq<byte>, log: seq<byte>, base: nat, n: nat) {
    n <= |window| && base + n == |log| && window[..n] == log[base..]
  }

  lemma StoredAt(window: seq<byte>, log: seq<byte>, base: nat, n: nat, i: nat)
    requires Stored(window, log, base, n) && i < n
    ensures i < |window| && base + i < |log| && window[i] == log[base + i]
  {
    assert window[..n][i] == log[base..][i];
  }

  /** The absolute positions from a up to b. */
  function Strings(a: int, b: int): (s: set<int>)
    ensures forall p :: p in s <==> a <= p < b
    decreases b - a
  {
    if b <= a then {} else Strings(a, b - 1) + {b - 1}
  }

  lemma StringsMore(a: int, b: int)
    requires a <= b
    ensures Strings(a, b) + {b} == Strings(a, b + 1)
  {
  }

  lemma NoStrings(a: int)
    ensures Strings(a, a) == {}
  {
  }

  /** Where the strings with three bytes end, up to b. */
  function Whole(b: int, end: int): int {
    if b <= end - 2 then b else end - 2
  }

  lemma StringsNone(a: int, end: int)
    ensures Strings(a, Whole(a, end)) == {}
  {
  }

  lemma StringsJoin(a: int, b: int, c: int, end: int)
    requires a <= b <= c
    ensures Strings(a, Whole(b, end)) + Strings(b, Whole(c, end)) == Strings(a, Whole(c, end))
  {
  }

  /** The matcher between turns: the configuration, the window, the index, the stream so far, what the caller has still to give, the
      position and the bytes ahead of it, how many strings before it are not on record yet, the match of the last turn, whether
      the byte before is owed, and the tokens so far. */
  datatype View = View(l: Limits, lazy: nat, filtered: bool, window: seq<byte>, c: Chains, log: seq<byte>, nextIn: seq<byte>,
                       str: nat, ahead: nat, insert: nat, match0: Found, available: bool, tokens: seq<Token>) {
    ghost predicate Sound() {
      c.Sound(log) && c.base + str + ahead == |log| && c.top <= Here() && Stored(window, log, c.base, str + ahead)
    }

    function Here(): int {
      c.base + str
    }

    /** The index with the string at str on record. */
    ghost function Entered(): Chains
      requires Sound()
    {
      if ahead >= MIN_MATCH then Entering(c, log, str) else c
    }

    /** The newest string with the hash of the one at str. */
    ghost function Newest(): int
      requires Sound()
    {
      if ahead >= MIN_MATCH then Entered().prev[str % c.w] else NIL
    }

    /** A search takes place. */
    ghost predicate Seeks()
      requires Sound()
    {
      Newest() != NIL && str - Newest() <= l.dist
    }

    /** What it goes through. */
    ghost function Candidates(least: nat): seq<int>
      requires Sound()
    {
      Looked(Entered().prev, str, Newest(), least, l)
    }

    ghost predicate Searchable(least: nat) {
      Sound() && (Seeks() ==> AllWithin(window, str, Candidates(least)))
    }

    /** What a search for more than best comes to. */
    ghost function Search(best: Found): Found
      requires Searchable(best.len)
    {
      if Seeks() then Longest(window, Entered().prev, str, ahead, Newest(), best, l) else best
    }

    /** Nothing is looked up unless there is a full lookahead, or no more input. */
    predicate Full() {
      ahead > 0 && (ahead >= MIN_LOOKAHEAD || nextIn == [])
    }
  }

  lemma SearchIs(a: View, best: Found)
    requires a.Sound() && a.Seeks() && |a.Entered().prev| > 0 && AllWithin(a.window, a.str, Looked(a.Entered().prev, a.str, a.Newest(), best.len, a.l))
    ensures a.Searchable(best.len) && a.Search(best) == Longest(a.window, a.Entered().prev, a.str, a.ahead, a.Newest(), best, a.l)
  {
    hide HashAt, Chains.Sound, Stored, Looked, Longest, AllWithin;
  }

  /** The configuration, the stream and the place of the window stay. */
  predicate SameData(a: View, b: View) {
    b.l == a.l && b.lazy == a.lazy && b.filtered == a.filtered && b.log == a.log && b.nextIn == a.nextIn
    && b.window == a.window && b.c.base == a.c.base && b.c.w == a.c.w && b.c.bits == a.c.bits && b.str + b.ahead == a.str + a.ahead && b.insert == a.insert
  }

  /** The match of a turn of deflate_fast. */
  ghost function Greedily(a: View): Found
    requires a.Searchable(MIN_MATCH - 1)
  {
    if a.Seeks() then a.Search(Found(MIN_MATCH - 1, a.match0.start)) else a.match0
  }

  /** One turn of deflate_fast: the longest match goes out, or else a literal. The strings of a long match, but for its first, are
      not put on record. */
  ghost predicate FastStep(a: View, b: View) {
    a.Full() && a.Searchable(MIN_MATCH - 1) && b.Sound() && SameData(a, b) &&
    var f := Greedily(a);
    if f.len >= MIN_MATCH then
      f.start < a.str && b.match0 == Found(0, f.start) && b.tokens == a.tokens + [Match(a.str - f.start, f.len)] && b.str == a.str + f.len
      && b.c.ins == a.c.ins + Strings(a.Here(), if f.len <= a.lazy && b.ahead >= MIN_MATCH then b.Here() else a.Here() + 1)
    else
      b.match0 == f && b.tokens == a.tokens + [Lit(a.log[a.Here()])] && b.str == a.str + 1 && b.c.ins == a.c.ins + Strings(a.Here(), Whole(b.Here(), |a.log|))
  }

  /** The match of a turn of deflate_slow: longer than the one of the turn before, or of no account. */
  ghost function Lazily(a: View): Found
    requires a.Searchable(a.match0.len)
  {
    if a.Seeks() && a.match0.len < a.lazy then
      var f := a.Search(a.match0);
      if f.len <= 5 && (a.filtered || (f.len == MIN_MATCH && (a.str - f.start) % UINT > TOO_FAR)) then Found(MIN_MATCH - 1, f.start) else f
    else Found(MIN_MATCH - 1, a.match0.start)
  }

  /** One turn of deflate_slow: the match of the turn before goes out unless there is a longer one here. */
  ghost predicate SlowStep(a: View, b: View) {
    a.Full() && a.Searchable(a.match0.len) && b.Sound() && SameData(a, b) && b.c.ins == a.c.ins + Strings(a.Here(), Whole(b.Here(), |a.log|)) &&
    var f := Lazily(a);
    b.match0.start == f.start &&
    if a.match0.len >= MIN_MATCH && f.len <= a.match0.len then
      b.tokens == a.tokens + [Match((a.str - 1 - a.match0.start) % UINT, a.match0.len)] && b.str == a.str - 1 + a.match0.len
      && !b.available && b.match0.len == MIN_MATCH - 1
    else
      b.tokens == a.tokens + Owed(a) && b.str == a.str + 1 && b.available && b.match0.len == f.len
  }

  /** The byte owed. */
  function Owed(a: View): seq<Token> {
    if a.available && 0 < a.Here() <= |a.log| then [Lit(a.log[a.Here() - 1])] else []
  }

  /** fill_window: input moves into the window, which may slide, and the strings that lacked bytes go on record. */
  ghost predicate FillStep(a: View, b: View) {
    a.ahead < MIN_LOOKAHEAD && b.Sound() && b.l == a.l && b.lazy == a.lazy && b.filtered == a.filtered && b.tokens == a.tokens && b.available == a.available
    && a.log <= b.log && b.log + b.nextIn == a.log + a.nextIn && b.Here() == a.Here() && (b.ahead >= MIN_LOOKAHEAD || b.nextIn == [])
    && b.c.base >= a.c.base && b.match0 == Found(a.match0.len, (a.match0.start - (b.c.base - a.c.base)) % UINT)
    && b.insert <= a.insert && b.c.ins == a.c.ins + Strings(a.Here() - a.insert, b.Here() - b.insert)
    && (b.insert == 0 || b.Here() - b.insert + MIN_MATCH > |b.log|)
  }

  /** The end of a block: a byte owed goes out, and up to two strings are left for later. */
  ghost predicate LastStep(a: View, b: View) {
    a.ahead == 0 && a.nextIn == []
    && b == a.(tokens := a.tokens + Owed(a), available := false, insert := if a.str < MIN_MATCH - 1 then a.str else MIN_MATCH - 1)
  }

  /** What the loops do from one view to the next. */
  ghost predicate Next(slow: bool, flushing: bool, a: View, b: View) {
    FillStep(a, b) || LastStep(a, b) || ((flushing || a.ahead >= MIN_LOOKAHEAD) && if slow then SlowStep(a, b) else FastStep(a, b))
  }

  ghost predicate Steps(slow: bool, flushing: bool, run: seq<View>) {
    |run| > 0 && forall i :: 0 <= i < |run| - 1 ==> Next(slow, flushing, run[i], run[i + 1])
  }

  lemma IsStep(slow: bool, flushing: bool, a: View, b: View)
    ensures FillStep(a, b) || LastStep(a, b) ==> Next(slow, flushing, a, b)
    ensures (flushing || a.ahead >= MIN_LOOKAHEAD) && (slow ==> SlowStep(a, b)) && (!slow ==> FastStep(a, b)) ==> Next(slow, flushing, a, b)
  {
    hide FillStep, LastStep, SlowStep, FastStep;
  }

  lemma StepsMore(slow: bool, flushing: bool, run: seq<View>, b: View)
    requires |run| > 0 && Steps(slow, flushing, run) && Next(slow, flushing, run[|run| - 1], b)
    ensures Steps(slow, flushing, run + [b])
  {
    hide Next;
  }

  /** Input is kept, and tokens stay. */
  ghost predicate Continues(a: View, b: View) {
    a.log <= b.log && b.log + b.nextIn == a.log + a.nextIn && a.tokens <= b.tokens
  }

  lemma StepContinues(slow: bool, flushing: bool, first: View, a: View, b: View)
    requires Continues(first, a) && Next(slow, flushing, a, b)
    ensures Continues(first, b)
  {
    hide View.Searchable, View.Sound, Lazily, Greedily, Strings;
  }

  /** A string on record at p with the hash h. */
  ghost predicate Listed(c: Chains, log: seq<byte>, h: int, p: int) {
    c.Shape() && c.Inserted(log) && c.At(p) && HashAt(log, c.base + p, c.bits) == h
  }

  /** All of them above low, up to high, are among the candidates. */
  ghost predicate NoneLeftOut(c: Chains, log: seq<byte>, h: int, cands: seq<int>, low: int, high: int) {
    forall p :: low < p <= high && Listed(c, log, h, p) ==> p in cands
  }

  ghost predicate NearestFirst(cands: seq<int>) {
    forall i, j :: 0 <= i < j < |cands| ==> cands[j] < cands[i]
  }

  ghost predicate AllListed(c: Chains, log: seq<byte>, h: int, cands: seq<int>, low: int) {
    forall i :: 0 <= i < |cands| ==> low <= cands[i] && Listed(c, log, h, cands[i])
  }

  /** The candidates are strings on record with the hash of the one at str, the nearest first; and all of those above the limit,
      unless there are more than the chain length. */
  lemma {:induction false} VisitedAll(c: Chains, log: seq<byte>, h: int, cur: int, limit: nat, n: nat) returns (cands: seq<int>)
    requires c.Sound(log) && Listed(c, log, h, cur) && c.base + limit + c.w >= c.top && limit <= cur && n > 0
    ensures |c.prev| > 0 && cands == Visited(c.prev, cur, limit, n) && 0 < |cands| <= n && cands[0] == cur
    ensures AllListed(c, log, h, cands, limit) && NearestFirst(cands)
    ensures NoneLeftOut(c, log, h, cands, if |cands| < n then limit else cands[|cands| - 1], cur)
    decreases n
  {
    hide HashAt, Chains.Sound, Chains.Newest, Bits, HashSize, AllListed, NearestFirst, NoneLeftOut;
    var q := ListedLink(c, log, h, cur);
    cands := Visited(c.prev, cur, limit, n);
    if q <= limit || n == 1 {
      assert cands == [cur];
      OneCandidate(c, log, h, cur, q, limit);
    } else {
      var rest := VisitedAll(c, log, h, q, limit, n - 1);
      OneMore(c, log, h, cur, q, rest, limit, if |rest| < n - 1 then limit else rest[|rest| - 1]);
    }
  }

  lemma ListedLink(c: Chains, log: seq<byte>, h: int, cur: int) returns (q: int)
    requires c.Sound(log) && Listed(c, log, h, cur) && c.base + cur + c.w >= c.top
    ensures |c.prev| == c.w > 0 && q == c.prev[cur % c.w] < cur && c.Shape() && c.Inserted(log) && c.Newest(log, h, cur, q) && (q != NIL ==> Listed(c, log, h, q)) && q >= NIL
  {
    hide HashAt;
    Follow(c, log, cur);
    q := c.prev[cur % c.w];
  }

  lemma OneCandidate(c: Chains, log: seq<byte>, h: int, cur: int, q: int, limit: nat)
    requires c.Shape() && c.Inserted(log) && Listed(c, log, h, cur) && c.Newest(log, h, cur, q) && limit <= cur
    ensures AllListed(c, log, h, [cur], limit) && NearestFirst([cur]) && NoneLeftOut(c, log, h, [cur], cur, cur)
    ensures q <= limit ==> NoneLeftOut(c, log, h, [cur], limit, cur)
  {
    hide HashAt;
  }

  lemma OneMore(c: Chains, log: seq<byte>, h: int, cur: int, q: int, rest: seq<int>, limit: nat, low: int)
    requires c.Shape() && c.Inserted(log) && Listed(c, log, h, cur) && c.Newest(log, h, cur, q) && limit <= cur && q < cur
    requires AllListed(c, log, h, rest, limit) && NearestFirst(rest) && NoneLeftOut(c, log, h, rest, low, q) && rest != [] && rest[0] == q
    ensures AllListed(c, log, h, [cur] + rest, limit) && NearestFirst([cur] + rest) && NoneLeftOut(c, log, h, [cur] + rest, low, cur)
  {
    hide HashAt;
    var cands := [cur] + rest;
    forall p | low < p <= cur && Listed(c, log, h, p) ensures p in cands {
      if p != cur && p <= q { assert p in rest; } else { assert cands[0] == cur; }
    }
    forall i, j | 0 <= i < j < |cands| ensures cands[j] < cands[i] {
      assert cands[j] == rest[j - 1] <= rest[0];
    }
  }

  /** What a search goes through, in the stream: the strings on record with the hash of the one at str that are near enough, the
      nearest first, none left out, up to the chain length. */
  lemma CandidatesAre(v: View, least: nat)
    requires v.Sound() && v.Seeks() && v.l.dist < v.c.w
    ensures v.c.Shape() && v.Here() + 3 <= |v.log| && 0 <= v.Here()
    ensures var cands, h, low, n := v.Candidates(least), HashAt(v.log, v.Here(), v.c.bits), Floor(v.l, v.str), Chain(v.l, least);
            && 0 < |cands| <= n && AllListed(v.Entered(), v.log, h, cands, low) && NearestFirst(cands)
            && NoneLeftOut(v.Entered(), v.log, h, cands, if |cands| < n then low else cands[|cands| - 1], v.str - 1)
  {
    var h, low, n := HashAt(v.log, v.Here(), v.c.bits), Floor(v.l, v.str), Chain(v.l, least);
    var d, q := v.Entered(), v.Newest();
    var _ := NewestListed(v, h);
    hide *;
    var cands := VisitedAll(d, v.log, h, q, low, n);
    UpToHere(d, v.log, h, cands, if |cands| < n then low else cands[|cands| - 1], q, v.str);
  }

  lemma NewestListed(v: View, h: int) returns (q: int)
    requires v.Sound() && v.Seeks() && v.l.dist < v.c.w && h == HashAt(v.log, v.Here(), v.c.bits)
    ensures var d := v.Entered(); q == v.Newest() && Listed(d, v.log, h, q) && d.Sound(v.log) && d.Shape() && d.Inserted(v.log) && d.Newest(v.log, h, v.str, q)
    ensures v.Entered().base + Floor(v.l, v.str) + v.Entered().w >= v.Entered().top && Floor(v.l, v.str) <= q
  {
    hide HashAt, Chains.Newest, Stored, Insert;
    InsertSound(v.c, v.log, v.str, h);
    HeadEntry(v.c, v.log, v.str, h);
    hide Chains.Sound, Entering;
    HeadIsNewest(v, h);
    EnteredAt(v, h);
    q := ListedLink(v.Entered(), v.log, h, v.str);
  }

  lemma HeadIsNewest(v: View, h: int)
    requires v.Sound() && v.ahead >= MIN_MATCH && h == HashAt(v.log, v.Here(), v.c.bits) && 0 <= h < |v.c.head|
    ensures v.Newest() == v.c.head[h] && v.Entered() == Insert(v.c, v.str, h)
  {
    hide HashAt, Chains.HeadsOk, Chains.LinksOk, Stored;
  }

  lemma EnteredAt(v: View, h: int)
    requires v.Sound() && v.ahead >= MIN_MATCH && v.str > 0 && h == HashAt(v.log, v.Here(), v.c.bits) && v.Entered().Sound(v.log)
    ensures var d := v.Entered(); Listed(d, v.log, h, v.str) && d.w == v.c.w && d.base == v.c.base && d.top == v.Here() + 1
  {
    hide HashAt, Chains.HeadsOk, Chains.LinksOk, Stored;
  }

  lemma UpToHere(d: Chains, log: seq<byte>, h: int, cands: seq<int>, low: int, q: int, x: int)
    requires d.Shape() && d.Inserted(log) && d.Newest(log, h, x, q) && NoneLeftOut(d, log, h, cands, low, q)
    ensures NoneLeftOut(d, log, h, cands, low, x - 1)
  {
    hide HashAt;
  }

  /** A search finds as much as any candidate it looks at has in common with the string at str, as far as that is ahead; it looks at
      all of them unless one is of nice length. */
  lemma SearchIsLongest(v: View, best: Found) returns (n: nat)
    requires v.Searchable(best.len) && v.Seeks()
    ensures n <= |v.Candidates(best.len)|
    ensures forall i :: 0 <= i < n ==> var m := v.Candidates(best.len)[i];
                                       Within(v.window, v.str, m) && (Alike(v.window, v.str, m) <= v.Search(best).len || v.Search(best).len == v.ahead)
    ensures n < |v.Candidates(best.len)| ==> v.Search(best).len >= v.l.nice || v.Search(best).len == v.ahead
    ensures v.Search(best).len > best.len ==> exists i :: 0 <= i < n && var m := v.Candidates(best.len)[i];
                                                                        Within(v.window, v.str, m) && m == v.Search(best).start && Alike(v.window, v.str, m) >= v.Search(best).len
  {
    var cands, nice := v.Candidates(best.len), if v.l.nice > v.ahead then v.ahead else v.l.nice;
    hide Alike, Chains.Sound, Looked;
    n := PickIsLongest(v.window, v.str, cands, best, nice);
  }

  /** A search that comes to less than three bytes left no candidate with three: no literal is taken where a match was to be found. */
  lemma NoMatchMissed(v: View, best: Found)
    requires v.Searchable(best.len) && v.Seeks() && best.len == MIN_MATCH - 1 && v.Search(best).len < MIN_MATCH <= v.ahead
    ensures forall m :: m in v.Candidates(best.len) ==> Within(v.window, v.str, m) && Alike(v.window, v.str, m) < MIN_MATCH
  {
    var cands, nice := v.Candidates(best.len), if v.l.nice > v.ahead then v.ahead else v.l.nice;
    hide Alike, Chains.Sound, Looked;
    var n := PickIsLongest(v.window, v.str, cands, best, nice);
    forall m | m in cands ensures Within(v.window, v.str, m) && Alike(v.window, v.str, m) < MIN_MATCH {
      var i :| 0 <= i < |cands| && cands[i] == m;
    }
  }

  /** deflate_fast takes a literal only if no candidate has three bytes in common. */
  lemma LiteralWithoutMatch(a: View, b: View)
    requires FastStep(a, b) && b.tokens == a.tokens + [Lit(a.log[a.Here()])] && a.Seeks()
    ensures forall m :: m in a.Candidates(MIN_MATCH - 1) ==> Within(a.window, a.str, m) && Alike(a.window, a.str, m) < MIN_MATCH
  {
    hide Alike, Chains.Sound, Stored, Longest, Looked, Strings;
    var f := Greedily(a);
    assert b.tokens[|a.tokens|] == Lit(a.log[a.Here()]);
    assert f.len < MIN_MATCH;
    NoMatchMissed(a, Found(MIN_MATCH - 1, a.match0.start));
  }

  /** deflate_slow comes to nothing at str only if no candidate has three bytes in common, or the match found is too short to be kept. */
  lemma NothingKept(a: View)
    requires a.Searchable(a.match0.len) && a.Seeks() && a.match0.len == MIN_MATCH - 1 < a.lazy && Lazily(a).len < MIN_MATCH
    ensures (forall m :: m in a.Candidates(a.match0.len) ==> Within(a.window, a.str, m) && Alike(a.window, a.str, m) < MIN_MATCH)
            || (var f := a.Search(a.match0); MIN_MATCH <= f.len <= 5 && (a.filtered || (f.len == MIN_MATCH && (a.str - f.start) % UINT > TOO_FAR)))
  {
    hide Alike, Chains.Sound, Stored, Longest, Looked, Strings;
    if a.Search(a.match0).len < MIN_MATCH { NoMatchMissed(a, a.match0); }
  }

  // ---- what lies in the window beyond the data does not matter ----

  /** Two windows with the same n bytes in front. */
  predicate SameFront(u: seq<byte>, w: seq<byte>, n: int) {
    |u| == |w| && 0 <= n <= |u| && u[..n] == w[..n]
  }

  /** What m and a have in common, as far as the data go. */
  lemma {:induction false} AlikeInData(u: seq<byte>, w: seq<byte>, a: nat, m: int, ahead: nat, k: nat)
    requires SameFront(u, w, a + ahead) && Within(u, a, m) && k <= MAX_MATCH
    ensures Within(w, a, m) && (AlikeFrom(u, a, m, k) == AlikeFrom(w, a, m, k) || (AlikeFrom(u, a, m, k) >= ahead && AlikeFrom(w, a, m, k) >= ahead))
    decreases MAX_MATCH - k
  {
    if k < MAX_MATCH && k < ahead {
      assert u[..a + ahead][a + k] == w[..a + ahead][a + k] && u[..a + ahead][m + k] == w[..a + ahead][m + k];
      AlikeInData(u, w, a, m, ahead, k + 1);
    }
  }

  function Cut(f: Found, ahead: nat): Found {
    if f.len <= ahead then f else Found(ahead, f.start)
  }

  /** Going through candidates, the first that reaches the end of the data ends the search. */
  lemma {:induction false} PickInData(u: seq<byte>, w: seq<byte>, a: nat, ahead: nat, cands: seq<int>, best: Found, nice: nat)
    requires SameFront(u, w, a + ahead) && AllWithin(u, a, cands) && AllWithin(w, a, cands) && best.len < ahead && nice <= ahead
    ensures Cut(Pick(u, a, cands, best, nice), ahead) == Cut(Pick(w, a, cands, best, nice), ahead)
  {
    if cands != [] {
      assert cands == [cands[0]] + cands[1..];
      hide Pick;
      PickStep(u, a, cands[0], cands[1..], best, nice);
      PickStep(w, a, cands[0], cands[1..], best, nice);
      AlikeInData(u, w, a, cands[0], ahead, 0);
      var len := Alike(u, a, cands[0]);
      if len <= best.len {
        PickInData(u, w, a, ahead, cands[1..], best, nice);
      } else if len < nice {
        PickInData(u, w, a, ahead, cands[1..], Found(len, cands[0]), nice);
      }
    }
  }

  /** The same view over another window. */
  predicate SameButTail(a: View, b: View) {
    b == a.(window := b.window) && SameFront(a.window, b.window, a.str + a.ahead)
  }

  /** A search comes to the same, but for the place where nothing longer than what is ahead could be found. */
  lemma SearchInData(a: View, b: View, best: Found)
    requires SameButTail(a, b) && a.Searchable(best.len) && b.Searchable(best.len)
    ensures a.Seeks() == b.Seeks()
    ensures a.Seeks() ==> if best.len < a.ahead then a.Search(best) == b.Search(best) else a.Search(best).len == b.Search(best).len == a.ahead
  {
    if a.Seeks() {
      var cands, nice := a.Candidates(best.len), if a.l.nice > a.ahead then a.ahead else a.l.nice;
      hide Alike, Chains.Sound, Stored, Looked, Pick, SameFront;
      if best.len < a.ahead {
        PickInData(a.window, b.window, a.str, a.ahead, cands, best, nice);
      } else {
        var _ := PickIsLongest(a.window, a.str, cands, best, nice);
        var _ := PickIsLongest(b.window, b.str, cands, best, nice);
      }
    }
  }

  /** The output of both matchers is not affected by the bytes of the window beyond the data. */
  lemma FastInData(a: View, a': View, b: View, b': View)
    requires SameButTail(a, a') && FastStep(a, b) && FastStep(a', b')
    ensures b'.tokens == b.tokens && b'.str == b.str && b'.match0 == b.match0 && b'.c.ins == b.c.ins
  {
    hide Chains.Sound, Stored, View.Search, View.Seeks, Strings, SameFront;
    SearchInData(a, a', Found(MIN_MATCH - 1, a.match0.start));
    if a.Seeks() { SeekingIsAhead(a); }
  }

  lemma SeekingIsAhead(a: View)
    requires a.Sound() && a.Seeks()
    ensures a.ahead >= MIN_MATCH
  {
  }

  lemma SlowInData(a: View, a': View, b: View, b': View)
    requires SameButTail(a, a') && SlowStep(a, b) && SlowStep(a', b')
    ensures b'.tokens == b.tokens && b'.str == b.str && b'.available == b.available && b'.match0.len == b.match0.len && b'.c.ins == b.c.ins
    ensures b.match0.len >= MIN_MATCH ==> b'.match0 == b.match0
  {
    hide Chains.Sound, Stored, View.Search, View.Seeks, Strings, SameFront;
    SearchInData(a, a', a.match0);
    if a.Seeks() { SeekingIsAhead(a); }
  }
}
