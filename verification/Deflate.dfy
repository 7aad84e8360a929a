/** The sliding-window matcher of deflate.c: filling and sliding the window, the hash index, longest_match, and the fast and the
    lazy match loops. Tokens are kept in a ghost log, positions are also counted from the beginning of the stream. */
module Deflate {
  import opened Lz77
  import opened DeflateHash
  import opened HashChains
  import opened MatchSearch
  import opened MatchSteps
  import Common

  datatype Flush = NoFlush | SyncFlush | Finish

  datatype BlockState = NeedMore | BlockDone | FinishStarted | FinishDone

  /** The len bytes at m also stand at a, further on. */
  ghost predicate MatchAt(log: seq<byte>, a: int, m: int, len: int) {
    0 <= m < a && 0 <= len && a + len <= |log| && forall x, y :: a <= x < a + len && y == x - (a - m) ==> log[x] == log[y]
  }

  lemma MatchGrows(log: seq<byte>, more: seq<byte>, a: int, m: int, len: int)
    requires MatchAt(log, a, m, len)
    ensures MatchAt(log + more, a, m, len)
  {
  }

  /** A literal and a match token each carry the expansion on. */
  lemma LiteralStep(ts: seq<Token>, log: seq<byte>, a: nat)
    requires a < |log| && Expand(ts) == log[..a]
    ensures Expand(ts + [Lit(log[a])]) == log[..a + 1]
  {
    ExpandAppend(ts, Lit(log[a]));
  }

  lemma MatchStep(ts: seq<Token>, log: seq<byte>, a: nat, m: nat, len: nat)
    requires MatchAt(log, a, m, len) && Expand(ts) == log[..a]
    ensures Expand(ts + [Match(a - m, len)]) == log[..a + len]
  {
    ExpandAppend(ts, Match(a - m, len));
    CopyGoesOn(log, a, a - m, len);
  }

  /** Tokens a decoder accepts: no match longer or further back than the format allows, or further back than the beginning. */
  ghost predicate Legal(ts: seq<Token>) {
    forall i :: 0 <= i < |ts| ==> LegalAt(ts, i)
  }

  ghost predicate LegalAt(ts: seq<Token>, i: nat)
    requires i < |ts|
  {
    ts[i].Match? ==> 1 <= ts[i].dist <= 32768 && ts[i].dist <= |Expand(ts[..i])| && 3 <= ts[i].len <= 258
  }

  lemma LegalMore(ts: seq<Token>, t: Token)
    requires Legal(ts) && (t.Match? ==> 1 <= t.dist <= 32768 && t.dist <= |Expand(ts)| && 3 <= t.len <= 258)
    ensures Legal(ts + [t])
  {
    var us := ts + [t];
    forall i | 0 <= i < |us| ensures LegalAt(us, i) {
      hide Expand;
      if i < |ts| {
        assert LegalAt(ts, i) && us[i] == ts[i] && us[..i] == ts[..i];
      } else {
        assert us[..i] == ts;
      }
    }
  }

  class Matcher {
    const wSize: nat
    const hashBits: nat
    const window: array<byte>
    const head: array<int>
    const prev: array<int>
    const goodMatch: nat
    const niceMatch: nat
    const maxChainLength: nat
    const maxLazyMatch: nat
    const filtered: bool
    var strstart: nat
    var lookahead: nat
    var matchStart: nat
    var matchLength: nat
    var prevLength: nat
    var prevMatch: nat
    var matchAvailable: bool
    var insH: bv32
    var insert: nat
    /** What the caller has still to give. */
    var nextIn: seq<byte>
    /** All bytes read so far; the window begins at byte base of them and holds held bytes. */
    ghost var log: seq<byte>
    ghost var base: nat
    ghost var held: nat
    /** Absolute positions on record, all below top. */
    ghost var top: int
    ghost var ins: set<int>
    ghost var tokens: seq<Token>
    /** Absolute start of the current match. */
    ghost var matchAbs: int

    ghost function Record(): Chains
      reads `base, `top, `ins, head, prev
    {
      Chains(head[..], prev[..], wSize, hashBits, base, top, ins)
    }

    /** The state between turns. */
    ghost function Now(): View
      reads this, window, head, prev
    {
      View(Bounds(), maxLazyMatch, filtered, window[..], Record(), log, nextIn, strstart, lookahead, insert, Found(matchLength, matchStart), matchAvailable, tokens)
    }

    function MaxDist(): int {
      wSize - MIN_LOOKAHEAD
    }

    ghost predicate Shape() {
      512 <= wSize <= 32768 && window.Length == 2 * wSize && prev.Length == wSize && Bits(hashBits) && head.Length == HashSize(hashBits) && head != prev
      && window as object != head as object && window as object != prev as object && maxChainLength < UINT
    }

    /** The window holds the end of the stream and the index is sound. */
    ghost predicate Core()
      reads `held, `log, `base, `top, `ins, window, head, prev
    {
      Shape() && held <= 2 * wSize && base + held == |log| && Stored(window[..], log, base, held) && Record().Sound(log) && (top == 0 || top + 2 <= |log|)
    }

    /** Where the stream stands at strstart. */
    ghost function Here(): nat
      reads `base, `strstart
    {
      base + strstart
    }

    /** The insert strings before strstart are not on record yet, as none of them has three bytes; with three bytes ahead the hash is
        ready. */
    ghost predicate Ready()
      reads `held, `strstart, `log, `base, `top, `ins, `insert, `insH, window, head, prev
    {
      Core() && insert <= strstart <= held && top <= Here() - insert && Late()
      && (strstart + MIN_MATCH <= held ==> Primed(insH, window[strstart], window[strstart + 1], hashBits))
    }

    /** The string at strstart is on record if it has three bytes, and insH is its hash. */
    ghost predicate Entered()
      reads `held, `strstart, `log, `base, `top, `ins, `insert, `insH, window, head, prev
    {
      Core() && insert <= strstart <= held && top <= Here() + 1 - insert && Late()
      && (strstart + MIN_MATCH <= held ==> insH == Hash3(window[strstart], window[strstart + 1], window[strstart + 2], hashBits))
    }

    ghost predicate Late()
      reads `insert, `strstart, `held
    {
      insert < MIN_MATCH && (strstart - insert + MIN_MATCH <= held ==> insert == 0)
    }

    /** Between turns all that is held from strstart on lies ahead. */
    ghost predicate Rest()
      reads `strstart, `lookahead, `held, `log, `base, `top, `ins, `insert, `insH, window, head, prev
    {
      Ready() && strstart + lookahead == held
    }

    /** INSERT_STRING. */
    method InsertString(str: nat) returns (hashHead: int)
      requires Core() && top <= base + str && str + 3 <= held && Primed(insH, window[str], window[str + 1], hashBits)
      modifies head, prev, `insH, `top, `ins
      ensures Core() && hashHead == prev[str % wSize] && top == base + str + 1 && ins == old(ins) + {base + str}
      ensures old(Record()).Shape() && base + str + 3 <= |log| && Record() == Entering(old(Record()), log, str)
      ensures insH == Hash3(window[str], window[str + 1], window[str + 2], hashBits)
      ensures hashHead == NIL || (0 < hashHead < str && base + hashHead in ins && base + hashHead + 3 <= |log| && base + str + 3 <= |log|
                                  && HashAt(log, base + hashHead, hashBits) == HashAt(log, base + str, hashBits))
    {
      hide Hash3, Primed, UpdateHash, Chains.Sound, HashAt, Index, Stored;
      ghost var c := Record();
      HashReady(window[..], log, base, held, str, insH, hashBits);
      ghost var h := HashAt(log, base + str, hashBits);
      HeadEntry(c, log, str, h);
      InsertSound(c, log, str, h);
      SoundRanges(c, log);
      insH := UpdateHash(insH, window[str + 2], hashBits);
      var i := Index(insH);
      hashHead := head[i];
      prev[str % wSize] := hashHead;
      head[i] := str;
      top := base + str + 1;
      ins := ins + {base + str};
      assert head[..] == c.head[h := str] && prev[..] == c.prev[str % wSize := c.head[h]];
      assert Record() == Insert(c, str, h);
    }

    /** lm_init, for any window size from 512 to 32768 and any of the configurations. */
    constructor (wSize: nat, hashBits: nat, goodMatch: nat, niceMatch: nat, maxChainLength: nat, maxLazyMatch: nat, filtered: bool)
      requires 512 <= wSize <= 32768 && Bits(hashBits) && maxChainLength < UINT
      ensures Rest() && Tracks() && Lazy() && Greedy() && log == [] && nextIn == [] && tokens == []
    {
      this.wSize, this.hashBits, this.goodMatch, this.niceMatch := wSize, hashBits, goodMatch, niceMatch;
      this.maxChainLength, this.maxLazyMatch, this.filtered := maxChainLength, maxLazyMatch, filtered;
      window := new byte[2 * wSize];
      prev := new int[wSize];
      head := new int[HashSize(hashBits)](_ => NIL);
      strstart, lookahead, insert, matchLength, prevLength, matchAvailable, insH := 0, 0, 0, MIN_MATCH - 1, MIN_MATCH - 1, false, 0;
      matchStart, prevMatch, nextIn := 0, 0, [];
      log, base, held, top, ins, tokens, matchAbs := [], 0, 0, 0, {}, [], 0;
      new;
      EmptySound(Record(), log);
    }

    /** The caller hands over more input. */
    method Feed(bytes: seq<byte>)
      requires Rest()
      modifies `nextIn
      ensures Rest() && nextIn == old(nextIn) + bytes
    {
      nextIn := nextIn + bytes;
    }

    // ---- longest_match ----

    /** A usable match at absolute position a. */
    ghost predicate Usable(a: int, m: int, len: nat)
      reads `log
    {
      MIN_MATCH <= len <= MAX_MATCH && 0 <= m && 1 <= a - m <= MaxDist() && a + len <= |log| && MatchAt(log, a, m, len)
    }

    /** A candidate: an older string on record with the hash of the string at strstart, not too far back. */
    ghost predicate Candidate(p: int)
      reads `strstart, `base, `ins, `log
      requires Bits(hashBits)
    {
      0 < p < strstart && strstart - p <= MaxDist() && base + p in ins && base + p + 3 <= |log| && Here() + 3 <= |log|
      && HashAt(log, base + p, hashBits) == HashAt(log, Here(), hashBits)
    }

    /** Length of the common beginning of the strings at a and at m, at most MAX_MATCH; three bytes are known equal. */
    method Compare(a: nat, m: nat) returns (len: nat)
      requires a + MAX_MATCH < window.Length && Agree(window[..], a, m, 3)
      ensures 3 <= len <= MAX_MATCH && Agree(window[..], a, m, len)
      ensures len < MAX_MATCH ==> window[a + len] != window[m + len]
    {
      var scan, mat, strend := a + 2, m + 2, a + MAX_MATCH;
      while true
        invariant a + 2 <= scan < strend && mat == scan - (a - m) && Agree(window[..], a, m, scan - a + 1)
        decreases strend - scan
      {
        scan, mat := scan + 1, mat + 1;
        if window[scan] != window[mat] || scan >= strend { break; }
        AgreeMore(window[..], a, m, scan - a);
      }
      len := MAX_MATCH - (strend - scan);
    }

    /** Looks at one candidate. */
    method TryMatch(cur: nat, bestLen: nat, nice: nat) returns (best: nat, stop: bool)
      requires Core() && strstart <= 2 * wSize - MIN_LOOKAHEAD && strstart + MIN_MATCH <= held && 1 <= bestLen <= MAX_MATCH && Candidate(cur)
      modifies `matchStart, `matchAbs
      ensures bestLen <= best <= MAX_MATCH && Within(window[..], strstart, cur)
      ensures var len := Alike(window[..], strstart, cur);
              if len > bestLen then best == len && matchStart == cur && (stop <==> len >= nice) else best == bestLen && !stop
      ensures best == bestLen ==> matchStart == old(matchStart) && matchAbs == old(matchAbs)
      ensures best > bestLen ==> matchStart == cur && matchAbs == base + cur && 3 <= best && Agree(window[..], strstart, cur, best)
    {
      best, stop := bestLen, false;
      hide Chains.Sound, HashAt, Stored, Agree, Alike;
      CandidateBefore(cur);
      QuickCheck(cur, bestLen);
      if window[cur + best] == window[strstart + best] && window[cur + best - 1] == window[strstart + best - 1]
         && window[cur] == window[strstart] && window[cur + 1] == window[strstart + 1] {
        ThreeAgree(window[..], log, base, held, strstart, cur, hashBits);
        var len := Compare(strstart, cur);
        ComparedIs(window[..], strstart, cur, len);
        if len > best {
          matchStart := cur;
          matchAbs := base + cur;
          best := len;
          stop := len >= nice;
        }
      }
    }

    /** A candidate that fails one of the four quick checks has nothing longer to offer. */
    lemma QuickCheck(cur: nat, best: nat)
      requires Shape() && 0 < cur < strstart <= 2 * wSize - MIN_LOOKAHEAD && 1 <= best <= MAX_MATCH
      ensures Within(window[..], strstart, cur)
      ensures (window[cur + best] != window[strstart + best] || window[cur + best - 1] != window[strstart + best - 1]
               || window[cur] != window[strstart] || window[cur + 1] != window[strstart + 1]) ==> Alike(window[..], strstart, cur) <= best
    {
      var w := window[..];
      if w[cur + best] != w[strstart + best] { AlikeBelow(w, strstart, cur, best); }
      if w[cur + best - 1] != w[strstart + best - 1] { AlikeBelow(w, strstart, cur, best - 1); }
      if w[cur] != w[strstart] { AlikeBelow(w, strstart, cur, 0); }
      if w[cur + 1] != w[strstart + 1] { AlikeBelow(w, strstart, cur, 1); }
    }

    function Bounds(): Limits {
      Limits(goodMatch, niceMatch, maxChainLength, if wSize >= MIN_LOOKAHEAD then wSize - MIN_LOOKAHEAD else 0)
    }

    lemma CandidateBefore(p: int)
      requires Bits(hashBits) && Candidate(p)
      ensures 0 < p < strstart && strstart - p <= MaxDist()
    {
    }

    /** The link of a candidate leads to a candidate, unless it leads too far back. */
    lemma NextCandidate(p: int)
      requires Core() && Candidate(p) && top == Here() + 1
      ensures var q := prev[p % wSize]; q > 0 && strstart - q <= MaxDist() ==> Candidate(q)
      ensures 0 <= prev[p % wSize] < p
    {
      hide HashAt, Chains.Sound;
      Follow(Record(), log, p);
      var q := prev[p % wSize];
      if q > 0 { LinkRanges(Record(), log, q); }
    }

    /** All that is visited from a candidate are candidates. */
    lemma {:induction false} VisitedAreCandidates(cur: int, limit: nat, n: nat)
      requires Core() && Candidate(cur) && top == Here() + 1 && n > 0 && limit == Floor(Bounds(), strstart)
      ensures |prev[..]| > 0 && forall i :: 0 <= i < |Visited(prev[..], cur, limit, n)| ==> Candidate(Visited(prev[..], cur, limit, n)[i])
      decreases n
    {
      hide HashAt, Chains.Sound, Stored, Candidate;
      var q, p := prev[cur % wSize], prev[..];
      CandidateBefore(cur);
      NextCandidate(cur);
      var v := Visited(p, cur, limit, n);
      if !(q <= limit || n == 1) {
        VisitedAreCandidates(q, limit, n - 1);
        forall i | 0 <= i < |v| ensures Candidate(v[i]) { if i > 0 { assert v[i] == Visited(p, q, limit, n - 1)[i - 1]; } }
      }
    }

    lemma LookedWithin(cur: int, prevLength: nat)
      requires Core() && Candidate(cur) && top == Here() + 1 && strstart <= 2 * wSize - MIN_LOOKAHEAD
      ensures |prev[..]| > 0 && AllWithin(window[..], strstart, Looked(prev[..], strstart, cur, prevLength, Bounds()))
    {
      VisitedAreCandidates(cur, Floor(Bounds(), strstart), Chain(Bounds(), prevLength));
      hide HashAt, Chains.Sound, Stored, Visited;
    }

    /** longest_match: the first of the longest matches among the candidates visited. */
    method LongestMatch(curMatch0: nat) returns (len: nat)
      requires Core() && strstart <= 2 * wSize - MIN_LOOKAHEAD && strstart + lookahead == held && lookahead >= MIN_MATCH && 1 <= prevLength <= MAX_MATCH
      requires Candidate(curMatch0) && top == Here() + 1
      modifies `matchStart, `matchAbs
      ensures len <= lookahead && len <= MAX_MATCH && (len >= prevLength || len == lookahead)
      ensures (matchStart == old(matchStart) && matchAbs == old(matchAbs)) || (0 < matchStart < strstart && matchAbs == base + matchStart)
      ensures len > prevLength && len >= MIN_MATCH ==> matchAbs == base + matchStart && Usable(Here(), matchAbs, len)
      ensures |prev[..]| > 0 && AllWithin(window[..], strstart, Looked(prev[..], strstart, curMatch0, prevLength, Bounds()))
      ensures Found(len, matchStart) == Longest(window[..], prev[..], strstart, lookahead, curMatch0, Found(prevLength, old(matchStart)), Bounds())
    {
      hide *;
      LookedWithin(curMatch0, prevLength);
      MatchShape();
      var chainLength := maxChainLength;
      var limit := if strstart > MaxDist() then strstart - MaxDist() else NIL;
      if prevLength >= goodMatch { chainLength := chainLength / 4; }
      var nice := if niceMatch > lookahead then lookahead else niceMatch;
      ghost var first := Found(prevLength, matchStart);
      ghost var goal := Pick(window[..], strstart, Looked(prev[..], strstart, curMatch0, prevLength, Bounds()), first, nice);
      BoundsAre(prevLength);
      LookedIs(prev[..], strstart, curMatch0, prevLength, Bounds());
      GoalIs(window[..], strstart, prev[..], curMatch0, limit, if chainLength == 0 then UINT else chainLength, first, nice, goal);
      var bestLen := SearchChain(curMatch0, chainLength, limit, nice, goal);
      LongestIs(window[..], prev[..], strstart, lookahead, curMatch0, first, Bounds(), goal);
      len := if bestLen <= lookahead then bestLen else lookahead;
      if bestLen > prevLength { FoundUsable(bestLen, len); }
    }

    lemma MatchShape()
      requires Core()
      ensures Shape() && MaxDist() == wSize - MIN_LOOKAHEAD > 0 && maxChainLength < UINT && 2 * wSize < UINT && MIN_LOOKAHEAD == 262 && NIL == 0 && MAX_MATCH == 258 && MIN_MATCH == 3
    {
    }

    lemma BoundsAre(prevLength: nat)
      requires Shape()
      ensures Bounds().nice == niceMatch
      ensures Floor(Bounds(), strstart) == if strstart > MaxDist() then strstart - MaxDist() else NIL
      ensures Chain(Bounds(), prevLength) == var c := if prevLength >= goodMatch then maxChainLength / 4 else maxChainLength; if c == 0 then UINT else c
    {
    }

    /** What was found is a match in the data. */
    lemma FoundUsable(bestLen: nat, len: nat)
      requires Core() && Kept(bestLen) && bestLen > prevLength && len <= bestLen <= MAX_MATCH && strstart + lookahead == held && len <= lookahead
      ensures matchAbs == base + matchStart && 0 < matchStart < strstart && (len >= MIN_MATCH ==> Usable(Here(), matchAbs, len))
    {
      hide Chains.Sound, Agree, MatchAt;
      MatchInData(window[..], log, base, held, strstart, matchStart, bestLen, len);
    }

    /** The best so far: the pending length, or a match. */
    ghost predicate Kept(bestLen: nat)
      reads `strstart, `prevLength, `matchStart, `matchAbs, `base, window
    {
      bestLen > prevLength ==> strstart - matchStart <= MaxDist() && matchAbs == base + matchStart && 3 <= bestLen
                               && 0 < matchStart < strstart && Agree(window[..], strstart, matchStart, bestLen)
    }

    lemma KeptStep(cur: nat, bestLen: nat)
      requires Bits(hashBits) && Candidate(cur) && matchStart == cur && matchAbs == base + cur && 3 <= bestLen && Agree(window[..], strstart, cur, bestLen)
      ensures Kept(bestLen)
    {
      hide Agree;
    }

    lemma KeptNone(bestLen: nat)
      requires bestLen <= prevLength
      ensures Kept(bestLen)
    {
    }

    /** The loop of longest_match. */
    method SearchChain(curMatch0: nat, chainLength0: nat, limit: nat, nice: nat, ghost goal: Found) returns (bestLen: nat)
      requires Core() && strstart <= 2 * wSize - MIN_LOOKAHEAD && strstart + MIN_MATCH <= held && 1 <= prevLength <= MAX_MATCH
      requires Candidate(curMatch0) && top == Here() + 1 && chainLength0 < UINT && limit == if strstart > MaxDist() then strstart - MaxDist() else NIL
      requires Goal(window[..], strstart, prev[..], curMatch0, limit, if chainLength0 == 0 then UINT else chainLength0, Found(prevLength, matchStart), nice, goal)
      modifies `matchStart, `matchAbs
      ensures prevLength <= bestLen <= MAX_MATCH && goal == Found(bestLen, matchStart) && Kept(bestLen)
      ensures bestLen == prevLength ==> matchStart == old(matchStart) && matchAbs == old(matchAbs)
    {
      hide *;
      MatchShape();
      var chainLength, curMatch := chainLength0, curMatch0;
      bestLen := prevLength;
      ghost var n := if chainLength0 == 0 then UINT else chainLength0;
      KeptNone(bestLen);
      while true
        invariant prevLength <= bestLen <= MAX_MATCH && 0 <= chainLength < UINT && n == (if chainLength == 0 then UINT else chainLength)
        invariant Goal(window[..], strstart, prev[..], curMatch, limit, n, Found(bestLen, matchStart), nice, goal)
        invariant Candidate(curMatch) && Kept(bestLen) && (bestLen == prevLength ==> matchStart == old(matchStart) && matchAbs == old(matchAbs))
        decreases curMatch
      {
        var stop;
        CandidateBefore(curMatch);
        GoalStep(window[..], strstart, prev[..], curMatch, limit, n, Found(bestLen, matchStart), nice, goal);
        ghost var was := bestLen;
        bestLen, stop := TryMatch(curMatch, bestLen, nice);
        if bestLen > was { KeptStep(curMatch, bestLen); }
        if stop { break; }
        n := n - 1;
        NextCandidate(curMatch);
        curMatch := prev[curMatch % wSize];
        if curMatch <= limit { break; }
        NearCandidate(curMatch, limit);
        var c := chainLength - 1;
        chainLength := if c < 0 then c + UINT else c;
        if chainLength == 0 { break; }
      }
    }

    lemma NearCandidate(q: nat, limit: nat)
      requires limit == if strstart > MaxDist() then strstart - MaxDist() else NIL
      requires limit < q
      ensures q > 0 && strstart - q <= MaxDist()
    {
    }

    // ---- fill_window ----

    /** The match start is kept modulo 2^32, as it may fall before the window. */
    ghost predicate Tracks()
      reads `matchStart, `matchAbs, `base
    {
      matchStart == (matchAbs - base) % UINT
    }

    /** slide_hash. */
    method SlideHash()
      requires head != prev && prev.Length == wSize
      modifies head, prev
      ensures head[..] == SlidAll(old(head[..]), wSize) && prev[..] == SlidAll(old(prev[..]), wSize)
    {
      var n := head.Length;
      while n > 0
        invariant 0 <= n <= head.Length
        invariant forall i :: 0 <= i < head.Length ==> head[i] == if i < n then old(head[i]) else HashChains.Slid(old(head[i]), wSize)
        modifies head
      {
        n := n - 1;
        var m := head[n];
        head[n] := if m >= wSize then m - wSize else NIL;
      }
      n := wSize;
      while n > 0
        invariant 0 <= n <= wSize
        invariant forall i :: 0 <= i < wSize ==> prev[i] == if i < n then old(prev[i]) else HashChains.Slid(old(prev[i]), wSize)
        modifies prev
      {
        n := n - 1;
        var m := prev[n];
        prev[n] := if m >= wSize then m - wSize else NIL;
      }
    }

    /** Moves the upper half of the window down. Nothing of the stream still in use, and no sound link, is lost. */
    method SlideWindow(more: nat)
      requires Core() && strstart >= wSize + MaxDist() && more == 2 * wSize - lookahead - strstart && Tracks() && insert <= strstart
      requires strstart + lookahead == held
      modifies window, head, prev, `strstart, `base, `held, `matchStart, `insert
      ensures Core() && Here() == old(Here()) && strstart == old(strstart) - wSize && held == strstart + lookahead && Tracks()
      ensures insert == if old(insert) > strstart then strstart else old(insert)
      ensures forall i :: 0 <= i < strstart + lookahead ==> window[i] == old(window[wSize + i])
    {
      hide Chains.Sound, Stored, Bits, HashSize;
      ghost var c, was, n := Record(), window[..], held;
      forall i | 0 <= i < wSize - more { window[i] := window[wSize + i]; }
      ShiftedDown(was, window[..], log, base, n, wSize);
      matchStart := (matchStart + UINT - wSize) % UINT;
      TrackSlide(matchAbs - base, wSize);
      strstart := strstart - wSize;
      base, held := base + wSize, held - wSize;
      if insert > strstart { insert := strstart; }
      SlideHash();
      SlideSound(c, log);
      assert Record() == Slide(c);
    }

    /** read_buf into the window behind the lookahead. */
    method ReadBuf(size: nat) returns (n: nat)
      requires Core() && size == 2 * wSize - lookahead - strstart && strstart + lookahead == held
      modifies window, `lookahead, `held, `nextIn, `log
      ensures Core() && strstart + lookahead == held && n == old(if |nextIn| > size then size else |nextIn|)
      ensures lookahead == old(lookahead) + n && nextIn == old(nextIn)[n..] && log == old(log) + old(nextIn)[..n]
      ensures forall i :: 0 <= i < strstart + old(lookahead) ==> window[i] == old(window[i])
    {
      hide Chains.Sound;
      n := |nextIn|;
      if n > size { n := size; }
      ghost var was, end, bytes := window[..], held, nextIn[..n];
      var at := strstart + lookahead;
      forall i | 0 <= i < n { window[at + i] := nextIn[i]; }
      ReadIn(was, window[..], log, base, end, bytes);
      MoreInput(Record(), log, bytes);
      nextIn := nextIn[n..];
      log := log + bytes;
      lookahead, held := lookahead + n, held + n;
    }

    /** A late string goes on record. */
    method EnterLate(str: nat)
      requires Core() && 0 < insert <= strstart && str == strstart - insert && top <= base + str && lookahead + insert >= MIN_MATCH
      requires strstart + lookahead == held && Primed(insH, window[str], window[str + 1], hashBits)
      modifies head, prev, `insH, `top, `ins, `insert
      ensures Core() && top <= base + str + 1 && insert == old(insert) - 1 && ins == old(ins) + {base + str}
      ensures Primed(insH, window[str + 1], window[str + 2], hashBits)
    {
      hide Core, Primed, Hash3, HashAt, Entering;
      CoreFacts();
      var _ := InsertString(str);
      Rolled(window[str], window[str + 1], window[str + 2], hashBits);
      insert := insert - 1;
    }

    /** Starts the hash anew at two bytes. */
    method Prime(str: nat)
      requires Shape() && str + 2 <= window.Length
      modifies `insH
      ensures Primed(insH, window[str], window[str + 1], hashBits)
    {
      hide Primed, UpdateHash;
      insH := window[str] as bv32;
      FreshHash(window[str], window[str + 1], hashBits);
      insH := UpdateHash(insH, window[str + 1], hashBits);
    }

    lemma NowRest()
      requires Core() && insert <= strstart && insert < MIN_MATCH && top <= Here() - insert && strstart + lookahead == held
      requires insert == 0 || insert + lookahead < MIN_MATCH
      requires strstart + MIN_MATCH <= held ==> Primed(insH, window[strstart], window[strstart + 1], hashBits)
      ensures Rest()
    {
      hide Core, Primed;
    }

    /** Puts the strings late on record for which there are now three bytes. */
    method StartHash()
      requires Core() && insert <= strstart && insert < MIN_MATCH && top <= Here() - insert && lookahead + insert >= MIN_MATCH && strstart + lookahead == held
      modifies head, prev, `insH, `top, `ins, `insert
      ensures Rest() && insert <= old(insert) && ins == old(ins) + Strings(Here() - old(insert), Here() - insert)
    {
      hide *;
      CoreFacts();
      MatchShape();
      HereIs();
      var str := strstart - insert;
      Prime(str);
      ghost var from := base + str;
      NoStrings(from);
      while insert > 0
        invariant Core() && 0 <= insert <= strstart && insert <= old(insert) && str == strstart - insert && top <= base + str
        invariant lookahead + insert >= MIN_MATCH && from <= base + str && ins == old(ins) + Strings(from, base + str)
        invariant Primed(insH, window[str], window[str + 1], hashBits)
        decreases insert
      {
        StringsMore(from, base + str);
        EnterLate(str);
        str := str + 1;
        if lookahead + insert < MIN_MATCH { break; }
      }
      NowRest();
    }

    lemma HereIs()
      ensures Here() == base + strstart
    {
    }

    /** The slide, keeping the state between turns. */
    method SlideIfFull()
      requires Rest() && Tracks()
      modifies window, head, prev, `strstart, `base, `held, `matchStart, `insert
      ensures Rest() && Tracks() && Here() == old(Here()) && strstart < 2 * wSize - MIN_LOOKAHEAD && (strstart > 0 <== old(strstart) > 0)
      ensures insert == old(insert) && base >= old(base)
    {
      hide Chains.Sound, Stored, Primed;
      if strstart >= wSize + MaxDist() {
        SlideWindow(2 * wSize - lookahead - strstart);
      }
    }

    /** One turn of fill_window's loop. */
    method FillOnce() returns (again: bool)
      requires Rest() && lookahead < MIN_LOOKAHEAD && Tracks()
      modifies window, head, prev, `strstart, `base, `held, `matchStart, `insert, `lookahead, `nextIn, `log, `insH, `top, `ins
      ensures Rest() && Tracks() && strstart <= 2 * wSize - MIN_LOOKAHEAD && Here() == old(Here()) && (strstart > 0 <== old(strstart) > 0)
      ensures insert <= old(insert) && base >= old(base) && ins == old(ins) + Strings(Here() - old(insert), Here() - insert)
      ensures if again then lookahead < MIN_LOOKAHEAD && |nextIn| < |old(nextIn)| else lookahead >= MIN_LOOKAHEAD || nextIn == []
      ensures old(log) <= log && log + nextIn == old(log) + old(nextIn)
    {
      hide Chains.Sound, Stored, Primed, Record;
      SlideIfFull();
      var more := 2 * wSize - lookahead - strstart;
      if nextIn == [] { return false; }
      assert more >= 2;
      ghost var before, given := log, nextIn;
      var n := ReadBuf(more);
      assert given == given[..n] + given[n..];
      assert log + nextIn == before + given;
      if lookahead + insert >= MIN_MATCH { StartHash(); }
      return lookahead < MIN_LOOKAHEAD && nextIn != [];
    }

    method FillWindow()
      requires Rest() && lookahead < MIN_LOOKAHEAD && Tracks()
      modifies window, head, prev, `strstart, `base, `held, `matchStart, `insert, `lookahead, `nextIn, `log, `insH, `top, `ins
      ensures Rest() && Tracks() && strstart <= 2 * wSize - MIN_LOOKAHEAD && Here() == old(Here()) && (strstart > 0 <== old(strstart) > 0)
      ensures insert <= old(insert) && base >= old(base) && ins == old(ins) + Strings(Here() - old(insert), Here() - insert)
      ensures lookahead >= MIN_LOOKAHEAD || nextIn == []
      ensures old(log) <= log && log + nextIn == old(log) + old(nextIn)
      ensures FillStep(old(Now()), Now())
    {
      hide *;
      while true
        invariant Rest() && lookahead < MIN_LOOKAHEAD && Tracks() && Here() == old(Here()) && (strstart > 0 <== old(strstart) > 0)
        invariant old(log) <= log && log + nextIn == old(log) + old(nextIn)
        invariant insert <= old(insert) && base >= old(base) && ins == old(ins) + Strings(Here() - old(insert), Here() - insert)
        decreases |nextIn|
      {
        var again := FillOnce();
        if !again { break; }
      }
      FillStepIs();
    }

    twostate lemma FillStepIs()
      requires old(Rest()) && old(Tracks()) && old(lookahead) < MIN_LOOKAHEAD && Rest() && Tracks() && matchAbs == old(matchAbs)
      requires Here() == old(Here()) && (lookahead >= MIN_LOOKAHEAD || nextIn == []) && old(log) <= log && log + nextIn == old(log) + old(nextIn)
      requires insert <= old(insert) && base >= old(base) && ins == old(ins) + Strings(Here() - old(insert), Here() - insert)
      requires tokens == old(tokens) && matchLength == old(matchLength) && matchAvailable == old(matchAvailable)
      ensures FillStep(old(Now()), Now())
    {
      hide Chains.Sound, Stored, Primed, Strings;
      Common.ModAdd(matchAbs - old(base), old(base) - base, UINT);
    }

    lemma RestFacts()
      requires Rest()
      ensures Ready() && Core() && Shape() && held <= 2 * wSize && strstart + lookahead == held && base + held == |log| && Here() <= |log|
    {
    }

    lemma ReadyFacts()
      requires Ready()
      ensures Core() && strstart <= held
    {
    }

    lemma CoreFacts()
      requires Core()
      ensures Shape() && held <= 2 * wSize && base + held == |log| && (top == 0 || top + 2 <= |log|)
    {
    }

    lemma EnteredFacts()
      requires Entered()
      ensures Core() && strstart <= held && (strstart + MIN_MATCH <= held ==> insert == 0)
    {
    }

    /** strstart++. */
    method Advance()
      requires Entered() && strstart < held
      modifies `strstart
      ensures Ready() && strstart == old(strstart) + 1
    {
      hide Chains.Sound, Stored, Hash3, UpdateHash;
      if strstart + 1 + MIN_MATCH <= held {
        hide Primed;
        Rolled(window[strstart], window[strstart + 1], window[strstart + 2], hashBits);
      }
      strstart := strstart + 1;
    }

    /** INSERT_STRING at strstart where three bytes are held. */
    method Enter(fits: bool) returns (hashHead: int)
      requires Ready() && fits == (strstart + MIN_MATCH <= held)
      modifies head, prev, `insH, `top, `ins
      ensures Entered() && hashHead >= 0 && ins == old(ins) + Strings(Here(), Whole(Here() + 1, |log|))
      ensures if fits then old(Record()).Shape() && Here() + 3 <= |log| && Record() == Entering(old(Record()), log, strstart) && hashHead == prev[strstart % wSize]
              else Record() == old(Record()) && hashHead == NIL
      ensures hashHead != NIL ==> fits && top == Here() + 1 && (strstart - hashHead <= MaxDist() ==> Candidate(hashHead))
    {
      hide Chains.Sound, Stored, Hash3, UpdateHash, Primed, HashAt;
      hashHead := NIL;
      if fits { hashHead := InsertString(strstart); }
    }

    // ---- the match loops ----

    /** The tokens so far stand for the first n bytes of the stream. */
    ghost predicate Tallied(n: int)
      reads `log, `tokens
    {
      0 <= n <= |log| && Expand(tokens) == log[..n] && Legal(tokens)
    }

    /** Between turns of deflate_slow: the byte before strstart may be owed, and it may begin a match. */
    ghost predicate Lazy()
      reads `base, `strstart, `log, `tokens, `matchAvailable, `matchLength, `matchAbs
    {
      (matchAvailable ==> strstart >= 1) && Tallied(if matchAvailable then Here() - 1 else Here()) && 2 <= matchLength <= MAX_MATCH
      && (matchLength >= MIN_MATCH ==> matchAvailable && Usable(Here() - 1, matchAbs, matchLength))
    }

    /** Between turns of deflate_fast. */
    ghost predicate Greedy()
      reads `base, `strstart, `log, `tokens, `matchLength, `prevLength, `matchAvailable
    {
      Tallied(Here()) && matchLength < MIN_MATCH && prevLength == 2 && !matchAvailable
    }

    /** _tr_tally_lit. */
    method TallyLit(c: byte)
      requires 0 <= |Expand(tokens)| < |log| && Tallied(|Expand(tokens)|) && c == log[|Expand(tokens)|]
      modifies `tokens
      ensures Tallied(|Expand(old(tokens))| + 1) && tokens == old(tokens) + [Lit(c)]
    {
      hide Expand, Legal;
      LiteralStep(tokens, log, |Expand(tokens)|);
      LegalMore(tokens, Lit(c));
      tokens := tokens + [Lit(c)];
    }

    /** _tr_tally_dist. */
    method TallyDist(dist: nat, len: nat, ghost a: nat, ghost m: nat)
      requires Shape() && Tallied(a) && Usable(a, m, len) && dist == a - m
      modifies `tokens
      ensures Tallied(a + len) && tokens == old(tokens) + [Match(dist, len)]
    {
      hide Expand, Legal;
      MatchStep(tokens, log, a, m, len);
      LegalMore(tokens, Match(dist, len));
      tokens := tokens + [Match(dist, len)];
    }

    lemma NowSound()
      requires Rest()
      ensures Now().Sound() && Now().Here() == Here()
    {
      hide Chains.Sound, Primed;
    }

    /** The index as in a, with the string at strstart on record, and hashHead the newest before it. */
    ghost predicate Looking(a: View, hashHead: int)
      reads `strstart, `lookahead, `matchStart, window, prev
    {
      a.Sound() && a.window == window[..] && a.Entered().prev == prev[..] && a.Newest() == hashHead && a.str == strstart && a.ahead == lookahead
      && a.l == Bounds() && a.lazy == maxLazyMatch && a.filtered == filtered && a.match0.start == matchStart
    }

    lemma LookingIs(a: View, hashHead: int)
      requires a.Sound() && a.window == window[..] && a.str == strstart && a.ahead == lookahead && a.l == Bounds() && a.lazy == maxLazyMatch
      requires a.filtered == filtered && a.match0.start == matchStart && a.log == log && a.c.base == base && a.c.w == wSize
      requires Shape() && if lookahead >= MIN_MATCH then a.c.Shape() && a.Here() + 3 <= |log| && Record() == Entering(a.c, log, strstart) && hashHead == prev[strstart % wSize]
               else Record() == a.c && hashHead == NIL
      ensures Looking(a, hashHead)
    {
      hide Entering;
    }

    /** The search from the view of the turn. */
    method LookFrom(hashHead: int, ghost a: View) returns (len: nat)
      requires Core() && strstart <= 2 * wSize - MIN_LOOKAHEAD && strstart + lookahead == held && lookahead >= MIN_MATCH && 1 <= prevLength <= MAX_MATCH
      requires Candidate(hashHead) && top == Here() + 1 && Looking(a, hashHead)
      modifies `matchStart, `matchAbs
      ensures len <= MAX_MATCH && (len >= prevLength || len == lookahead)
      ensures (matchStart == old(matchStart) && matchAbs == old(matchAbs)) || (0 < matchStart < strstart && matchAbs == base + matchStart)
      ensures len > prevLength && len >= MIN_MATCH ==> matchAbs == base + matchStart && Usable(Here(), matchAbs, len)
      ensures a.Seeks() && a.Searchable(prevLength) && Found(len, matchStart) == a.Search(Found(prevLength, old(matchStart)))
    {
      hide *;
      SeeksFrom(hashHead, a);
      ghost var best := Found(prevLength, matchStart);
      len := LongestMatch(hashHead);
      SearchIs(a, best);
    }

    lemma SeeksFrom(hashHead: int, a: View)
      requires Core() && Candidate(hashHead) && Looking(a, hashHead)
      ensures hashHead > 0 && a.Sound() && a.Seeks() && a.str == strstart && a.window == window[..] && a.Entered().prev == prev[..] && a.Newest() == hashHead
      ensures a.ahead == lookahead && a.l == Bounds()
    {
      hide HashAt, Chains.Sound, Stored;
    }

    /** The first part of a turn of deflate_slow: what was current becomes pending, and a better match is looked for at strstart. */
    method SeekSlow()
      requires Rest() && Tracks() && strstart <= 2 * wSize - MIN_LOOKAHEAD && 2 <= matchLength <= MAX_MATCH
      modifies head, prev, `insH, `top, `ins, `prevLength, `prevMatch, `matchLength, `matchStart, `matchAbs
      ensures Entered() && Tracks() && prevLength == old(matchLength) && prevMatch == old(matchStart) && 2 <= matchLength <= MAX_MATCH
      ensures matchLength >= MIN_MATCH && matchLength > prevLength ==> Usable(Here(), matchAbs, matchLength)
      ensures old(Now()).Searchable(old(matchLength)) && Found(matchLength, matchStart) == Lazily(old(Now()))
      ensures ins == old(ins) + Strings(Here(), Whole(Here() + 1, |log|))
    {
      hide *;
      ghost var a := Now();
      NowIs();
      RestFacts();
      var hashHead := EnterHere();
      CoreFacts();
      MatchShape();
      CanSearch(a, hashHead, matchLength);
      prevLength, prevMatch := matchLength, matchStart;
      matchLength := MIN_MATCH - 1;
      if hashHead != NIL && prevLength < maxLazyMatch && strstart - hashHead <= MaxDist() {
        Improve(hashHead, a);
      } else {
        LazilyNone(a, hashHead);
      }
    }

    /** The string at strstart goes on record. */
    method EnterHere() returns (hashHead: int)
      requires Rest()
      modifies head, prev, `insH, `top, `ins
      ensures Entered() && Core() && hashHead >= 0 && ins == old(ins) + Strings(Here(), Whole(Here() + 1, |log|)) && Looking(old(Now()), hashHead)
      ensures lookahead >= MIN_MATCH ==> insert == 0
      ensures hashHead != NIL ==> lookahead >= MIN_MATCH && top == Here() + 1 && (strstart - hashHead <= MaxDist() ==> Candidate(hashHead))
    {
      hide *;
      ghost var a := Now();
      NowSound();
      NowIs();
      RestFacts();
      hashHead := Enter(lookahead >= MIN_MATCH);
      EnteredFacts();
      LookingIs(a, hashHead);
    }

    lemma NowIs()
      ensures var a := Now();
              && a.window == window[..] && a.str == strstart && a.ahead == lookahead && a.l == Bounds() && a.lazy == maxLazyMatch && a.filtered == filtered
              && a.match0 == Found(matchLength, matchStart) && a.tokens == tokens && a.log == log && a.c == Record() && a.c.base == base && a.c.w == wSize && a.nextIn == nextIn
    {
    }

    lemma CanSearch(a: View, hashHead: int, least: nat)
      requires Core() && strstart <= 2 * wSize - MIN_LOOKAHEAD && Looking(a, hashHead)
      requires hashHead != NIL && strstart - hashHead <= MaxDist() ==> Candidate(hashHead) && top == Here() + 1
      ensures a.Searchable(least)
    {
      hide Core, Candidate, AllWithin, Looked, View.Sound;
      MatchShape();
      if hashHead != NIL && strstart - hashHead <= MaxDist() { LookedWithin(hashHead, least); }
    }

    lemma LazilyNone(a: View, hashHead: int)
      requires Looking(a, hashHead) && Shape() && (hashHead == NIL || a.match0.len >= maxLazyMatch || strstart - hashHead > MaxDist())
      requires a.Searchable(a.match0.len)
      ensures Lazily(a) == Found(MIN_MATCH - 1, matchStart)
    {
      hide View.Sound, AllWithin;
    }

    lemma LazilyFound(a: View, f: Found)
      requires a.Sound() && a.Seeks() && a.Searchable(a.match0.len) && f == a.Search(a.match0) && a.match0.len < a.lazy
      ensures Lazily(a) == if f.len <= 5 && (a.filtered || (f.len == MIN_MATCH && (a.str - f.start) % UINT > TOO_FAR)) then Found(MIN_MATCH - 1, f.start) else f
    {
      hide View.Sound, AllWithin, View.Search, View.Seeks;
    }

    /** Looks for a match longer than the pending one; one of three bytes too far back does not count. */
    method Improve(hashHead: nat, ghost a: View)
      requires Core() && Tracks() && strstart <= 2 * wSize - MIN_LOOKAHEAD && strstart + lookahead == held && lookahead >= MIN_MATCH
      requires 2 <= prevLength <= MAX_MATCH && prevLength < maxLazyMatch && Candidate(hashHead) && top == Here() + 1
      requires Looking(a, hashHead) && a.match0 == Found(prevLength, matchStart)
      modifies `matchLength, `matchStart, `matchAbs
      ensures Tracks() && 2 <= matchLength <= MAX_MATCH
      ensures matchLength >= MIN_MATCH && matchLength > prevLength ==> Usable(Here(), matchAbs, matchLength)
      ensures a.Searchable(a.match0.len) && Found(matchLength, matchStart) == Lazily(a)
    {
      hide *;
      MatchShape();
      LookingFacts(a, hashHead);
      matchLength := LookFrom(hashHead, a);
      TracksStill();
      LazilyFound(a, Found(matchLength, matchStart));
      if matchLength <= 5 && (filtered || (matchLength == MIN_MATCH && (strstart - matchStart) % UINT > TOO_FAR)) {
        matchLength := MIN_MATCH - 1;
      }
    }

    twostate lemma TracksStill()
      requires old(Tracks()) && base == old(base) && strstart == old(strstart) < UINT
      requires (matchStart == old(matchStart) && matchAbs == old(matchAbs)) || (0 < matchStart < strstart && matchAbs == base + matchStart)
      ensures Tracks()
    {
    }

    lemma LookingFacts(a: View, hashHead: int)
      requires Looking(a, hashHead)
      ensures a.Sound() && a.str == strstart && a.lazy == maxLazyMatch && a.filtered == filtered
    {
    }

    /** Puts the strings that a match covers on record, as far as they have three bytes. */
    method EnterCovered(maxInsert: int)
      requires Entered() && prevLength >= 1 && strstart + prevLength < held && maxInsert + MIN_MATCH == held
      modifies head, prev, `insH, `top, `ins, `prevLength, `strstart
      ensures Entered() && strstart == old(strstart + prevLength) && ins == old(ins) + Strings(old(Here()) + 1, Whole(Here() + 1, |log|))
    {
      hide Core, Hash3, Primed, Candidate, Strings, Whole, Entering;
      ghost var end, from := strstart + prevLength, Here() + 1;
      StringsNone(from, |log|);
      while true
        invariant Entered() && prevLength >= 1 && strstart + prevLength == end < held
        invariant from <= Here() + 1 && ins == old(ins) + Strings(from, Whole(Here() + 1, |log|))
        decreases prevLength
      {
        Advance();
        StringsJoin(from, Here(), Here() + 1, |log|);
        var _ := Enter(strstart <= maxInsert);
        prevLength := prevLength - 1;
        if prevLength == 0 { break; }
      }
    }

    /** The pending match goes out, and the strings it covers go on record. */
    method TakePending(ghost prevAbs: int)
      requires Entered() && strstart >= 1 && strstart + lookahead == held && Tallied(Here() - 1) && Usable(Here() - 1, prevAbs, prevLength)
      requires prevMatch == (prevAbs - base) % UINT
      modifies head, prev, `insH, `top, `ins, `prevLength, `matchLength, `matchAvailable, `strstart, `lookahead, `tokens
      ensures Rest() && Here() == old(Here() - 1 + prevLength) && Tallied(Here()) && !matchAvailable && matchLength == 2
      ensures tokens == old(tokens) + [Match(old((strstart - 1 - prevMatch) % UINT), old(prevLength))]
      ensures ins == old(ins) + Strings(old(Here()) + 1, Whole(Here(), |log|))
    {
      hide *;
      EnteredFacts();
      CoreFacts();
      MatchShape();
      PendingDist(prevAbs);
      var maxInsert := strstart + lookahead - MIN_MATCH;
      TallyDist((strstart - 1 - prevMatch) % UINT, prevLength, Here() - 1, prevAbs);
      lookahead := lookahead - (prevLength - 1);
      prevLength := prevLength - 2;
      EnterCovered(maxInsert);
      matchAvailable := false;
      matchLength := MIN_MATCH - 1;
      HereIs();
      EnteredFacts();
      Advance();
      HereIs();
      RestAgain();
    }

    lemma RestAgain()
      requires Ready() && strstart + lookahead == held
      ensures Rest()
    {
    }

    lemma PendingDist(prevAbs: int)
      requires Shape() && strstart >= 1 && Usable(Here() - 1, prevAbs, prevLength) && prevMatch == (prevAbs - base) % UINT
      ensures Here() == base + strstart && 0 <= prevAbs && (strstart - 1 - prevMatch) % UINT == Here() - 1 - prevAbs
      ensures MIN_MATCH <= prevLength <= MAX_MATCH && Here() - 1 + prevLength <= |log|
    {
      hide MatchAt;
      Distance(strstart - 1, prevAbs - base);
    }

    /** The byte before strstart as a literal. */
    method EmitOwed()
      requires Core() && 1 <= strstart <= held && Tallied(Here() - 1)
      modifies `tokens
      ensures Tallied(Here()) && Here() <= |log| && tokens == old(tokens) + [Lit(log[Here() - 1])]
    {
      hide Core, Expand, Legal;
      CoreFacts();
      ByteHeld(strstart - 1);
      TalliedLength();
      TallyLit(window[strstart - 1]);
    }

    /** One turn of deflate_slow. */
    method SlowTurn()
      requires Rest() && Tracks() && Lazy() && lookahead > 0 && strstart <= 2 * wSize - MIN_LOOKAHEAD && (lookahead >= MIN_LOOKAHEAD || nextIn == [])
      modifies head, prev, `insH, `top, `ins, `prevLength, `prevMatch, `matchLength, `matchStart, `matchAbs, `matchAvailable, `strstart, `lookahead, `tokens
      ensures Rest() && Tracks() && Lazy() && Here() > old(Here()) && old(tokens) <= tokens
      ensures SlowStep(old(Now()), Now())
    {
      hide *;
      RestFacts();
      CoreFacts();
      MatchShape();
      LazyFacts();
      HereIs();
      ghost var prevAbs := matchAbs;
      SeekSlow();
      EnteredFacts();
      HereIs();
      StringsJoin(old(Here()), old(Here()) + 1, |log|, |log|);
      if prevLength >= MIN_MATCH && matchLength <= prevLength {
        TakePending(prevAbs);
        LazyAfter();
        StringsJoin(old(Here()), old(Here()) + 1, Here(), |log|);
      } else {
        StepOn();
      }
      SlowStepIs();
    }

    lemma LazyFacts()
      requires Lazy()
      ensures (matchAvailable ==> strstart >= 1) && Tallied(if matchAvailable then Here() - 1 else Here()) && 2 <= matchLength <= MAX_MATCH
      ensures matchLength >= MIN_MATCH ==> matchAvailable && Usable(Here() - 1, matchAbs, matchLength)
      ensures Tracks() ==> matchStart == (matchAbs - base) % UINT
      ensures Here() == base + strstart
    {
      hide Tallied, Usable;
    }

    lemma LazyAfter()
      requires Tallied(Here()) && !matchAvailable && matchLength == 2
      ensures Lazy()
    {
      hide Tallied;
    }

    twostate lemma SlowStepIs()
      requires old(Rest()) && Rest() && old(lookahead) > 0 && (old(lookahead) >= MIN_LOOKAHEAD || nextIn == []) && old(Now()).Searchable(old(matchLength))
      requires window[..] == old(window[..]) && log == old(log) && nextIn == old(nextIn) && base == old(base) && held == old(held) && insert == old(insert)
      requires ins == old(ins) + Strings(old(Here()), Whole(Here(), |log|)) && old(matchAvailable ==> Tallied(Here() - 1))
      requires var f := Lazily(old(Now()));
               matchStart == f.start &&
               if old(matchLength) >= MIN_MATCH && f.len <= old(matchLength) then
                 Here() == old(Here()) - 1 + old(matchLength) && !matchAvailable && matchLength == 2
                 && tokens == old(tokens) + [Match(old((strstart - 1 - matchStart) % UINT), old(matchLength))]
               else
                 Here() == old(Here()) + 1 && matchAvailable && matchLength == f.len && (old(matchAvailable) ==> 0 < old(Here()) <= |log|)
                 && tokens == old(tokens) + if old(matchAvailable) then [Lit(log[old(Here()) - 1])] else []
      ensures SlowStep(old(Now()), Now())
    {
      hide Core, Primed, Tallied, View.Searchable, Lazily, Strings, Whole;
      NowSound();
    }

    /** No match to take: the literal owed is written, and the next one is owed. */
    method StepOn()
      requires Entered() && strstart + lookahead == held && lookahead > 0 && (matchAvailable ==> strstart >= 1)
      requires Tallied(if matchAvailable then Here() - 1 else Here()) && 2 <= matchLength <= MAX_MATCH
      requires matchLength >= MIN_MATCH ==> Usable(Here(), matchAbs, matchLength)
      modifies `matchAvailable, `strstart, `lookahead, `tokens
      ensures Rest() && Lazy() && Here() == old(Here()) + 1 && matchAvailable && (old(matchAvailable) ==> 0 < old(Here()) <= |log|)
      ensures tokens == old(tokens) + if old(matchAvailable) then [Lit(log[old(Here()) - 1])] else []
    {
      hide Core, Ready, Entered, Tallied, Usable;
      EnteredFacts();
      if matchAvailable { EmitOwed(); }
      matchAvailable := true;
      Advance();
      lookahead := lookahead - 1;
    }

    /** The turns of a call so far. */
    ghost predicate Logged(slow: bool, flushing: bool, run: seq<View>, first: View)
      reads this, window, head, prev
    {
      |run| > 0 && Steps(slow, flushing, run) && run[0] == first && run[|run| - 1] == Now() && Continues(first, Now())
    }

    lemma Unlogged(slow: bool, flushing: bool)
      ensures Logged(slow, flushing, [Now()], Now())
    {
      hide Now;
    }

    lemma LoggedMore(slow: bool, flushing: bool, run: seq<View>)
      requires |run| > 0 && Steps(slow, flushing, run) && Next(slow, flushing, run[|run| - 1], Now()) && Continues(run[0], run[|run| - 1])
      ensures Logged(slow, flushing, run + [Now()], run[0])
    {
      hide Now, Next;
      StepsMore(slow, flushing, run, Now());
      StepContinues(slow, flushing, run[0], run[|run| - 1], Now());
    }

    lemma LoggedFacts(slow: bool, flushing: bool, run: seq<View>, first: View)
      requires Logged(slow, flushing, run, first)
      ensures |run| > 0 && Steps(slow, flushing, run) && run[0] == first && run[|run| - 1] == Now() && Continues(first, Now())
      ensures first.log <= log && log + nextIn == first.log + first.nextIn && first.tokens <= tokens
    {
      hide Steps, Bounds, Record;
    }

    lemma UsableLength()
      requires Shape() && Usable(Here(), matchAbs, matchLength)
      ensures MIN_MATCH <= matchLength <= MAX_MATCH && Here() + matchLength <= |log| && matchAbs < Here()
    {
    }

    lemma ByteHeld(i: int)
      requires Core() && 0 <= i < held
      ensures i < window.Length && base + i < |log| && window[i] == log[base + i]
    {
      StoredAt(window[..], log, base, held, i);
    }

    lemma TalliedLength()
      ensures forall n :: Tallied(n) ==> |Expand(tokens)| == n
    {
    }

    method TurnLazy(ghost flushing: bool, ghost run: seq<View>, ghost first: View) returns (ghost run': seq<View>)
      requires Rest() && Tracks() && Lazy() && lookahead > 0 && strstart <= 2 * wSize - MIN_LOOKAHEAD && Logged(true, flushing, run, first)
      requires lookahead >= MIN_LOOKAHEAD || (flushing && nextIn == [])
      modifies head, prev, `insH, `top, `ins, `prevLength, `prevMatch, `matchLength, `matchStart, `matchAbs, `matchAvailable, `strstart, `lookahead, `tokens
      ensures Rest() && Tracks() && Lazy() && Here() > old(Here()) && old(tokens) <= tokens && Logged(true, flushing, run', first)
    {
      hide *;
      LoggedFacts(true, flushing, run, first);
      ghost var a := Now();
      NowIs();
      SlowTurn();
      IsStep(true, flushing, a, Now());
      LoggedMore(true, flushing, run);
      run' := run + [Now()];
    }

    method LastLazy(ghost flushing: bool, ghost run: seq<View>, ghost first: View) returns (ghost run': seq<View>)
      requires Rest() && Tracks() && Lazy() && lookahead == 0 && nextIn == [] && Logged(true, flushing, run, first)
      modifies `tokens, `matchAvailable, `insert
      ensures Rest() && Tracks() && Lazy() && Expand(tokens) == log && old(tokens) <= tokens && Logged(true, flushing, run', first)
      ensures |run'| > 1 && LastStep(run'[|run'| - 2], run'[|run'| - 1])
    {
      hide *;
      LoggedFacts(true, flushing, run, first);
      ghost var a := Now();
      FlushSlow();
      IsStep(true, flushing, a, Now());
      LoggedMore(true, flushing, run);
      run' := run + [Now()];
    }

    /** fill_window between two turns of deflate_slow. */
    method FillLazy(ghost flushing: bool, ghost run: seq<View>, ghost first: View) returns (ghost run': seq<View>)
      requires Rest() && Tracks() && Lazy() && lookahead < MIN_LOOKAHEAD && Logged(true, flushing, run, first)
      modifies window, head, prev, `strstart, `base, `held, `matchStart, `insert, `lookahead, `nextIn, `log, `insH, `top, `ins
      ensures Rest() && Tracks() && Lazy() && strstart <= 2 * wSize - MIN_LOOKAHEAD && Here() == old(Here())
      ensures (lookahead >= MIN_LOOKAHEAD || nextIn == []) && old(log) <= log && log + nextIn == old(log) + old(nextIn)
      ensures Logged(true, flushing, run', first)
    {
      hide *;
      LoggedFacts(true, flushing, run, first);
      ghost var a := Now();
      FillWindow();
      LazyKept();
      IsStep(true, flushing, a, Now());
      LoggedMore(true, flushing, run);
      run' := run + [Now()];
    }

    /** The loop of deflate_slow: until more input or room is needed, or there is nothing ahead. */
    method TurnsLazy(flush: Flush) returns (more: bool, full: bool, ghost run: seq<View>)
      requires Rest() && Tracks() && Lazy()
      modifies window, head, prev, `strstart, `base, `held, `matchStart, `insert, `lookahead, `nextIn, `log, `insH, `top, `ins,
        `prevLength, `prevMatch, `matchLength, `matchAbs, `matchAvailable, `tokens
      ensures Rest() && Tracks() && Lazy() && Logged(true, flush != NoFlush, run, old(Now()))
      ensures if more then !full ==> nextIn == [] && lookahead < MIN_LOOKAHEAD && flush == NoFlush else lookahead == 0 && nextIn == [] && flush != NoFlush
    {
      hide *;
      more, full := false, false;
      run := [Now()];
      Unlogged(true, flush != NoFlush);
      while true
        invariant Rest() && Tracks() && Lazy() && !more && !full && Logged(true, flush != NoFlush, run, old(Now()))
        decreases |log| + |nextIn| - Here()
      {
        RestFacts();
        MatchShape();
        if lookahead < MIN_LOOKAHEAD {
          run := FillLazy(flush != NoFlush, run, old(Now()));
          if lookahead < MIN_LOOKAHEAD && flush == NoFlush { return true, false, run; }
          if lookahead == 0 { break; }
        }
        RestFacts();
        run := TurnLazy(flush != NoFlush, run, old(Now()));
        RestFacts();
        full := *;
        if full { return true, true, run; }
      }
    }

    /** deflate_slow. Whatever is read is conserved, and when the block is done the tokens stand for all of it. */
    method DeflateSlow(flush: Flush) returns (bs: BlockState, full: bool, ghost run: seq<View>)
      requires Rest() && Tracks() && Lazy()
      modifies window, head, prev, `strstart, `base, `held, `matchStart, `insert, `lookahead, `nextIn, `log, `insH, `top, `ins,
        `prevLength, `prevMatch, `matchLength, `matchAbs, `matchAvailable, `tokens
      ensures Rest() && Tracks() && Lazy() && log + nextIn == old(log) + old(nextIn) && old(log) <= log && old(tokens) <= tokens
      ensures bs == NeedMore && !full ==> nextIn == [] && lookahead < MIN_LOOKAHEAD && flush == NoFlush
      ensures bs != NeedMore ==> flush != NoFlush && (bs == BlockDone <==> flush != Finish) && nextIn == [] && Expand(tokens) == log
      ensures Steps(true, flush != NoFlush, run) && run[0] == old(Now()) && run[|run| - 1] == Now()
      ensures bs != NeedMore ==> |run| > 1 && LastStep(run[|run| - 2], run[|run| - 1])
    {
      hide *;
      NowIs();
      var more;
      more, full, run := TurnsLazy(flush);
      LoggedFacts(true, flush != NoFlush, run, old(Now()));
      bs := NeedMore;
      if !more {
        run := LastLazy(flush != NoFlush, run, old(Now()));
        LoggedFacts(true, flush != NoFlush, run, old(Now()));
        bs, full := EndOfBlock(flush);
      }
    }

    /** The first part of a turn of deflate_fast. */
    method SeekFast()
      requires Rest() && Tracks() && strstart <= 2 * wSize - MIN_LOOKAHEAD && matchLength < MIN_MATCH && prevLength == 2
      modifies head, prev, `insH, `top, `ins, `matchLength, `matchStart, `matchAbs
      ensures Entered() && Tracks() && (matchLength >= MIN_MATCH ==> insert == 0 && matchAbs == base + matchStart && Usable(Here(), matchAbs, matchLength))
      ensures old(Now()).Searchable(2) && Found(matchLength, matchStart) == Greedily(old(Now())) && ins == old(ins) + Strings(Here(), Whole(Here() + 1, |log|))
    {
      hide *;
      ghost var a := Now();
      NowIs();
      RestFacts();
      var hashHead := EnterHere();
      CoreFacts();
      MatchShape();
      CanSearch(a, hashHead, 2);
      GreedilyIs(a, hashHead);
      if hashHead != NIL && strstart - hashHead <= MaxDist() {
        matchLength := LookFrom(hashHead, a);
        TracksStill();
        GreedilyFound(a);
      }
    }

    lemma GreedilyIs(a: View, hashHead: int)
      requires Looking(a, hashHead) && Shape() && a.Searchable(2)
      ensures a.match0.start == matchStart && a.Sound()
      ensures hashHead == NIL || strstart - hashHead > MaxDist() ==> Greedily(a) == a.match0
    {
      hide View.Sound, AllWithin, View.Search;
    }

    lemma GreedilyFound(a: View)
      requires a.Sound() && a.Seeks() && a.Searchable(2)
      ensures Greedily(a) == a.Search(Found(2, a.match0.start))
    {
      hide View.Sound, AllWithin, View.Search;
    }

    /** The match at strstart goes out. The strings it covers go on record only if it is short. */
    method TakeFound()
      requires Entered() && insert == 0 && strstart + lookahead == held && strstart <= 2 * wSize - MIN_LOOKAHEAD && prevLength == 2 && !matchAvailable
      requires Tallied(Here()) && matchAbs == base + matchStart && Usable(Here(), matchAbs, matchLength)
      modifies head, prev, `insH, `top, `ins, `matchLength, `strstart, `lookahead, `tokens
      ensures Rest() && Here() == old(Here() + matchLength) && Greedy() && matchLength == 0
      ensures matchStart < old(strstart) && tokens == old(tokens) + [Match(old(strstart) - matchStart, old(matchLength))]
      ensures ins == old(ins) + if old(matchLength) <= maxLazyMatch && lookahead >= MIN_MATCH then Strings(old(Here()) + 1, Whole(Here(), |log|)) else {}
    {
      hide Core, Hash3, UpdateHash, Primed, HashAt, Expand, Candidate, Legal, MatchAt, Strings, Whole;
      CoreFacts();
      TallyDist(strstart - matchStart, matchLength, Here(), matchAbs);
      lookahead := lookahead - matchLength;
      if matchLength <= maxLazyMatch && lookahead >= MIN_MATCH {
        matchLength := matchLength - 1;
        EnterMatched();
      } else {
        SkipMatched();
      }
    }

    /** Puts the strings that a short match covers on record. */
    method EnterMatched()
      requires Entered() && 1 <= matchLength && strstart + matchLength + MIN_MATCH < held
      modifies head, prev, `insH, `top, `ins, `matchLength, `strstart
      ensures Ready() && strstart == old(strstart + matchLength) + 1 && matchLength == 0
      ensures ins == old(ins) + Strings(old(Here()) + 1, Whole(Here(), |log|))
    {
      hide Core, Hash3, Primed, Candidate, Strings, Whole, Entering;
      ghost var end, from := strstart + matchLength, Here() + 1;
      StringsNone(from, |log|);
      while true
        invariant Entered() && 1 <= matchLength && strstart + matchLength == end && end + MIN_MATCH < held
        invariant from <= Here() + 1 && ins == old(ins) + Strings(from, Whole(Here() + 1, |log|))
        decreases matchLength
      {
        Advance();
        StringsJoin(from, Here(), Here() + 1, |log|);
        var _ := Enter(true);
        matchLength := matchLength - 1;
        if matchLength == 0 { break; }
      }
      Advance();
    }

    /** Skips a long match and starts the hash anew behind it. */
    method SkipMatched()
      requires Entered() && insert == 0 && strstart <= 2 * wSize - MIN_LOOKAHEAD && MIN_MATCH <= matchLength <= MAX_MATCH && strstart + matchLength <= held
      modifies `insH, `matchLength, `strstart
      ensures Ready() && strstart == old(strstart + matchLength) && matchLength == 0
    {
      hide Core, Primed;
      CoreFacts();
      strstart := strstart + matchLength;
      matchLength := 0;
      Prime(strstart);
    }

    /** The byte at strstart as a literal. */
    method TakeLiteral()
      requires Entered() && strstart + lookahead == held && lookahead > 0 && Tallied(Here()) && matchLength < MIN_MATCH && prevLength == 2 && !matchAvailable
      modifies `strstart, `lookahead, `tokens
      ensures Rest() && Greedy() && Here() == old(Here()) + 1 && old(Here()) < |log| && tokens == old(tokens) + [Lit(log[old(Here())])]
    {
      hide Core, Ready, Entered, Expand, Legal;
      EnteredFacts();
      CoreFacts();
      ByteHeld(strstart);
      TalliedLength();
      TallyLit(window[strstart]);
      lookahead := lookahead - 1;
      Advance();
    }

    /** One turn of deflate_fast. */
    method FastTurn()
      requires Rest() && Tracks() && Greedy() && lookahead > 0 && strstart <= 2 * wSize - MIN_LOOKAHEAD && (lookahead >= MIN_LOOKAHEAD || nextIn == [])
      modifies head, prev, `insH, `top, `ins, `matchLength, `matchStart, `matchAbs, `strstart, `lookahead, `tokens
      ensures Rest() && Tracks() && Greedy() && Here() > old(Here()) && old(tokens) <= tokens
      ensures FastStep(old(Now()), Now())
    {
      hide Core, Ready, Entered, Usable, Expand, Legal, View.Searchable, Greedily, FastStep, Strings, Whole;
      ReadyFacts();
      CoreFacts();
      SeekFast();
      EnteredFacts();
      if matchLength >= MIN_MATCH {
        UsableLength();
        TakeFound();
      } else {
        TakeLiteral();
      }
      FastStepIs();
    }

    twostate lemma FastStepIs()
      requires old(Rest()) && Rest() && old(lookahead) > 0 && (old(lookahead) >= MIN_LOOKAHEAD || nextIn == []) && old(Now()).Searchable(2)
      requires window[..] == old(window[..]) && log == old(log) && nextIn == old(nextIn) && base == old(base) && held == old(held) && insert == old(insert)
      requires var f, first := Greedily(old(Now())), Strings(old(Here()), Whole(old(Here()) + 1, |log|));
               matchStart == f.start && old(Here()) < |log| &&
               if f.len >= MIN_MATCH then
                 Here() == old(Here()) + f.len && matchLength == 0 && f.start < old(strstart) && tokens == old(tokens) + [Match(old(strstart) - f.start, f.len)]
                 && old(Here()) + 3 <= |log|
                 && ins == old(ins) + first + if f.len <= maxLazyMatch && lookahead >= MIN_MATCH then Strings(old(Here()) + 1, Whole(Here(), |log|)) else {}
               else
                 Here() == old(Here()) + 1 && matchLength == f.len && tokens == old(tokens) + [Lit(log[old(Here())])] && ins == old(ins) + first
      ensures FastStep(old(Now()), Now())
    {
      hide Core, Primed, View.Searchable, Greedily, Strings;
      NowSound();
      StringsJoin(old(Here()), old(Here()) + 1, Here(), |log|);
    }

    method TurnGreedy(ghost flushing: bool, ghost run: seq<View>, ghost first: View) returns (ghost run': seq<View>)
      requires Rest() && Tracks() && Greedy() && lookahead > 0 && strstart <= 2 * wSize - MIN_LOOKAHEAD && Logged(false, flushing, run, first)
      requires lookahead >= MIN_LOOKAHEAD || (flushing && nextIn == [])
      modifies head, prev, `insH, `top, `ins, `matchLength, `matchStart, `matchAbs, `strstart, `lookahead, `tokens
      ensures Rest() && Tracks() && Greedy() && Here() > old(Here()) && old(tokens) <= tokens && Logged(false, flushing, run', first)
    {
      hide *;
      LoggedFacts(false, flushing, run, first);
      ghost var a := Now();
      NowIs();
      FastTurn();
      IsStep(false, flushing, a, Now());
      LoggedMore(false, flushing, run);
      run' := run + [Now()];
    }

    method LastGreedy(ghost flushing: bool, ghost run: seq<View>, ghost first: View) returns (ghost run': seq<View>)
      requires Rest() && Tracks() && Greedy() && lookahead == 0 && nextIn == [] && Logged(false, flushing, run, first)
      modifies `insert
      ensures Rest() && Tracks() && Greedy() && Expand(tokens) == log && old(tokens) <= tokens && Logged(false, flushing, run', first)
      ensures |run'| > 1 && LastStep(run'[|run'| - 2], run'[|run'| - 1])
    {
      hide *;
      LoggedFacts(false, flushing, run, first);
      ghost var a := Now();
      FlushFast();
      IsStep(false, flushing, a, Now());
      LoggedMore(false, flushing, run);
      run' := run + [Now()];
    }

    /** fill_window between two turns of deflate_fast. */
    method FillGreedy(ghost flushing: bool, ghost run: seq<View>, ghost first: View) returns (ghost run': seq<View>)
      requires Rest() && Tracks() && Greedy() && lookahead < MIN_LOOKAHEAD && Logged(false, flushing, run, first)
      modifies window, head, prev, `strstart, `base, `held, `matchStart, `insert, `lookahead, `nextIn, `log, `insH, `top, `ins
      ensures Rest() && Tracks() && Greedy() && strstart <= 2 * wSize - MIN_LOOKAHEAD && Here() == old(Here())
      ensures (lookahead >= MIN_LOOKAHEAD || nextIn == []) && old(log) <= log && log + nextIn == old(log) + old(nextIn)
      ensures Logged(false, flushing, run', first)
    {
      hide *;
      LoggedFacts(false, flushing, run, first);
      ghost var a := Now();
      FillWindow();
      GreedyKept();
      IsStep(false, flushing, a, Now());
      LoggedMore(false, flushing, run);
      run' := run + [Now()];
    }

    /** The loop of deflate_fast: until more input or room is needed, or there is nothing ahead. */
    method TurnsGreedy(flush: Flush) returns (more: bool, full: bool, ghost run: seq<View>)
      requires Rest() && Tracks() && Greedy()
      modifies window, head, prev, `strstart, `base, `held, `matchStart, `insert, `lookahead, `nextIn, `log, `insH, `top, `ins,
        `matchLength, `matchAbs, `tokens
      ensures Rest() && Tracks() && Greedy() && Logged(false, flush != NoFlush, run, old(Now()))
      ensures if more then !full ==> nextIn == [] && lookahead < MIN_LOOKAHEAD && flush == NoFlush else lookahead == 0 && nextIn == [] && flush != NoFlush
    {
      hide *;
      more, full := false, false;
      run := [Now()];
      Unlogged(false, flush != NoFlush);
      while true
        invariant Rest() && Tracks() && Greedy() && !more && !full && Logged(false, flush != NoFlush, run, old(Now()))
        decreases |log| + |nextIn| - Here()
      {
        RestFacts();
        MatchShape();
        if lookahead < MIN_LOOKAHEAD {
          run := FillGreedy(flush != NoFlush, run, old(Now()));
          if lookahead < MIN_LOOKAHEAD && flush == NoFlush { return true, false, run; }
          if lookahead == 0 { break; }
        }
        RestFacts();
        run := TurnGreedy(flush != NoFlush, run, old(Now()));
        RestFacts();
        full := *;
        if full { return true, true, run; }
      }
    }

    /** deflate_fast, with the same promise. */
    method DeflateFast(flush: Flush) returns (bs: BlockState, full: bool, ghost run: seq<View>)
      requires Rest() && Tracks() && Greedy()
      modifies window, head, prev, `strstart, `base, `held, `matchStart, `insert, `lookahead, `nextIn, `log, `insH, `top, `ins,
        `matchLength, `matchAbs, `tokens
      ensures Rest() && Tracks() && Greedy() && log + nextIn == old(log) + old(nextIn) && old(log) <= log && old(tokens) <= tokens
      ensures bs == NeedMore && !full ==> nextIn == [] && lookahead < MIN_LOOKAHEAD && flush == NoFlush
      ensures bs != NeedMore ==> flush != NoFlush && (bs == BlockDone <==> flush != Finish) && nextIn == [] && Expand(tokens) == log
      ensures Steps(false, flush != NoFlush, run) && run[0] == old(Now()) && run[|run| - 1] == Now()
      ensures bs != NeedMore ==> |run| > 1 && LastStep(run[|run| - 2], run[|run| - 1])
    {
      hide *;
      NowIs();
      var more;
      more, full, run := TurnsGreedy(flush);
      LoggedFacts(false, flush != NoFlush, run, old(Now()));
      bs := NeedMore;
      if !more {
        run := LastGreedy(flush != NoFlush, run, old(Now()));
        LoggedFacts(false, flush != NoFlush, run, old(Now()));
        bs, full := EndOfBlock(flush);
      }
    }

    twostate lemma GreedyKept()
      requires old(Greedy()) && old(log) <= log && Here() == old(Here()) && tokens == old(tokens)
      requires prevLength == old(prevLength) && matchLength == old(matchLength) && matchAvailable == old(matchAvailable)
      ensures Greedy()
    {
      hide Expand, Legal;
    }

    /** The end of deflate_fast. */
    method FlushFast()
      requires Rest() && Tracks() && Greedy() && lookahead == 0 && nextIn == []
      modifies `insert
      ensures Rest() && Tracks() && Greedy() && Expand(tokens) == log
      ensures LastStep(old(Now()), Now())
    {
      hide Core, Primed, Expand, Legal;
      CoreFacts();
      assert log[..|log|] == log;
      insert := if strstart < MIN_MATCH - 1 then strstart else MIN_MATCH - 1;
    }

    /** More input leaves what is owed as it was. */
    twostate lemma LazyKept()
      requires old(Lazy()) && old(log) <= log && Here() == old(Here()) && (strstart > 0 <== old(strstart) > 0) && tokens == old(tokens)
      requires matchAvailable == old(matchAvailable) && matchLength == old(matchLength) && matchAbs == old(matchAbs)
      ensures Lazy()
    {
      hide Expand, Legal, MatchAt;
      ghost var more := log[|old(log)|..];
      assert log == old(log) + more;
      if matchLength >= MIN_MATCH { MatchGrows(old(log), more, Here() - 1, matchAbs, matchLength); }
    }

    twostate lemma LastStepIs()
      requires lookahead == 0 && nextIn == [] && old(lookahead) == 0 && old(nextIn) == [] && window[..] == old(window[..]) && Record() == old(Record())
      requires log == old(log) && strstart == old(strstart) && !matchAvailable && Found(matchLength, matchStart) == old(Found(matchLength, matchStart))
      requires insert == if strstart < MIN_MATCH - 1 then strstart else MIN_MATCH - 1
      requires (old(matchAvailable) ==> 0 < Here() <= |log|) && tokens == old(tokens) + if old(matchAvailable) then [Lit(log[Here() - 1])] else []
      ensures LastStep(old(Now()), Now())
    {
    }

    /** Nothing is ahead of strstart, so nothing is pending there. */
    lemma PendingHere()
      requires Rest() && Lazy() && lookahead == 0
      ensures matchLength == 2 && Here() == |log|
    {
      hide Core, Primed, Tallied, MatchAt;
      CoreFacts();
    }

    lemma AllTallied()
      requires Tallied(Here()) && Here() == |log|
      ensures Expand(tokens) == log
    {
      hide Expand, Legal;
      assert log[..|log|] == log;
    }

    lemma RestLast()
      requires Core() && insert <= strstart && insert < MIN_MATCH && lookahead == 0 && strstart == held && top <= Here() - insert
      ensures Rest()
    {
      hide Core;
    }

    /** The end of deflate_slow: the byte still owed goes out, and the last two positions are left to be put on record later. */
    method FlushSlow()
      requires Rest() && Tracks() && Lazy() && lookahead == 0 && nextIn == []
      modifies `tokens, `matchAvailable, `insert
      ensures Rest() && Tracks() && Lazy() && !matchAvailable && Expand(tokens) == log && old(tokens) <= tokens
      ensures LastStep(old(Now()), Now())
    {
      hide *;
      RestFacts();
      LazyFacts();
      MatchShape();
      PendingHere();
      if matchAvailable {
        EmitOwed();
        matchAvailable := false;
      }
      LazyAfter();
      AllTallied();
      insert := if strstart < MIN_MATCH - 1 then strstart else MIN_MATCH - 1;
      RestLast();
      LastStepIs();
    }

    /** FLUSH_BLOCK at the end; there may be no room for the output. */
    method EndOfBlock(flush: Flush) returns (bs: BlockState, full: bool)
      ensures if flush == Finish then bs == (if full then FinishStarted else FinishDone) else bs == (if full then NeedMore else BlockDone)
    {
      full := *;
      bs := if flush == Finish then if full then FinishStarted else FinishDone else if full then NeedMore else BlockDone;
    }
  }

  function SlidAll(s: seq<int>, w: nat): (r: seq<int>)
    ensures |r| == |s|
  {
    seq(|s|, i requires 0 <= i < |s| => HashChains.Slid(s[i], w))
  }

  lemma ShiftedDown(was: seq<byte>, now: seq<byte>, log: seq<byte>, base: nat, n: nat, w: nat)
    requires Stored(was, log, base, n) && w <= n && |now| == |was| && forall i :: 0 <= i < n - w ==> now[i] == was[w + i]
    ensures Stored(now, log, base + w, n - w)
  {
    var a, b := now[..n - w], log[base + w..];
    forall i | 0 <= i < n - w ensures a[i] == b[i] {
      assert a[i] == now[i] == was[w + i];
      assert was[..n][w + i] == log[base..][w + i];
    }
    assert a == b;
  }

  lemma ReadIn(was: seq<byte>, now: seq<byte>, log: seq<byte>, base: nat, n: nat, bytes: seq<byte>)
    requires Stored(was, log, base, n) && |now| == |was| && n + |bytes| <= |now| && (forall i :: 0 <= i < n ==> now[i] == was[i])
    requires forall i :: 0 <= i < |bytes| ==> now[n + i] == bytes[i]
    ensures Stored(now, log + bytes, base, n + |bytes|)
  {
    assert now[..n] == was[..n];
    assert now[..n + |bytes|] == now[..n] + bytes;
    assert (log + bytes)[base..] == log[base..] + bytes;
  }

  lemma TrackSlide(x: int, w: nat)
    requires w < UINT
    ensures (x % UINT + UINT - w) % UINT == (x - w) % UINT
  {
    Common.ModAdd(x, UINT - w, UINT);
    var y := x - w;
    Common.ModAdd(y, 0, UINT);
    assert x + (UINT - w) == y + UINT;
    var q, r := y / UINT, y % UINT;
    Common.DivModUnique(y + UINT, UINT, q + 1, r);
  }

  lemma ComparedIs(window: seq<byte>, a: nat, m: nat, len: nat)
    requires Within(window, a, m) && Agree(window, a, m, len) && len <= MAX_MATCH && (len < MAX_MATCH ==> window[a + len] != window[m + len])
    ensures Alike(window, a, m) == len
  {
    AlikeFromIs(window, a, m, 0, len);
  }

  lemma GoalIs(window: seq<byte>, a: int, prev: seq<int>, cur: int, limit: nat, n: nat, best: Found, nice: nat, goal: Found)
    requires |prev| > 0 && n > 0 && AllWithin(window, a, Visited(prev, cur, limit, n)) && goal == Pick(window, a, Visited(prev, cur, limit, n), best, nice)
    ensures Goal(window, a, prev, cur, limit, n, best, nice, goal)
  {
  }

  lemma LookedIs(prev: seq<int>, str: nat, cur: int, prevLength: nat, l: Limits)
    requires |prev| > 0
    ensures Looked(prev, str, cur, prevLength, l) == Visited(prev, cur, Floor(l, str), Chain(l, prevLength))
  {
  }

  lemma LongestIs(window: seq<byte>, prev: seq<int>, str: nat, lookahead: nat, cur: int, best: Found, l: Limits, goal: Found)
    requires |prev| > 0 && AllWithin(window, str, Looked(prev, str, cur, best.len, l))
    requires goal == Pick(window, str, Looked(prev, str, cur, best.len, l), best, if l.nice > lookahead then lookahead else l.nice)
    ensures Longest(window, prev, str, lookahead, cur, best, l) == if goal.len <= lookahead then goal else Found(lookahead, goal.start)
  {
    hide Pick, Looked;
  }

  /** The n bytes at a and at m in the window are equal. */
  ghost predicate Agree(window: seq<byte>, a: int, m: int, n: int) {
    0 <= m < a && 0 <= n && a + n <= |window| && forall i, j :: a <= i < a + n && j == i - (a - m) ==> window[i] == window[j]
  }

  lemma AgreeMore(window: seq<byte>, a: int, m: int, n: int)
    requires Agree(window, a, m, n) && a + n < |window| && window[a + n] == window[m + n]
    ensures Agree(window, a, m, n + 1)
  {
    forall i, j | a <= i < a + (n + 1) && j == i - (a - m) ensures window[i] == window[j] {
      if i < a + n {
        assert window[i] == window[j];
      } else {
        assert i == a + n && j == m + n;
      }
    }
  }

  lemma ThreeAgree(window: seq<byte>, log: seq<byte>, base: nat, n: nat, a: nat, m: nat, bits: nat)
    requires Bits(bits) && Stored(window, log, base, n) && m < a && a + 3 <= n && base + a + 3 <= |log|
    requires HashAt(log, base + m, bits) == HashAt(log, base + a, bits) && window[m] == window[a] && window[m + 1] == window[a + 1]
    ensures Agree(window, a, m, 3)
  {
    hide HashAt, Stored;
    StoredAt(window, log, base, n, a);
    StoredAt(window, log, base, n, a + 1);
    StoredAt(window, log, base, n, a + 2);
    StoredAt(window, log, base, n, m);
    StoredAt(window, log, base, n, m + 1);
    StoredAt(window, log, base, n, m + 2);
    ThirdByte(log, base + m, base + a, bits);
    forall i, j | a <= i < a + 3 && j == i - (a - m) ensures window[i] == window[j] {
      if i == a { assert j == m; } else if i == a + 1 { assert j == m + 1; } else { assert i == a + 2 && j == m + 2; }
    }
  }

  /** Equality in the window is equality in the stream as far as the window holds it. */
  lemma MatchInData(window: seq<byte>, log: seq<byte>, base: nat, n: nat, a: nat, m: nat, len: nat, res: nat)
    requires Stored(window, log, base, n) && Agree(window, a, m, len) && res <= len && a + res <= n
    ensures MatchAt(log, base + a, base + m, res)
  {
    forall x, y | base + a <= x < base + a + res && y == x - (a - m) ensures log[x] == log[y] {
      var i, j := x - base, y - base;
      hide Stored;
      StoredAt(window, log, base, n, i);
      StoredAt(window, log, base, n, j);
      assert window[i] == window[j];
    }
    assert base + n == |log|;
  }

  /** The hash of the string at str is the primed hash updated with its third byte. */
  lemma HashReady(window: seq<byte>, log: seq<byte>, base: nat, n: nat, str: nat, insH: bv32, bits: nat)
    requires Bits(bits) && Stored(window, log, base, n) && str + 3 <= n && Primed(insH, window[str], window[str + 1], bits)
    ensures base + str + 3 <= |log|
    ensures UpdateHash(insH, window[str + 2], bits) == Hash3(window[str], window[str + 1], window[str + 2], bits)
    ensures Index(UpdateHash(insH, window[str + 2], bits)) == HashAt(log, base + str, bits)
  {
    hide Stored, UpdateHash, Hash3;
    StoredAt(window, log, base, n, str);
    StoredAt(window, log, base, n, str + 1);
    StoredAt(window, log, base, n, str + 2);
  }

  lemma SoundRanges(c: Chains, log: seq<byte>)
    requires c.Sound(log)
    ensures forall p :: p in c.ins ==> 0 <= p < c.top && p + 3 <= |log|
  {
  }

  /** A pending match may start one byte before the window after a slide; its distance is still found. */
  lemma LostMatchStart(wSize: nat)
    requires 512 <= wSize <= 32768
    ensures var strstart, matchStart := wSize + (wSize - MIN_LOOKAHEAD), wSize - 1;
            (matchStart + UINT - wSize) % UINT == UINT - 1 && (strstart - wSize - 1 - (UINT - 1)) % UINT == wSize - MIN_LOOKAHEAD
  {
    Distance(wSize - MIN_LOOKAHEAD - 1, -1);
  }

  /** Unsigned subtraction recovers a distance even when the start was kept modulo 2^32. */
  lemma Distance(a: int, m: int)
    requires 0 <= a - m < UINT
    ensures (a - m % UINT) % UINT == a - m
  {
    var q, r := m / UINT, m % UINT;
    assert m == q * UINT + r;
    Common.DivModUnique(a - r, UINT, q, a - m);
  }

  lemma LinkRanges(c: Chains, log: seq<byte>, q: int)
    requires c.Sound(log) && c.At(q)
    ensures c.base + q + 3 <= |log|
  {
  }
}
