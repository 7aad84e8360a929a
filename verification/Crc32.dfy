/** crc32_z itself: bytes up to a word boundary, blocks of words through the braids, bytes again. */
module Crc32 {
  import opened Gf2
  import opened CrcRegister
  import opened CrcWords
  import opened CrcBraid
  import Common

  // ---- a word into a register ----

  /** crc_word: the CRC of the word's bytes, least significant first. */
  method CrcWord(word: Word, crcTable: array<bv32>) returns (r: bv32)
    requires |word| >= 4 && ByteTable(crcTable[..])
    ensures r == Reg(0, word)
  {
    LeftEnds(word);
    hide *;
    var data, w := word, |word|;
    var k := 0;
    while k < w
      invariant 0 <= k <= w == |data| && data == Left(word, k)
    {
      LeftStep(word, k);
      TableEntry(crcTable[..], data[0]);
      data := WordPlus(data[1..] + [0], Split(crcTable[data[0] as int], w));
      k := k + 1;
    }
    r := Join(data);
  }

  lemma TableEntry(t: seq<bv32>, b: byte)
    requires ByteTable(t)
    ensures 0 <= b as int < |t| && t[b as int] == X8(b as bv32)
  {
    SameByte(b);
    hide X8;
  }

  /** crc_big_table: the byte table with its entries swapped. */
  ghost predicate BigByteTable(t: seq<Word>, w: nat) {
    |t| == 256 && forall i :: 0 <= i < 256 ==> t[i] == Swap(Split(Entry(i), w))
  }

  lemma BigEntry(t: seq<Word>, b: byte, w: nat)
    requires BigByteTable(t, w)
    ensures 0 <= b as int < |t| && t[b as int] == Swap(Split(X8(b as bv32), w))
  {
    SameByte(b);
    hide X8, Split;
  }

  /** Shifting a swapped word up is shifting the word down. */
  lemma SwapShift(d: Word)
    requires |d| > 0
    ensures [0] + Swap(d)[..|d| - 1] == Swap(d[1..] + [0]) && Swap(d)[|d| - 1] == d[0]
  {
    var u: Word, v := [0] + Swap(d)[..|d| - 1], Swap(d[1..] + [0]);
    forall k | 0 <= k < |d| ensures u[k] == v[k] {}
  }

  /** crc_word_big: the same on swapped words. */
  method CrcWordBig(word: Word, bigTable: array<Word>) returns (r: Word)
    requires |word| >= 4 && BigByteTable(bigTable[..], |word|)
    ensures |r| == |word| && r == Swap(Split(Reg(0, Swap(word)), |word|))
  {
    ghost var plain := Swap(word);
    LeftEnds(plain);
    SwapLaws(word, word);
    hide *;
    var w := |word|;
    r := word;
    var k := 0;
    while k < w
      invariant 0 <= k <= w == |r| == |plain| && r == Swap(Left(plain, k))
    {
      r := BigWordStep(r, w, bigTable, plain, k);
      k := k + 1;
    }
  }

  /** One byte of the word goes out of the swapped register. */
  method BigWordStep(r0: Word, w: nat, bigTable: array<Word>, ghost plain: Word, ghost k: nat) returns (r: Word)
    requires 4 <= w == |r0| == |plain| && k < w && BigByteTable(bigTable[..], w) && r0 == Swap(Left(plain, k))
    ensures |r| == w && r == Swap(Left(plain, k + 1))
  {
    hide *;
    ghost var d := Left(plain, k);
    LeftStep(plain, k);
    SwapShift(d);
    BigEntry(bigTable[..], d[0], w);
    SwapLaws(d[1..] + [0], Split(X8(d[0] as bv32), w));
    var x := bigTable[r0[w - 1] as int];
    r := WordPlus([0] + r0[..w - 1], x);
  }

  // ---- a word through a braid ----

  /** crc_braid_table[0][..] ^ crc_braid_table[1][..] ^ ... */
  method BraidWord(word: Word, ltl: array2<bv32>, ghost m: nat) returns (r: bv32)
    requires |word| > 0 && BraidTable(ltl, m, |word|)
    ensures |word| <= m && r == Terms(word, |word|, m)
  {
    var w := |word|;
    assert ltl.Length0 == w && ltl.Length1 == 256 && w <= m;
    hide *;
    Cell(ltl, m, w, 0, word[0]);
    r := ltl[0, word[0] as int];
    FirstTerm(word, m);
    var k := 1;
    while k < w
      invariant 1 <= k <= w && r == Terms(word, k, m)
    {
      Cell(ltl, m, w, k, word[k]);
      NextTerms(word, k, m);
      r := Plus(r, ltl[k, word[k] as int]);
      k := k + 1;
    }
  }

  lemma Cell(ltl: array2<bv32>, m: nat, w: nat, k: nat, b: byte)
    requires BraidTable(ltl, m, w) && k < w
    ensures w <= m && ltl.Length0 == w && ltl.Length1 == 256 && 0 <= b as int < 256
    ensures ltl[k, b as int] == XP(8 * (m - k), b as bv32)
  {
    SameByte(b);
    hide XP;
  }

  lemma FirstTerm(word: Word, m: nat)
    requires 0 < |word| <= m
    ensures Terms(word, 1, m) == XP(8 * m, word[0] as bv32)
  {
    hide XP, Plus;
    PlusZero(XP(8 * m, word[0] as bv32));
    assert Terms(word, 0, m) == 0;
  }

  lemma NextTerms(word: Word, k: nat, m: nat)
    requires k < |word| <= m
    ensures Terms(word, k + 1, m) == Plus(Terms(word, k, m), XP(8 * (m - k), word[k] as bv32))
  {
    hide XP, Plus;
  }

  /** The terms from the last byte back: the order in which the big-endian branch adds them. */
  function TermsBack(w: Word, k: nat, m: nat): bv32
    requires k <= |w| <= m
  {
    if k == 0 then 0 else Plus(TermsBack(w, k - 1, m), XP(8 * (m - (|w| - k)), w[|w| - k] as bv32))
  }

  lemma {:induction false} SameTerms(w: Word, k: nat, m: nat)
    requires k <= |w| <= m
    ensures Plus(Terms(w, |w| - k, m), TermsBack(w, k, m)) == Terms(w, |w|, m)
  {
    hide XP, Plus;
    if k == 0 {
      PlusZero(Terms(w, |w|, m));
    } else {
      SameTerms(w, k - 1, m);
      var a, b, t := Terms(w, |w| - k, m), TermsBack(w, k - 1, m), XP(8 * (m - (|w| - k)), w[|w| - k] as bv32);
      PlusAssociates(a, t, b);
      PlusCommutes(t, b);
    }
  }

  lemma AllBack(w: Word, m: nat)
    requires |w| <= m
    ensures TermsBack(w, |w|, m) == Terms(w, |w|, m)
  {
    hide XP, Plus;
    SameTerms(w, |w|, m);
    PlusZero(TermsBack(w, |w|, m));
    assert Terms(w, 0, m) == 0;
  }

  method LookUpBig(big: array2<Word>, k: nat, b: byte, w: nat, ghost m: nat) returns (x: Word)
    requires BigTable(big, m, w) && k < w
    ensures w <= m && |x| == w && x == Swap(Split(XP(8 * (m - (w - 1 - k)), b as bv32), w))
  {
    hide *;
    BigCell(big, m, w, k, b);
    x := big[k, b as int];
  }

  method BraidWordBig(word: Word, big: array2<Word>, ghost m: nat) returns (r: Word)
    requires |word| > 0 && BigTable(big, m, |word|)
    ensures |r| == |word| <= m && r == Swap(Split(Terms(Swap(word), |word|, m), |word|))
  {
    hide *;
    ghost var plain := Swap(word);
    var w := |word|;
    r := LookUpBig(big, 0, word[0], w, m);
    assert plain[w - 1] == word[0];
    FirstBack(plain, m);
    var k := 1;
    while k < w
      invariant 1 <= k <= w == |plain| && |r| == w <= m && r == Swap(Split(TermsBack(plain, k, m), w))
    {
      var x := LookUpBig(big, k, word[k], w, m);
      assert plain[w - 1 - k] == word[k];
      AddBack(plain, k, m);
      r := WordPlus(r, x);
      k := k + 1;
    }
    AllBack(plain, m);
  }

  lemma AddBack(w: Word, k: nat, m: nat)
    requires k < |w| <= m
    ensures WordPlus(Swap(Split(TermsBack(w, k, m), |w|)), Swap(Split(XP(8 * (m - (|w| - 1 - k)), w[|w| - 1 - k] as bv32), |w|)))
            == Swap(Split(TermsBack(w, k + 1, m), |w|))
  {
    hide *;
    var t := XP(8 * (m - (|w| - 1 - k)), w[|w| - 1 - k] as bv32);
    NextBack(w, k, m);
    SplitPlus(TermsBack(w, k, m), t, |w|);
    SwapLaws(Split(TermsBack(w, k, m), |w|), Split(t, |w|));
  }

  lemma BigCell(big: array2<Word>, m: nat, w: nat, k: nat, b: byte)
    requires BigTable(big, m, w) && k < w
    ensures w <= m && big.Length0 == w && big.Length1 == 256 && 0 <= b as int < 256
    ensures big[k, b as int] == Swap(Split(XP(8 * (m - (w - 1 - k)), b as bv32), w))
  {
    SameByte(b);
    hide XP, Split;
  }

  lemma FirstBack(w: Word, m: nat)
    requires 0 < |w| <= m
    ensures TermsBack(w, 1, m) == XP(8 * (m - (|w| - 1)), w[|w| - 1] as bv32)
  {
    hide XP, Plus;
    PlusZero(XP(8 * (m - (|w| - 1)), w[|w| - 1] as bv32));
    assert TermsBack(w, 0, m) == 0;
  }

  lemma NextBack(w: Word, k: nat, m: nat)
    requires k < |w| <= m
    ensures TermsBack(w, k + 1, m) == Plus(TermsBack(w, k, m), XP(8 * (m - (|w| - 1 - k)), w[|w| - 1 - k] as bv32))
  {
    hide XP, Plus;
  }

  // ---- the blocks ----

  /** The n words of w bytes from position p on. */
  function WordsAt(buf: seq<byte>, p: nat, n: nat, w: nat): (ws: seq<Word>)
    requires p + n * w <= |buf|
    ensures |ws| == n && forall j :: 0 <= j < n ==> |ws[j]| == w
    decreases n
  {
    if n == 0 then [] else
      assert n * w == (n - 1) * w + w;
      assert (n - 1) * w >= 0;
      WordsAt(buf, p, n - 1, w) + [buf[p + (n - 1) * w..p + n * w]]
  }

  lemma {:induction false} FlatWords(buf: seq<byte>, p: nat, n: nat, w: nat)
    requires p + n * w <= |buf|
    ensures Flat(WordsAt(buf, p, n, w)) == buf[p..p + n * w]
    decreases n
  {
    if n == 0 {
      assert buf[p..p] == [];
    } else {
      OneLess(n, w);
      var front, word, m := WordsAt(buf, p, n - 1, w), buf[p + (n - 1) * w..p + n * w], p + (n - 1) * w;
      FlatWords(buf, p, n - 1, w);
      assert WordsAt(buf, p, n, w) == front + [word];
      hide *;
      FlatAppend(front, word);
      assert buf[p..m] + word == buf[p..p + n * w];
    }
  }

  lemma OneLess(n: nat, w: nat)
    requires n > 0
    ensures n * w == (n - 1) * w + w && (n - 1) * w >= 0
  {
  }

  lemma FlatAppend(ws: seq<Word>, word: Word)
    ensures Flat(ws + [word]) == Flat(ws) + word
  {
    assert (ws + [word])[..|ws|] == ws;
  }

  /** Where word j begins. */
  function WordPlace(p: nat, j: nat, w: nat): nat {
    p + j * w
  }

  lemma {:induction false} WordAt(buf: seq<byte>, p: nat, n: nat, w: nat, j: nat)
    requires p + n * w <= |buf| && j < n
    ensures WordPlace(p, j, w) + w <= |buf| && WordsAt(buf, p, n, w)[j] == buf[WordPlace(p, j, w)..WordPlace(p, j, w) + w]
    decreases n
  {
    OneLess(n, w);
    if j < n - 1 { WordAt(buf, p, n - 1, w, j); }
  }

  /** A word as the machine loads it. */
  method Load(buf: array<byte>, p: nat, w: nat, bigEndian: bool) returns (word: Word)
    requires p + w <= buf.Length
    ensures |word| == w && word == if bigEndian then Swap(buf[p..p + w]) else buf[p..p + w]
  {
    word := buf[p..p + w];
    if bigEndian { word := Swap(word); }
  }

  lemma AfterBlock(cs: seq<bv32>, buf: seq<byte>, p0: nat, p: nat, n: nat, w: nat, c: bv32)
    requires p0 <= p <= p + n * w <= |buf| && |cs| == n > 0 && StandFor(cs, w, Reg(c, buf[p0..p]))
    ensures StandFor(Advance(cs, WordsAt(buf, p, n, w), n, w), w, Reg(c, buf[p0..p + n * w]))
  {
    hide *;
    var ws := WordsAt(buf, p, n, w);
    BlockStep(cs, ws, n, w, Reg(c, buf[p0..p]));
    FlatWords(buf, p, n, w);
    RegConcat(c, buf[p0..p], buf[p..p + n * w]);
    assert buf[p0..p] + buf[p..p + n * w] == buf[p0..p + n * w];
  }

  lemma LastBlock(cs: seq<bv32>, buf: seq<byte>, p0: nat, p: nat, n: nat, w: nat, c: bv32)
    requires p0 <= p <= p + n * w <= |buf| && |cs| == n > 0 && StandFor(cs, w, Reg(c, buf[p0..p]))
    ensures Finish(cs, WordsAt(buf, p, n, w)) == Reg(c, buf[p0..p + n * w])
  {
    hide *;
    var ws := WordsAt(buf, p, n, w);
    FinishIsReg(cs, ws, w, Reg(c, buf[p0..p]));
    FlatWords(buf, p, n, w);
    RegConcat(c, buf[p0..p], buf[p..p + n * w]);
    assert buf[p0..p] + buf[p..p + n * w] == buf[p0..p + n * w];
  }

  /** One braid's register after its word. */
  method BraidStep(c: bv32, word: Word, ltl: array2<bv32>, ghost n: nat) returns (r: bv32)
    requires n > 0 && |word| >= 4 && BraidTable(ltl, n * |word|, |word|)
    ensures r == Past(n, |word|, c, word)
  {
    hide *;
    WholeWord(n, c, word);
    r := BraidWord(WordPlus(Split(c, |word|), word), ltl, n * |word|);
  }

  /** One block through all braids. */
  method LittleBlock(crcs: array<bv32>, buf: array<byte>, p: nat, n: nat, w: nat, ltl: array2<bv32>)
    requires crcs.Length == n > 0 && w >= 4 && p + n * w <= buf.Length && BraidTable(ltl, n * w, w)
    requires ltl as object != crcs as object && buf as object != crcs as object
    modifies crcs
    ensures crcs[..] == Advance(old(crcs[..]), WordsAt(buf[..], p, n, w), n, w)
  {
    hide *;
    ghost var cs, ws, b := crcs[..], WordsAt(buf[..], p, n, w), buf[..];
    ghost var next := Advance(cs, ws, n, w);
    PartlyStart(cs, next);
    var j := 0;
    while j < n
      invariant 0 <= j <= n && Partly(crcs[..], next, cs, j)
    {
      WordAt(b, p, n, w, j);
      LittleTurn(crcs, buf, WordPlace(p, j, w), n, w, ltl, j, cs, ws);
      j := j + 1;
    }
    PartlyDone(crcs[..], next, cs);
  }

  /** One braid of the block, its word at q. */
  method LittleTurn(crcs: array<bv32>, buf: array<byte>, q: nat, n: nat, w: nat, ltl: array2<bv32>, j: nat, ghost cs: seq<bv32>, ghost ws: seq<Word>)
    requires w >= 4 && q + w <= buf.Length && BraidTable(ltl, n * w, w) && j < n == |cs| == |ws| == crcs.Length && ws[j] == buf[q..q + w]
    requires ltl as object != crcs as object && buf as object != crcs as object
    requires Partly(crcs[..], Advance(cs, ws, n, w), cs, j)
    modifies crcs
    ensures Partly(crcs[..], Advance(cs, ws, n, w), cs, j + 1)
  {
    hide *;
    ghost var was := crcs[..];
    AdvanceAt(cs, ws, n, w, j);
    PartlyStep(was, Advance(cs, ws, n, w), cs, j);
    var word := Load(buf, q, w, false);
    var x := BraidStep(crcs[j], word, ltl, n);
    crcs[j] := x;
    assert crcs[..] == was[j := x];
  }

  /** Registers before j are the next ones, the others still the old ones. */
  ghost predicate Partly(crcs: seq<bv32>, next: seq<bv32>, cs: seq<bv32>, j: int) {
    |crcs| == |cs| == |next| && forall i :: 0 <= i < |cs| ==> crcs[i] == if i < j then next[i] else cs[i]
  }

  lemma AdvanceAt(cs: seq<bv32>, ws: seq<Word>, n: nat, w: nat, j: nat)
    requires |cs| == |ws| && n > 0 && j < |cs|
    ensures Advance(cs, ws, n, w)[j] == Past(n, w, cs[j], ws[j])
  {
    hide Past;
  }

  lemma PartlyStart(cs: seq<bv32>, next: seq<bv32>)
    requires |next| == |cs|
    ensures Partly(cs, next, cs, 0)
  {
  }

  lemma PartlyStep(crcs: seq<bv32>, next: seq<bv32>, cs: seq<bv32>, j: nat)
    requires Partly(crcs, next, cs, j) && j < |cs|
    ensures |crcs| == |next| == |cs| && crcs[j] == cs[j] && Partly(crcs[j := next[j]], next, cs, j + 1)
  {
  }

  lemma PartlyDone(crcs: seq<bv32>, next: seq<bv32>, cs: seq<bv32>)
    requires Partly(crcs, next, cs, |cs|)
    ensures crcs == next
  {
  }

  /** The register after the first j braids of the last block. */
  ghost function Done(cs: seq<bv32>, ws: seq<Word>, j: nat): bv32
    requires j <= |cs| == |ws|
  {
    Finish(cs[..j], ws[..j])
  }

  lemma DoneEnds(cs: seq<bv32>, ws: seq<Word>)
    requires |cs| == |ws|
    ensures Done(cs, ws, 0) == 0 && Done(cs, ws, |cs|) == Finish(cs, ws)
  {
    hide Reg, Plus;
    assert cs[..0] == [] && ws[..0] == [] && cs[..|cs|] == cs && ws[..|cs|] == ws;
  }

  lemma DoneNext(cs: seq<bv32>, ws: seq<Word>, j: nat)
    requires j < |cs| == |ws|
    ensures Done(cs, ws, j + 1) == Reg(Plus(cs[j], Done(cs, ws, j)), ws[j])
  {
    hide Plus, Reg;
    assert cs[..j + 1][..j] == cs[..j] && ws[..j + 1][..j] == ws[..j];
  }

  /** The last block, all braids brought together. */
  method LittleLast(crcs: array<bv32>, buf: array<byte>, p: nat, n: nat, w: nat, crcTable: array<bv32>) returns (crc: bv32)
    requires crcs.Length == n > 0 && w >= 4 && p + n * w <= buf.Length && ByteTable(crcTable[..])
    ensures crc == Finish(crcs[..], WordsAt(buf[..], p, n, w))
  {
    hide *;
    ghost var cs, ws, b := crcs[..], WordsAt(buf[..], p, n, w), buf[..];
    crc := 0;
    DoneEnds(cs, ws);
    var j := 0;
    while j < n
      invariant 0 <= j <= n && crc == Done(cs, ws, j)
    {
      WordAt(b, p, n, w, j);
      DoneNext(cs, ws, j);
      crc := LittleTake(crcs[j], crc, buf, WordPlace(p, j, w), w, crcTable);
      j := j + 1;
    }
  }

  /** crc = crc_word(crcj ^ words[j] ^ crc), the word at q. */
  method LittleTake(c: bv32, crc: bv32, buf: array<byte>, q: nat, w: nat, crcTable: array<bv32>) returns (r: bv32)
    requires w >= 4 && q + w <= buf.Length && ByteTable(crcTable[..])
    ensures r == Reg(Plus(c, crc), buf[q..q + w])
  {
    hide *;
    var word := Load(buf, q, w, false);
    FoldAll(Plus(c, crc), word);
    r := CrcWord(WordPlus(Split(Plus(c, crc), w), word), crcTable);
  }

  /** How far the blocks reach: blks more of them from p end at end. */
  ghost predicate Reach(p: int, blks: nat, size: nat, end: int) {
    p + blks * size == end
  }

  lemma ReachStep(p: int, blks: nat, size: nat, end: int)
    requires Reach(p, blks, size, end)
    ensures blks > 0 ==> Reach(p + size, blks - 1, size, end) && p + size <= end
    ensures blks == 0 ==> p == end
  {
    if blks > 0 {
      assert blks * size == (blks - 1) * size + size;
      assert (blks - 1) * size >= 0;
    }
  }

  /** The little-endian branch. */
  method LittleEndian(c: bv32, buf: array<byte>, p0: nat, blks0: nat, n: nat, w: nat, crcTable: array<bv32>, ltl: array2<bv32>, ghost end: int)
    returns (crc: bv32, p: nat)
    requires n > 0 && w >= 4 && blks0 > 0 && Reach(p0, blks0, n * w, end) && end <= buf.Length && BraidTable(ltl, n * w, w) && ByteTable(crcTable[..])
    ensures p == end && p0 <= p && crc == Reg(c, buf[p0..p])
  {
    hide BraidTable, ByteTable, StandFor, Reg, Finish, Plus, XP;
    var crcs := new bv32[n](i => if i == 0 then c else 0);
    FirstRegisters(crcs[..], w);
    RegEmpty(c);
    ReachStep(p0, blks0, n * w, end);
    assert buf[..][p0..p0] == [];
    p := LittleFirst(c, crcs, buf, p0, blks0, n, w, ltl, end);
    LastBlock(crcs[..], buf[..], p0, p, n, w, c);
    crc := LittleLast(crcs, buf, p, n, w, crcTable);
    p := p + n * w;
  }

  /** All blocks but the last. */
  method LittleFirst(c: bv32, crcs: array<bv32>, buf: array<byte>, p0: nat, blks0: nat, n: nat, w: nat, ltl: array2<bv32>, ghost end: int) returns (p: nat)
    requires crcs.Length == n > 0 && w >= 4 && blks0 > 0 && Reach(p0, blks0, n * w, end) && end <= buf.Length && BraidTable(ltl, n * w, w)
    requires ltl as object != crcs as object && buf as object != crcs as object
    requires p0 <= |buf[..]| && StandFor(crcs[..], w, Reg(c, buf[..][p0..p0]))
    modifies crcs
    ensures p0 <= p && p + n * w == end && StandFor(crcs[..], w, Reg(c, buf[..][p0..p]))
  {
    p := p0;
    var blks := blks0;
    ghost var b := buf[..];
    ReachStep(p, blks, n * w, end);
    hide *;
    while true
      invariant 0 < blks && p0 <= p && Reach(p, blks, n * w, end) && p + n * w <= end && StandFor(crcs[..], w, Reg(c, b[p0..p]))
      decreases blks
    {
      ReachStep(p, blks, n * w, end);
      blks := blks - 1;
      if blks == 0 {
        ReachStep(p + n * w, 0, n * w, end);
        break;
      }
      AfterBlock(crcs[..], b, p0, p, n, w, c);
      LittleBlock(crcs, buf, p, n, w, ltl);
      p := p + n * w;
      ReachStep(p, blks, n * w, end);
    }
  }

  // ---- the big-endian branch, on swapped registers ----

  /** The swapped register words hold the registers. */
  ghost predicate Swapped(crcs: seq<Word>, cs: seq<bv32>, w: nat) {
    |crcs| == |cs| && forall j :: 0 <= j < |cs| ==> crcs[j] == Swap(Split(cs[j], w))
  }

  method BraidStepBig(reg: Word, word: Word, big: array2<Word>, ghost c: bv32, ghost n: nat) returns (r: Word)
    requires n > 0 && |reg| == |word| >= 4 && BigTable(big, n * |word|, |word|) && reg == Swap(Split(c, |word|))
    ensures r == Swap(Split(Past(n, |word|, c, Swap(word)), |word|))
  {
    hide *;
    ghost var plain := Swap(word);
    SwapLaws(word, word);
    SwapLaws(Split(c, |word|), plain);
    SwapLaws(WordPlus(Split(c, |word|), plain), plain);
    WholeWord(n, c, plain);
    r := BraidWordBig(WordPlus(reg, word), big, n * |word|);
  }

  method BigBlock(crcs: array<Word>, buf: array<byte>, p: nat, n: nat, w: nat, big: array2<Word>, ghost cs: seq<bv32>)
    requires crcs.Length == n > 0 && w >= 4 && p + n * w <= buf.Length && BigTable(big, n * w, w) && Swapped(crcs[..], cs, w)
    requires big as object != crcs as object && buf as object != crcs as object
    modifies crcs
    ensures |cs| == n && Swapped(crcs[..], Advance(cs, WordsAt(buf[..], p, n, w), n, w), w)
  {
    ghost var ws, b := WordsAt(buf[..], p, n, w), buf[..];
    ghost var next := Advance(cs, ws, n, w);
    assert |cs| == n;
    MixedStart(crcs[..], next, cs, w);
    hide *;
    var j := 0;
    while j < n
      invariant 0 <= j <= n && Mixed(crcs[..], next, cs, j, w)
    {
      WordAt(b, p, n, w, j);
      AdvanceAt(cs, ws, n, w, j);
      BigTurn(crcs, buf, WordPlace(p, j, w), n, w, big, j, cs, next);
      j := j + 1;
    }
    AllSwapped(crcs[..], next, cs, w);
  }

  /** One braid of the block, its word at q. */
  method BigTurn(crcs: array<Word>, buf: array<byte>, q: nat, n: nat, w: nat, big: array2<Word>, j: nat, ghost cs: seq<bv32>, ghost next: seq<bv32>)
    requires n > 0 && w >= 4 && q + w <= buf.Length && BigTable(big, n * w, w) && Mixed(crcs[..], next, cs, j, w) && j < |cs| == |next|
    requires big as object != crcs as object && buf as object != crcs as object && next[j] == Past(n, w, cs[j], buf[q..q + w])
    modifies crcs
    ensures Mixed(crcs[..], next, cs, j + 1, w)
  {
    hide *;
    ghost var was := crcs[..];
    MixedStep(was, next, cs, j, w);
    var word := Load(buf, q, w, true);
    SwapLaws(buf[q..q + w], buf[q..q + w]);
    var x := BraidStepBig(crcs[j], word, big, cs[j], n);
    crcs[j] := x;
    assert crcs[..] == was[j := x];
  }

  /** Registers before j are the next ones, the others still the old ones; all swapped. */
  ghost predicate Mixed(crcs: seq<Word>, next: seq<bv32>, cs: seq<bv32>, j: int, w: nat) {
    |crcs| == |cs| == |next| && forall i :: 0 <= i < |cs| ==> crcs[i] == Swap(Split(if i < j then next[i] else cs[i], w))
  }

  lemma MixedStart(crcs: seq<Word>, next: seq<bv32>, cs: seq<bv32>, w: nat)
    requires Swapped(crcs, cs, w) && |next| == |cs|
    ensures Mixed(crcs, next, cs, 0, w)
  {
    hide Swap, Split;
  }

  lemma MixedStep(crcs: seq<Word>, next: seq<bv32>, cs: seq<bv32>, j: nat, w: nat)
    requires Mixed(crcs, next, cs, j, w) && j < |cs|
    ensures |crcs| == |next| == |cs| && crcs[j] == Swap(Split(cs[j], w)) && |crcs[j]| == w
    ensures Mixed(crcs[j := Swap(Split(next[j], w))], next, cs, j + 1, w)
  {
    assert |Swap(Split(cs[j], w))| == w;
    hide Swap, Split;
  }

  lemma AllSwapped(crcs: seq<Word>, next: seq<bv32>, cs: seq<bv32>, w: nat)
    requires Mixed(crcs, next, cs, |cs|, w)
    ensures Swapped(crcs, next, w)
  {
    hide Swap, Split;
  }

  method BigLast(crcs: array<Word>, buf: array<byte>, p: nat, n: nat, w: nat, bigByteTable: array<Word>, ghost cs: seq<bv32>) returns (comb: Word)
    requires crcs.Length == n > 0 && w >= 4 && p + n * w <= buf.Length && BigByteTable(bigByteTable[..], w) && Swapped(crcs[..], cs, w)
    ensures |cs| == n && comb == Swap(Split(Finish(cs, WordsAt(buf[..], p, n, w)), w))
  {
    assert |cs| == n;
    hide *;
    ghost var ws := WordsAt(buf[..], p, n, w);
    comb := Zeros(w);
    BigEnds(cs, ws, w);
    var j := 0;
    while j < n
      invariant 0 <= j <= n && Combined(comb, cs, ws, j, w)
    {
      WordAt(buf[..], p, n, w, j);
      comb := BigLastTurn(crcs, buf, WordPlace(p, j, w), w, bigByteTable, comb, j, cs, ws);
      j := j + 1;
    }
    CombinedAll(comb, cs, ws, w);
  }

  /** The combined register after j braids, swapped. */
  ghost predicate Combined(comb: Word, cs: seq<bv32>, ws: seq<Word>, j: nat, w: nat) {
    j <= |cs| == |ws| && |comb| == w && comb == Swap(Split(Done(cs, ws, j), w))
  }

  lemma BigEnds(cs: seq<bv32>, ws: seq<Word>, w: nat)
    requires |cs| == |ws|
    ensures Combined(Zeros(w), cs, ws, 0, w)
  {
    hide Done, Swap, Split, Zeros;
    DoneEnds(cs, ws);
    ZeroFits(w);
    SwapZeros(w);
  }

  lemma CombinedAll(comb: Word, cs: seq<bv32>, ws: seq<Word>, w: nat)
    requires |cs| == |ws| && Combined(comb, cs, ws, |cs|, w)
    ensures comb == Swap(Split(Finish(cs, ws), w))
  {
    hide Done, Swap, Split;
    DoneEnds(cs, ws);
  }

  method BigLastTurn(crcs: array<Word>, buf: array<byte>, q: nat, w: nat, bigByteTable: array<Word>, comb: Word, j: nat,
                     ghost cs: seq<bv32>, ghost ws: seq<Word>) returns (r: Word)
    requires w >= 4 && q + w <= buf.Length && BigByteTable(bigByteTable[..], w) && Swapped(crcs[..], cs, w) && j < |cs| == |ws|
    requires Combined(comb, cs, ws, j, w) && ws[j] == buf[q..q + w]
    ensures Combined(r, cs, ws, j + 1, w)
  {
    hide Done, Swap, Split, BigByteTable, Swapped, Reg, Plus;
    SwappedAt(crcs[..], cs, w, j);
    DoneNext(cs, ws, j);
    var word := Load(buf, q, w, true);
    r := BigTake(crcs[j], word, comb, bigByteTable, cs[j], Done(cs, ws, j), buf[q..q + w]);
  }

  lemma SwappedAt(crcs: seq<Word>, cs: seq<bv32>, w: nat, j: nat)
    requires Swapped(crcs, cs, w) && j < |cs|
    ensures j < |crcs| && crcs[j] == Swap(Split(cs[j], w)) && |crcs[j]| == w
  {
    assert |Swap(Split(cs[j], w))| == w;
    hide Swap, Split;
  }

  /** comb = crc_word_big(crc ^ word ^ comb). */
  method BigTake(reg: Word, word: Word, comb: Word, bigByteTable: array<Word>, ghost c: bv32, ghost f: bv32, ghost plain: Word) returns (r: Word)
    requires |reg| == |word| == |comb| == |plain| >= 4 && word == Swap(plain) && BigByteTable(bigByteTable[..], |word|)
    requires reg == Swap(Split(c, |word|)) && comb == Swap(Split(f, |word|))
    ensures |r| == |word| && r == Swap(Split(Reg(Plus(c, f), plain), |word|))
  {
    hide *;
    BigFold(reg, word, comb, c, f, plain);
    r := CrcWordBig(WordPlus(WordPlus(reg, word), comb), bigByteTable);
  }

  lemma SwapZeros(w: nat)
    ensures Swap(Zeros(w)) == Zeros(w)
  {
  }

  /** Swapped register, data and combined register, added up, are the sum of the plain ones swapped. */
  lemma BigFold(reg: Word, word: Word, comb: Word, c: bv32, f: bv32, plain: Word)
    requires |reg| == |word| == |comb| == |plain| >= 4 && word == Swap(plain)
    requires reg == Swap(Split(c, |word|)) && comb == Swap(Split(f, |word|))
    ensures Reg(0, Swap(WordPlus(WordPlus(reg, word), comb))) == Reg(Plus(c, f), plain)
  {
    hide *;
    var w, sc, sf := |word|, Split(c, |word|), Split(f, |word|);
    SwapLaws(sc, plain);
    SwapLaws(WordPlus(sc, plain), sf);
    SwapLaws(WordPlus(WordPlus(sc, plain), sf), sf);
    WordAssociates(sc, plain, sf);
    WordCommutes(plain, sf);
    WordAssociates(sc, sf, plain);
    SplitPlus(c, f, w);
    FoldAll(Plus(c, f), plain);
  }

  lemma WordCommutes(u: Word, v: Word)
    requires |u| == |v|
    ensures WordPlus(u, v) == WordPlus(v, u)
  {
    forall k | 0 <= k < |u| ensures PlusB(u[k], v[k]) == PlusB(v[k], u[k]) { ByteXorCommutes(u[k], v[k]); }
    hide PlusB;
  }

  /** The big-endian branch. */
  method BigEndian(c: bv32, buf: array<byte>, p0: nat, blks0: nat, n: nat, w: nat, bigByteTable: array<Word>, big: array2<Word>, ghost end: int)
    returns (crc: bv32, p: nat)
    requires n > 0 && w >= 4 && blks0 > 0 && Reach(p0, blks0, n * w, end) && end <= buf.Length && BigTable(big, n * w, w)
    requires BigByteTable(bigByteTable[..], w)
    ensures p == end && p0 <= p && crc == Reg(c, buf[p0..p])
  {
    hide *;
    ReachStep(p0, blks0, n * w, end);
    var crcs;
    ghost var cs;
    crcs, cs := StartBig(c, n, w);
    EmptyReg(c, buf[..], p0);
    p, cs := BigFirst(c, crcs, buf, p0, blks0, n, w, big, end, cs);
    LastBlock(cs, buf[..], p0, p, n, w, c);
    var comb := BigLast(crcs, buf, p, n, w, bigByteTable, cs);
    p := p + n * w;
    SwapBack(Reg(c, buf[p0..p]), w);
    crc := Join(Swap(comb));
  }

  /** The first braid starts with the swapped register, the others with zero. */
  method StartBig(c: bv32, n: nat, w: nat) returns (crcs: array<Word>, ghost cs: seq<bv32>)
    requires n > 0
    ensures fresh(crcs) && crcs.Length == n == |cs| && Swapped(crcs[..], cs, w) && StandFor(cs, w, c)
  {
    hide *;
    crcs := new Word[n](i => if i == 0 then Swap(Split(c, w)) else Zeros(w));
    cs := FirstSwapped(c, crcs[..], n, w);
  }

  lemma EmptyReg(c: bv32, b: seq<byte>, p: nat)
    requires p <= |b|
    ensures Reg(c, b[p..p]) == c
  {
    assert b[p..p] == [];
  }

  lemma SwapBack(r: bv32, w: nat)
    requires w >= 4
    ensures Join(Swap(Swap(Split(r, w)))) == r
  {
    hide *;
    SwapLaws(Split(r, w), Split(r, w));
    FourBytes(r, w);
    JoinSplit(r, w);
  }

  lemma FirstSwapped(c: bv32, crcs: seq<Word>, n: nat, w: nat) returns (cs: seq<bv32>)
    requires |crcs| == n > 0 && forall i :: 0 <= i < n ==> crcs[i] == if i == 0 then Swap(Split(c, w)) else Zeros(w)
    ensures |cs| == n && Swapped(crcs, cs, w) && StandFor(cs, w, c)
  {
    cs := seq(n, i => if i == 0 then c else 0);
    hide Swap, Split, StandFor;
    ZeroFits(w);
    SwapZeros(w);
    FirstRegisters(cs, w);
  }

  method BigFirst(c: bv32, crcs: array<Word>, buf: array<byte>, p0: nat, blks0: nat, n: nat, w: nat, big: array2<Word>, ghost end: int, ghost cs0: seq<bv32>)
    returns (p: nat, ghost cs: seq<bv32>)
    requires crcs.Length == n > 0 && w >= 4 && blks0 > 0 && Reach(p0, blks0, n * w, end) && end <= buf.Length && BigTable(big, n * w, w)
    requires big as object != crcs as object && buf as object != crcs as object
    requires p0 <= |buf[..]| && |cs0| == n && Swapped(crcs[..], cs0, w) && StandFor(cs0, w, Reg(c, buf[..][p0..p0]))
    modifies crcs
    ensures p0 <= p && p + n * w == end && |cs| == n && Swapped(crcs[..], cs, w) && StandFor(cs, w, Reg(c, buf[..][p0..p]))
  {
    p, cs := p0, cs0;
    var blks := blks0;
    ghost var b := buf[..];
    ReachStep(p, blks, n * w, end);
    hide *;
    while true
      invariant 0 < blks && p0 <= p && Reach(p, blks, n * w, end) && p + n * w <= end
      invariant |cs| == n && Swapped(crcs[..], cs, w) && StandFor(cs, w, Reg(c, b[p0..p]))
      decreases blks
    {
      ReachStep(p, blks, n * w, end);
      blks := blks - 1;
      if blks == 0 {
        ReachStep(p + n * w, 0, n * w, end);
        break;
      }
      AfterBlock(cs, b, p0, p, n, w, c);
      BigBlock(crcs, buf, p, n, w, big, cs);
      cs := Advance(cs, WordsAt(b, p, n, w), n, w);
      p := p + n * w;
      ReachStep(p, blks, n * w, end);
    }
  }

  // ---- crc32_z ----

  /** The tables in use. */
  datatype Tables = Tables(crcTable: array<bv32>, bigByteTable: array<Word>, ltl: array2<bv32>, big: array2<Word>)

  ghost predicate Ready(t: Tables, n: nat, w: nat)
    reads t.crcTable, t.bigByteTable, t.ltl, t.big
  {
    ByteTable(t.crcTable[..]) && BigByteTable(t.bigByteTable[..], w) && BraidTable(t.ltl, n * w, w) && BigTable(t.big, n * w, w)
  }

  /** How far the next multiple of w is. */
  function Distance(addr: nat, w: nat): (d: nat)
    requires w > 0
    ensures d < w
  {
    if addr % w == 0 then 0 else w - addr % w
  }

  lemma DistanceReached(addr: nat, w: nat)
    requires w > 0
    ensures (addr + Distance(addr, w)) % w == 0
  {
    var q, d := addr / w, Distance(addr, w);
    assert addr == q * w + addr % w;
    if addr % w != 0 {
      assert (q + 1) * w == q * w + w;
      Common.DivModUnique(addr + d, w, q + 1, 0);
    }
  }

  /** make_crc_table: the byte tables, the powers of x and the braid tables. */
  method MakeTables(n: nat, w: nat) returns (t: Tables)
    requires n > 0 && w > 0
    ensures Ready(t, n, w)
  {
    hide *;
    var crcTable := new bv32[256](_ => 0);
    MakeCrcTable(crcTable);
    var bigByteTable := MakeBigTable(crcTable, w);
    var x2n := new bv32[32](_ => 0);
    MakeX2n(x2n);
    var ltl := new bv32[w, 256]((i, j) => 0);
    var big := new Word[w, 256]((i, j) => []);
    Braid(ltl, big, n, w, x2n);
    t := Tables(crcTable, bigByteTable, ltl, big);
    TablesReady(t, n, w);
  }

  lemma TablesReady(t: Tables, n: nat, w: nat)
    requires ByteTable(t.crcTable[..]) && BigByteTable(t.bigByteTable[..], w) && BraidTable(t.ltl, n * w, w) && BigTable(t.big, n * w, w)
    ensures Ready(t, n, w)
  {
  }

  method MakeBigTable(crcTable: array<bv32>, w: nat) returns (bigTable: array<Word>)
    requires ByteTable(crcTable[..])
    ensures fresh(bigTable) && BigByteTable(bigTable[..], w)
  {
    bigTable := new Word[256](_ => []);
    hide Entry, Swap, Split;
    var i := 0;
    while i < 256
      invariant 0 <= i <= 256 && forall k :: 0 <= k < i ==> bigTable[k] == Swap(Split(Entry(k), w))
      modifies bigTable
    {
      bigTable[i] := Swap(Split(crcTable[i], w));
      i := i + 1;
    }
  }

  /** Bytes up to a word boundary, for a buffer at address addr. */
  method ToBoundary(c0: bv32, buf: array<byte>, addr: nat, w: nat, crcTable: array<bv32>) returns (c: bv32, p: nat)
    requires w > 0 && ByteTable(crcTable[..])
    ensures p <= buf.Length && p < w && c == Reg(c0, buf[..p]) && (p < buf.Length ==> (addr + p) % w == 0)
  {
    c, p := c0, 0;
    RegEmpty(c0);
    assert buf[..0] == [];
    DistanceReached(addr, w);
    hide *;
    while p < buf.Length && (addr + p) % w != 0
      invariant 0 <= p <= buf.Length && p <= Distance(addr, w) && c == Reg(c0, buf[..p])
    {
      c := TakeByte(c, buf[p], crcTable);
      NextReg(c0, buf[..], p);
      p := p + 1;
    }
  }

  lemma NextReg(c: bv32, b: seq<byte>, p: nat)
    requires p < |b|
    ensures Reg(c, b[..p + 1]) == Feed(Reg(c, b[..p]), b[p])
  {
    assert b[..p + 1][..p] == b[..p];
  }

  /** The remaining bytes, eight at a time and then one at a time. */
  method Remaining(c0: bv32, buf: array<byte>, p0: nat, crcTable: array<bv32>, ghost start: bv32) returns (c: bv32)
    requires p0 <= buf.Length && ByteTable(crcTable[..]) && c0 == Reg(start, buf[..p0])
    ensures c == Reg(start, buf[..])
  {
    c := c0;
    var p, len := p0, buf.Length - p0;
    hide *;
    while len >= 8
      invariant 0 <= len && p + len == buf.Length && c == Reg(start, buf[..p])
    {
      len := len - 8;
      var i := 0;
      while i < 8
        invariant 0 <= i <= 8 && p + 8 - i + len == buf.Length && c == Reg(start, buf[..p])
      {
        c := TakeByte(c, buf[p], crcTable);
        NextReg(start, buf[..], p);
        p := p + 1;
        i := i + 1;
      }
    }
    while len > 0
      invariant 0 <= len && p + len == buf.Length && c == Reg(start, buf[..p])
    {
      len := len - 1;
      c := TakeByte(c, buf[p], crcTable);
      NextReg(start, buf[..], p);
      p := p + 1;
    }
    assert buf[..p] == buf[..];
  }

  /** crc32_z, for any number n of braids, words of w bytes, either byte order and any address of the buffer. */
  method CrcZ(crc: bv32, buf: array?<byte>, addr: nat, n: nat, w: nat, bigEndian: bool, t: Tables) returns (r: bv32)
    requires n > 0 && (w == 4 || w == 8) && Ready(t, n, w)
    ensures r == if buf == null then 0 else Crc(crc, buf[..])
  {
    if buf == null { return 0; }
    ghost var start := Plus(crc, ALL);
    var c, p := Plus(crc, ALL), 0;
    RegEmpty(start);
    assert buf[..0] == [];
    hide *;
    if buf.Length >= n * w + w - 1 {
      c, p := ToBoundary(c, buf, addr, w, t.crcTable);
      c, p := Braided(c, buf, p, n, w, bigEndian, t, start);
    }
    c := Remaining(c, buf, p, t.crcTable, start);
    CrcIs(crc, buf[..]);
    r := Plus(c, ALL);
  }

  lemma CrcIs(crc: bv32, b: seq<byte>)
    ensures Crc(crc, b) == Plus(Reg(Plus(crc, ALL), b), ALL)
  {
  }

  method Braided(c0: bv32, buf: array<byte>, p0: nat, n: nat, w: nat, bigEndian: bool, t: Tables, ghost start: bv32) returns (c: bv32, p: nat)
    requires n > 0 && w >= 4 && Ready(t, n, w) && p0 + n * w <= buf.Length && c0 == Reg(start, buf[..p0])
    ensures p0 <= p <= buf.Length && c == Reg(start, buf[..p])
  {
    var blks := (buf.Length - p0) / (n * w);
    ghost var end := p0 + blks * (n * w);
    SomeBlocks(buf.Length - p0, n * w, blks);
    assert Reach(p0, blks, n * w, end);
    var crcTable, bigByteTable, ltl, big := t.crcTable, t.bigByteTable, t.ltl, t.big;
    assert ByteTable(crcTable[..]) && BigByteTable(bigByteTable[..], w) && BraidTable(ltl, n * w, w) && BigTable(big, n * w, w);
    hide *;
    if !bigEndian {
      c, p := LittleEndian(c0, buf, p0, blks, n, w, crcTable, ltl, end);
    } else {
      c, p := BigEndian(c0, buf, p0, blks, n, w, bigByteTable, big, end);
    }
    RegConcat(start, buf[..p0], buf[p0..p]);
    assert buf[..p0] + buf[p0..p] == buf[..p];
  }

  lemma SomeBlocks(len: nat, size: nat, blks: nat)
    requires 0 < size <= len && blks == len / size
    ensures blks > 0 && blks * size <= len
  {
    assert len == len / size * size + len % size;
    if blks == 0 { assert 0 * size == 0; }
  }
}
