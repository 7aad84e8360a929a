/** Machine words as rows of bytes, and a CRC register folded into a word: why a word at a time gives what bytes give. */
module CrcWords {
  import opened Gf2
  import opened CrcRegister

  /** A word's bytes, least significant first. */
  type Word = seq<byte>

  function PlusB(a: byte, b: byte): byte {
    a ^ b
  }

  function WordPlus(u: Word, v: Word): (r: Word)
    requires |u| == |v|
    ensures |r| == |u|
  {
    seq(|u|, k requires 0 <= k < |u| => PlusB(u[k], v[k]))
  }

  function Zeros(n: nat): (r: Word)
    ensures |r| == n
  {
    seq(n, _ => 0)
  }

  /** byte_swap. */
  function Swap(w: Word): (r: Word)
    ensures |r| == |w| && forall k :: 0 <= k < |w| ==> r[k] == w[|w| - 1 - k]
  {
    seq(|w|, k requires 0 <= k < |w| => w[|w| - 1 - k])
  }

  lemma SwapLaws(u: Word, v: Word)
    requires |u| == |v|
    ensures Swap(Swap(u)) == u
    ensures Swap(WordPlus(u, v)) == WordPlus(Swap(u), Swap(v))
  {
  }

  function LowOf(c: bv32): byte {
    (c & 0xff) as byte
  }

  /** A register value as a word of n bytes. */
  function Split(c: bv32, n: nat): (w: Word)
    ensures |w| == n
    decreases n
  {
    if n == 0 then [] else [LowOf(c)] + Split(Down(c), n - 1)
  }

  /** A word cut to a register value. */
  function Join(w: Word): bv32 {
    if w == [] then 0 else Plus(w[0] as bv32, Join(w[1..]) << 8)
  }

  /** c has no bits beyond its first n bytes. */
  predicate Fits(c: bv32, n: nat)
    decreases n
  {
    if n == 0 then c == 0 else Fits(Down(c), n - 1)
  }

  lemma {:induction false} FourBytes(c: bv32, n: nat)
    ensures n >= 4 ==> Fits(c, n)
    decreases n
  {
    if n >= 4 {
      var d := Down(Down(Down(Down(c))));
      AllDown(c);
      assert Fits(c, n) == Fits(Down(c), n - 1) == Fits(Down(Down(c)), n - 2) == Fits(Down(Down(Down(c))), n - 3) == Fits(d, n - 4);
      ZeroFits(n - 4);
    }
  }

  lemma AllDown(c: bv32)
    ensures Down(Down(Down(Down(c)))) == 0
  {
  }

  lemma {:induction false} ZeroFits(n: nat)
    ensures Fits(0, n) && Split(0, n) == Zeros(n)
  {
    DownZero();
    if n > 0 { ZeroFits(n - 1); }
  }

  lemma DownZero()
    ensures Down(0) == 0 && LowOf(0) == 0
  {
  }

  lemma {:induction false} JoinSplit(c: bv32, n: nat)
    requires Fits(c, n)
    ensures Join(Split(c, n)) == c
    decreases n
  {
    if n > 0 {
      JoinSplit(Down(c), n - 1);
      assert Split(c, n)[1..] == Split(Down(c), n - 1);
      UpDown(c);
    }
  }

  lemma UpDown(c: bv32)
    ensures Plus(LowOf(c) as bv32, Down(c) << 8) == c
  {
  }

  lemma {:induction false} SplitPlus(c: bv32, d: bv32, n: nat)
    ensures Split(Plus(c, d), n) == WordPlus(Split(c, n), Split(d, n))
    decreases n
  {
    hide Plus, LowOf, Down, PlusB;
    if n > 0 {
      SplitPlus(Down(c), Down(d), n - 1);
      PlusParts(c, d);
    }
  }

  lemma PlusParts(c: bv32, d: bv32)
    ensures Down(Plus(c, d)) == Plus(Down(c), Down(d)) && LowOf(Plus(c, d)) == PlusB(LowOf(c), LowOf(d))
  {
    DownPlus(c, d);
    LowPlus(c, d);
  }

  lemma DownPlus(c: bv32, d: bv32)
    ensures (c ^ d) >> 8 == (c >> 8) ^ (d >> 8)
  {
  }

  lemma LowPlus(c: bv32, d: bv32)
    ensures ((c ^ d) & 0xff) as byte == ((c & 0xff) as byte) ^ ((d & 0xff) as byte)
  {
  }

  /** The top byte of a register value in a word is zero once four bytes are there. */
  lemma {:induction false} SplitDown(c: bv32, n: nat)
    requires Fits(c, n) && n > 0
    ensures Split(Down(c), n) == Split(c, n)[1..] + [0]
    decreases n
  {
    if n == 1 {
      assert Down(c) == 0;
      ZeroFits(1);
      assert Split(Down(c), 1) == [0];
      assert Split(c, 1)[1..] == [];
    } else {
      SplitDown(Down(c), n - 1);
      assert Split(c, n)[1..] == Split(Down(c), n - 1);
      assert Split(Down(c), n) == [LowOf(Down(c))] + Split(Down(Down(c)), n - 1);
      assert Split(Down(c), n - 1) == [LowOf(Down(c))] + Split(Down(Down(c)), n - 2);
    }
  }

  // ---- registers folded into words ----

  lemma RegFront(c: bv32, b: byte, rest: seq<byte>)
    ensures Reg(c, [b] + rest) == Reg(Feed(c, b), rest)
  {
    hide Feed;
    RegConcat(c, [b], rest);
    assert [b][..0] == [];
  }

  /** Feeding a byte takes one byte off the register's value; that byte may as well be folded into the data. */
  lemma FeedFolded(c: bv32, d: bv32, b: byte)
    ensures Feed(Plus(c, d), b) == Plus(Down(c), Feed(d, PlusB(LowOf(c), b)))
  {
    var e, l := b as bv32, Low(c);
    hide *;
    var x := Plus(d, Plus(l, e));
    FoldedArgument(c, d, e);
    HighDown(c);
    X8Linear(High(c), x);
    FeedIs(Plus(c, d), b);
    FeedIs(d, PlusB(LowOf(c), b));
    ByteXor(c, b);
  }

  lemma FeedIs(c: bv32, b: byte)
    ensures Feed(c, b) == X8(Plus(c, b as bv32))
  {
  }

  lemma ByteXor(c: bv32, b: byte)
    ensures PlusB(LowOf(c), b) as bv32 == Plus(Low(c), b as bv32)
  {
  }

  lemma FoldedArgument(c: bv32, d: bv32, e: bv32)
    ensures Plus(Plus(c, d), e) == Plus(High(c), Plus(d, Plus(Low(c), e)))
  {
    hide Plus, High, Low;
    SplitByte(c);
    var h, l := High(c), Low(c);
    PlusAssociates(h, l, d);
    PlusAssociates(h, Plus(l, d), e);
    PlusCommutes(l, d);
    PlusAssociates(d, l, e);
  }

  /** Bytes through a register holding c are the bytes with c folded in, through a register without it. */
  lemma {:induction false} Fold(c: bv32, d: bv32, w: Word)
    requires Fits(c, |w|)
    ensures Reg(Plus(c, d), w) == Reg(d, WordPlus(Split(c, |w|), w))
    decreases |w|
  {
    hide Plus, Feed, Reg, Down, LowOf, PlusB;
    if w == [] {
      PlusZero(d);
    } else {
      var b, rest := w[0], w[1..];
      assert w == [b] + rest;
      RegFront(Plus(c, d), b, rest);
      FeedFolded(c, d, b);
      Fold(Down(c), Feed(d, PlusB(LowOf(c), b)), rest);
      RegFront(d, PlusB(LowOf(c), b), WordPlus(Split(Down(c), |rest|), rest));
      assert WordPlus(Split(c, |w|), w) == [PlusB(LowOf(c), b)] + WordPlus(Split(Down(c), |rest|), rest);
    }
  }

  /** A register folded into a whole word. */
  lemma FoldAll(c: bv32, w: Word)
    requires |w| >= 4
    ensures Reg(0, WordPlus(Split(c, |w|), w)) == Reg(c, w)
  {
    FourBytes(c, |w|);
    Fold(c, 0, w);
    PlusZero(c);
  }

  // ---- crc_word ----

  /** After k bytes of the word have gone, what is left of it with the register folded in. */
  function Left(w: Word, k: nat): (d: Word)
    requires k <= |w|
    ensures |d| == |w|
  {
    WordPlus(w[k..] + Zeros(k), Split(Reg(0, w[..k]), |w|))
  }

  lemma LeftShifted(w: Word, k: nat)
    requires k < |w| && |w| >= 4
    ensures Left(w, k)[0] == PlusB(LowOf(Reg(0, w[..k])), w[k])
    ensures Left(w, k)[1..] + [0] == WordPlus(w[k + 1..] + Zeros(k + 1), Split(Down(Reg(0, w[..k])), |w|))
  {
    hide *;
    var r, n := Reg(0, w[..k]), |w|;
    FourBytes(r, n);
    SplitDown(r, n);
    SplitFirst(r, n);
    ByteXorCommutes(w[k], LowOf(r));
    ShiftedIn(w, k);
    LeftIs(w, k);
    WordShift(w[k..] + Zeros(k), Split(r, n));
  }

  lemma LeftIs(w: Word, k: nat)
    requires k <= |w|
    ensures Left(w, k) == WordPlus(w[k..] + Zeros(k), Split(Reg(0, w[..k]), |w|))
  {
  }

  lemma SplitFirst(c: bv32, n: nat)
    requires n > 0
    ensures Split(c, n)[0] == LowOf(c)
  {
  }

  lemma ShiftedIn(w: Word, k: nat)
    requires k < |w|
    ensures (w[k..] + Zeros(k))[1..] + [0] == w[k + 1..] + Zeros(k + 1) && (w[k..] + Zeros(k))[0] == w[k]
  {
  }

  lemma WordShift(u: Word, v: Word)
    requires |u| == |v| > 0
    ensures WordPlus(u, v)[1..] + [0] == WordPlus(u[1..] + [0], v[1..] + [0]) && WordPlus(u, v)[0] == PlusB(u[0], v[0])
  {
    ByteZero(0);
    hide PlusB;
  }

  lemma LeftStep(w: Word, k: nat)
    requires k < |w| && |w| >= 4
    ensures Left(w, k + 1) == WordPlus(Left(w, k)[1..] + [0], Split(X8(Left(w, k)[0] as bv32), |w|))
  {
    var r, n, b := Reg(0, w[..k]), |w|, w[k];
    var e := PlusB(LowOf(r), b);
    assert w[..k + 1][..k] == w[..k] && w[..k + 1][k] == b;
    assert Reg(0, w[..k + 1]) == Feed(r, b);
    LeftShifted(w, k);
    hide Plus, X8, Feed, Down, LowOf, PlusB, Reg, Split, WordPlus;
    FeedFolded(r, 0, b);
    PlusZero(r);
    FeedIs(0, e);
    PlusZero(e as bv32);
    SplitPlus(Down(r), X8(e as bv32), n);
    WordAssociates(w[k + 1..] + Zeros(k + 1), Split(Down(r), n), Split(X8(e as bv32), n));
  }

  lemma ByteXorCommutes(a: byte, b: byte)
    ensures PlusB(a, b) == PlusB(b, a)
  {
  }

  lemma WordAssociates(u: Word, v: Word, w: Word)
    requires |u| == |v| == |w|
    ensures WordPlus(WordPlus(u, v), w) == WordPlus(u, WordPlus(v, w))
  {
    hide PlusB;
    forall k | 0 <= k < |u| ensures PlusB(PlusB(u[k], v[k]), w[k]) == PlusB(u[k], PlusB(v[k], w[k])) { ByteAssociates(u[k], v[k], w[k]); }
  }

  lemma ByteAssociates(a: byte, b: byte, c: byte)
    ensures PlusB(PlusB(a, b), c) == PlusB(a, PlusB(b, c))
  {
  }

  lemma LeftEnds(w: Word)
    requires |w| >= 4
    ensures Left(w, 0) == w && Left(w, |w|) == Split(Reg(0, w), |w|) && Join(Left(w, |w|)) == Reg(0, w)
  {
    hide PlusB, Plus, Feed, Split, Join;
    ZeroFits(|w|);
    assert w[0..] + Zeros(0) == w && w[..0] == [] && w[|w|..] == [] && w[..|w|] == w;
    FourBytes(Reg(0, w), |w|);
    JoinSplit(Reg(0, w), |w|);
    XorZeroWord(w);
    XorZeroWord(Split(Reg(0, w), |w|));
    assert [] + Zeros(|w|) == Zeros(|w|);
  }

  lemma XorZeroWord(w: Word)
    ensures WordPlus(w, Zeros(|w|)) == w && WordPlus(Zeros(|w|), w) == w
  {
    hide PlusB;
    forall k | 0 <= k < |w| ensures PlusB(w[k], 0) == w[k] && PlusB(0, w[k]) == w[k] { ByteZero(w[k]); }
  }

  lemma ByteZero(a: byte)
    ensures PlusB(a, 0) == a && PlusB(0, a) == a
  {
  }
}
