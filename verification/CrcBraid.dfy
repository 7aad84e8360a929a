/** crc32_z: N registers in step, each taking every N-th word, and their tables; in both byte orders. */
module CrcBraid {
  import opened Gf2
  import opened CrcPowers
  import opened CrcRegister
  import opened CrcWords
  import opened Common

  // ---- one word through a braid table ----

  /** What entry (k, i) of the table for n words of w bytes is to be: byte i moved past n * w - k bytes. */
  function BraidEntry(m: nat, k: nat, i: int): bv32
    requires k <= m && 0 <= i < 256
  {
    XP(8 * (m - k), (i as byte) as bv32)
  }

  /** Sum of the table values of the first k bytes of a word. */
  function Terms(w: Word, k: nat, m: nat): bv32
    requires k <= |w| <= m
  {
    if k == 0 then 0 else Plus(Terms(w, k - 1, m), XP(8 * (m - (k - 1)), w[k - 1] as bv32))
  }

  lemma {:induction false} TermsAreReg(w: Word, k: nat, m: nat)
    requires k <= |w| <= m
    ensures Terms(w, k, m) == XP(8 * (m - k), Reg(0, w[..k]))
  {
    hide Plus, X8, X, XP;
    if k == 0 {
      XPLinear(8 * m, 0, 0);
      assert w[..0] == [];
    } else {
      TermsAreReg(w, k - 1, m);
      assert w[..k][..k - 1] == w[..k - 1];
      var r, b, e := Reg(0, w[..k - 1]), w[k - 1] as bv32, 8 * (m - k);
      XPLinear(e + 8, r, b);
      XPAdd(e, 8, Plus(r, b));
      XP8(0, Plus(r, b));
    }
  }

  /** A braid's register after a word: the word taken in, then moved past the other braids' words. */
  function Past(n: nat, w: nat, c: bv32, word: Word): bv32
    requires n > 0
  {
    XP(8 * ((n - 1) * w), Reg(c, word))
  }

  lemma WholeWord(n: nat, c: bv32, word: Word)
    requires n > 0 && |word| >= 4
    ensures |word| <= n * |word| && Terms(WordPlus(Split(c, |word|), word), |word|, n * |word|) == Past(n, |word|, c, word)
  {
    var w := |word|;
    assert n * w == (n - 1) * w + w;
    assert (n - 1) * w >= 0;
    hide Plus, XP, Reg, Split, WordPlus, Terms;
    var x := WordPlus(Split(c, w), word);
    TermsAreReg(x, w, n * w);
    assert x[..w] == x;
    FoldAll(c, word);
  }

  // ---- the registers together ----

  /** What the braids' registers amount to, after a further word each, were all data zero. */
  function Value(cs: seq<bv32>, w: nat): bv32 {
    if cs == [] then 0 else XP(8 * w, Plus(Value(cs[..|cs| - 1], w), cs[|cs| - 1]))
  }

  /** The last block: every braid's word in turn, the register going along. */
  function Finish(cs: seq<bv32>, ws: seq<Word>): bv32
    requires |cs| == |ws|
  {
    if cs == [] then 0 else Reg(Plus(cs[|cs| - 1], Finish(cs[..|cs| - 1], ws[..|ws| - 1])), ws[|ws| - 1])
  }

  function Flat(ws: seq<Word>): seq<byte> {
    if ws == [] then [] else Flat(ws[..|ws| - 1]) + ws[|ws| - 1]
  }

  lemma {:induction false} FlatLength(ws: seq<Word>, w: nat)
    requires forall j :: 0 <= j < |ws| ==> |ws[j]| == w
    ensures |Flat(ws)| == |ws| * w
  {
    if ws != [] {
      FlatLength(ws[..|ws| - 1], w);
      assert (|ws| - 1) * w + w == |ws| * w;
    }
  }

  /** The braids' registers stand for one register r before their next words. */
  ghost predicate StandFor(cs: seq<bv32>, w: nat, r: bv32) {
    Value(cs, w) == XP(8 * (|cs| * w), r)
  }

  lemma {:induction false} FinishSplits(cs: seq<bv32>, ws: seq<Word>, w: nat)
    requires |cs| == |ws| && forall j :: 0 <= j < |ws| ==> |ws[j]| == w
    ensures Finish(cs, ws) == Plus(Value(cs, w), Reg(0, Flat(ws)))
  {
    hide Plus, XP, Reg;
    if cs == [] {
      PlusZero(0);
      RegEmpty(0);
    } else {
      var k := |cs| - 1;
      var c, v, word := cs[k], Value(cs[..k], w), ws[k];
      FinishSplits(cs[..k], ws[..k], w);
      var r := Reg(0, Flat(ws[..k]));
      PlusAssociates(c, v, r);
      PlusCommutes(c, v);
      RegLinear(Plus(v, c), r, word);
      RegConcat(0, Flat(ws[..k]), word);
    }
  }

  lemma RegEmpty(c: bv32)
    ensures Reg(c, []) == c
  {
  }

  /** Finishing is running the one register over the block. */
  lemma FinishIsReg(cs: seq<bv32>, ws: seq<Word>, w: nat, r: bv32)
    requires |cs| == |ws| && (forall j :: 0 <= j < |ws| ==> |ws[j]| == w) && StandFor(cs, w, r)
    ensures Finish(cs, ws) == Reg(r, Flat(ws))
  {
    hide Plus, XP, Reg, Value, Finish, Flat;
    FinishSplits(cs, ws, w);
    FlatLength(ws, w);
    RegFrom(r, Flat(ws));
  }

  /** The braids' registers after a block. */
  function Advance(cs: seq<bv32>, ws: seq<Word>, n: nat, w: nat): (r: seq<bv32>)
    requires |cs| == |ws| && n > 0
    ensures |r| == |cs|
  {
    seq(|cs|, j requires 0 <= j < |cs| => Past(n, w, cs[j], ws[j]))
  }

  lemma {:induction false} AdvanceValue(cs: seq<bv32>, ws: seq<Word>, n: nat, w: nat)
    requires |cs| == |ws| && n > 0 && forall j :: 0 <= j < |ws| ==> |ws[j]| == w
    ensures Value(Advance(cs, ws, n, w), w) == XP(8 * (n * w), Finish(cs, ws))
  {
    hide Plus, XP, Reg;
    if cs == [] {
      XPLinear(8 * (n * w), 0, 0);
    } else {
      var k := |cs| - 1;
      AdvanceValue(cs[..k], ws[..k], n, w);
      assert Advance(cs, ws, n, w)[..k] == Advance(cs[..k], ws[..k], n, w);
      AdvanceOne(cs[k], Finish(cs[..k], ws[..k]), ws[k], n, w);
    }
  }

  lemma AdvanceOne(c: bv32, f: bv32, word: Word, n: nat, w: nat)
    requires n > 0 && |word| == w
    ensures XP(8 * w, Plus(XP(8 * (n * w), f), Past(n, w, c, word))) == XP(8 * (n * w), Reg(Plus(c, f), word))
  {
    assert n * w == (n - 1) * w + w;
    assert (n - 1) * w >= 0;
    hide Plus, XP, Reg;
    PlusCommutes(c, f);
    RegLinear(f, c, word);
    AdvanceSum(f, Reg(c, word), 8 * w, 8 * ((n - 1) * w), 8 * (n * w));
  }

  lemma AdvanceSum(f: bv32, r: bv32, e: nat, most: nat, all: nat)
    requires all == e + most
    ensures XP(e, Plus(XP(all, f), XP(most, r))) == XP(all, Plus(XP(e, f), r))
  {
    hide Plus, XP;
    XPLinear(e, XP(all, f), XP(most, r));
    XPAdd(e, most, r);
    XPAdd(e, all, f);
    XPAdd(all, e, f);
    XPLinear(all, XP(e, f), r);
  }

  /** A block keeps the registers in step with the one register. */
  lemma BlockStep(cs: seq<bv32>, ws: seq<Word>, n: nat, w: nat, r: bv32)
    requires |cs| == |ws| == n > 0 && (forall j :: 0 <= j < |ws| ==> |ws[j]| == w) && StandFor(cs, w, r)
    ensures StandFor(Advance(cs, ws, n, w), w, Reg(r, Flat(ws)))
  {
    hide XP, Reg, Value, Finish, Flat, Past;
    AdvanceValue(cs, ws, n, w);
    FinishIsReg(cs, ws, w, r);
  }

  /** At first the one register is the first braid's. */
  lemma {:induction false} FirstRegisters(cs: seq<bv32>, w: nat)
    requires |cs| > 0 && forall j :: 1 <= j < |cs| ==> cs[j] == 0
    ensures StandFor(cs, w, cs[0])
  {
    hide Plus, XP;
    var k := |cs| - 1;
    if k == 0 {
      assert cs[..0] == [];
      PlusZero(cs[0]);
      assert |cs| * w == w;
      assert Value([], w) == 0;
    } else {
      FirstRegisters(cs[..k], w);
      PlusZero(Value(cs[..k], w));
      XPAdd(8 * w, 8 * (k * w), cs[0]);
      assert k * w + w == (k + 1) * w;
      assert 8 * w + 8 * (k * w) == 8 * ((k + 1) * w);
    }
  }

  // ---- building the tables ----

  /** The tables for w-byte words of which a block has m bytes. */
  ghost predicate BraidTable(ltl: array2<bv32>, m: nat, w: nat)
    reads ltl
  {
    ltl.Length0 == w && ltl.Length1 == 256 && w <= m
    && forall k: nat, i :: 0 <= k < w && 0 <= i < 256 ==> ltl[k, i] == BraidEntry(m, k, i)
  }

  /** The big-endian tables: bytes and positions swapped. */
  ghost predicate BigTable(big: array2<Word>, m: nat, w: nat)
    reads big
  {
    big.Length0 == w && big.Length1 == 256 && w <= m
    && forall k: nat, i :: 0 <= k < w && 0 <= i < 256 ==> big[k, i] == Swap(Split(BraidEntry(m, w - 1 - k, i), w))
  }

  /** The entry as braid computes it: the byte in the top bits, times a power of x. */
  lemma EntryProduct(m: nat, k: nat, i: int)
    requires k < m && 0 < i < 256
    ensures ((i as byte) as bv32) << 24 != 0
    ensures Mul(((i as byte) as bv32) << 24, XP(8 * (m + 3 - k) * Pow2(0), ONE)) == BraidEntry(m, k, i)
  {
    hide XP, Mul, X2n;
    var b := i as byte;
    var t := (b as bv32) << 24;
    TopByteNonZero(b, i);
    assert Pow2(0) == 1;
    var e := 8 * (m + 3 - k);
    MulCommutes(t, XP(e, ONE));
    MulPower(e, t);
    ByteValue(b);
    XPAdd(8 * (m - k), 24, t);
  }

  lemma TopByteNonZero(b: byte, i: int)
    requires 0 < i < 256 && b == i as byte
    ensures (b as bv32) << 24 != 0
  {
    SameInt(i);
    ShiftedNonZero(b);
  }

  lemma SameInt(i: int)
    requires 0 < i < 256
    ensures i as byte != 0
  {
  }

  lemma ShiftedNonZero(b: byte)
    requires b != 0
    ensures (b as bv32) << 24 != 0
  {
  }

  lemma ZeroEntry(m: nat, k: nat, w: nat)
    requires k <= m
    ensures BraidEntry(m, k, 0) == 0 && Swap(Split(BraidEntry(m, k, 0), w)) == Zeros(w)
  {
    XPLinear(8 * (m - k), 0, 0);
    ZeroFits(w);
    hide XP, Split;
  }

  /** braid: both tables, for n words of w bytes. */
  method Braid(ltl: array2<bv32>, big: array2<Word>, n: nat, w: nat, x2n: array<bv32>)
    requires ltl as object != big as object && 0 < n && 0 < w && ltl.Length0 == big.Length0 == w && ltl.Length1 == big.Length1 == 256
    requires x2n.Length == 32 && forall j :: 0 <= j < 32 ==> x2n[j] == X2n(j)
    modifies ltl, big
    ensures BraidTable(ltl, n * w, w) && BigTable(big, n * w, w)
  {
    assert w <= n * w by { assert n * w == (n - 1) * w + w; assert (n - 1) * w >= 0; }
    ghost var m := n * w;
    hide *;
    var k := 0;
    while k < w
      invariant 0 <= k <= w
      invariant forall j: nat, i :: 0 <= j < k && 0 <= i < 256 ==> ltl[j, i] == BraidEntry(m, j, i)
      invariant forall j: nat, i :: w - k <= j < w && 0 <= i < 256 ==> big[j, i] == Swap(Split(BraidEntry(m, w - 1 - j, i), w))
    {
      BraidRow(ltl, big, n, w, k, x2n);
      k := k + 1;
    }
    FilledTables(ltl, big, m, w);
  }

  lemma FilledTables(ltl: array2<bv32>, big: array2<Word>, m: nat, w: nat)
    requires w <= m && ltl.Length0 == big.Length0 == w && ltl.Length1 == big.Length1 == 256
    requires forall j: nat, i :: 0 <= j < w && 0 <= i < 256 ==> ltl[j, i] == BraidEntry(m, j, i)
    requires forall j: nat, i :: 0 <= j < w && 0 <= i < 256 ==> big[j, i] == Swap(Split(BraidEntry(m, w - 1 - j, i), w))
    ensures BraidTable(ltl, m, w) && BigTable(big, m, w)
  {
    hide BraidEntry, Split;
  }

  method BraidRow(ltl: array2<bv32>, big: array2<Word>, n: nat, w: nat, k: nat, x2n: array<bv32>)
    requires ltl as object != big as object && k < w <= n * w && ltl.Length0 == big.Length0 == w && ltl.Length1 == big.Length1 == 256
    requires x2n.Length == 32 && forall j :: 0 <= j < 32 ==> x2n[j] == X2n(j)
    modifies ltl, big
    ensures forall i :: 0 <= i < 256 ==> ltl[k, i] == BraidEntry(n * w, k, i) && big[w - 1 - k, i] == Swap(Split(BraidEntry(n * w, k, i), w))
    ensures forall j: nat, i :: 0 <= j < w && j != k && 0 <= i < 256 ==> ltl[j, i] == old(ltl[j, i])
    ensures forall j: nat, i :: 0 <= j < w && j != w - 1 - k && 0 <= i < 256 ==> big[j, i] == old(big[j, i])
  {
    hide *;
    var p := X2nModP(8 * (n * w + 3 - k), 0, x2n);
    ZeroEntry(n * w, k, w);
    ltl[k, 0] := 0;
    big[w - 1 - k, 0] := Zeros(w);
    var i := 1;
    while i < 256
      invariant 1 <= i <= 256
      invariant forall h :: 0 <= h < i ==> ltl[k, h] == BraidEntry(n * w, k, h) && big[w - 1 - k, h] == Swap(Split(BraidEntry(n * w, k, h), w))
      invariant forall j: nat, h :: 0 <= j < w && j != k && 0 <= h < 256 ==> ltl[j, h] == old(ltl[j, h])
      invariant forall j: nat, h :: 0 <= j < w && j != w - 1 - k && 0 <= h < 256 ==> big[j, h] == old(big[j, h])
    {
      EntryProduct(n * w, k, i);
      var q := MultModP(((i as byte) as bv32) << 24, p);
      ltl[k, i] := q;
      big[w - 1 - k, i] := Swap(Split(q, w));
      i := i + 1;
    }
  }
}
