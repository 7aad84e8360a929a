/** One block from its sorted rotations to bits and back: BZ2_compressBlock against BZ2_decompress and the block output. */
module BlockPipeline {
  import opened Common
  import opened Counting
  import opened BitStream
  import opened BlockHeader
  import opened BlockTransmission
  import opened BlockReception
  import opened CodingTables
  import opened InUseMap
  import opened MtfCoding
  import opened MtfEncoder
  import opened MtfDecoder
  import opened MtfRoundTrip
  import S = SymbolStream
  import BW = BurrowsWheeler
  import V = InverseVectors
  import O = BlockOutput

  /** The layout carries the last column of the block's sorted rotations. */
  ghost predicate Carries(x: Layout, block: seq<Byte>, order: seq<int>, unseqToSeq: seq<Byte>) {
    Proper(x) && IsPerm(order, |block|) && (forall k :: 0 <= k < |block| ==> x.inUse[block[k]]) && Numbers(x.inUse, unseqToSeq)
    && Encodes(x.syms[..|x.syms| - 1], Renumbered(BW.LastColumn(block, order), unseqToSeq), Used(x.inUse, 256))
  }

  /** Once the symbols of a block are known, whatever selectors and frequencies are chosen, what is sent carries the block. */
  method SendBlock(w: BitWriter, e: Encoder, rfreq: seq<array<int>>, selector: array<Byte>, nSelectors: nat, ghost order: seq<int>,
                   ghost freqs: seq<seq<int>>) returns (ghost x: Layout)
    requires w.Valid() && e.Shape() && IsPerm(order, |e.block[..]|) && forall k :: 0 <= k < e.block.Length ==> e.inUse[e.block[k]]
    requires 1 <= e.nInUse == Used(e.inUse[..], 256) && Numbers(e.inUse[..], e.unseqToSeq[..])
    requires 2 <= e.nMTF <= e.mtfv.Length && e.mtfv[e.nMTF - 1] == e.nInUse + 1
    requires Encodes(e.mtfv[..e.nMTF - 1], Renumbered(BW.LastColumn(e.block[..], order), e.unseqToSeq[..]), e.nInUse)
    requires 2 <= |rfreq| <= BZ_N_GROUPS && HoldCounts(rfreq, freqs, e.nInUse + 2)
    requires 1 <= nSelectors <= BZ_MAX_SELECTORS && nSelectors <= selector.Length && forall g :: 0 <= g < nSelectors ==> selector[g] < |rfreq|
    requires S.BZ_G_SIZE * (nSelectors - 1) < e.nMTF <= S.BZ_G_SIZE * nSelectors
    modifies w
    ensures w.Valid() && x.Sound() && w.Bits() == old(w.Bits()) + x.Bits()
    ensures Carries(x, e.block[..], order, e.unseqToSeq[..]) && x.selector == selector[..nSelectors]
    ensures x.syms == e.mtfv[..e.nMTF] && x.alphaSize == e.nInUse + 2 && Fitted(freqs, x.lens)
  {
    ghost var was, block, used, unseqToSeq := e.mtfv[..], e.block[..], e.inUse[..], e.unseqToSeq[..];
    ghost var col := Renumbered(BW.LastColumn(block, order), unseqToSeq);
    assert e.mtfv[..e.nMTF - 1] == was[..e.nMTF - 1] && e.mtfv[..e.nMTF] == was[..e.nMTF];
    assert forall k :: 0 <= k < |block| ==> used[block[k]];
    hide BitWriter.Bits, BitWriter.Valid, Layout.Bits, Layout.Sound, Encodes, Numbers, Used, Renumbered, BW.LastColumn, IsPerm, HoldCounts,
         Carries, Proper, Fitted;
    SentSymbols(was, e.nMTF, col, e.nInUse);
    x := SendMTFValues(w, e.mtfv, e.nMTF, e.inUse, e.nInUse + 2, rfreq, selector, nSelectors, freqs);
    CarriesJoin(x, block, order, unseqToSeq, was, e.nMTF, e.nInUse);
  }

  /** The symbols of a column and the end of block are all within the alphabet. */
  lemma SentSymbols(mtfv: seq<int>, nMTF: nat, col: seq<Byte>, nInUse: nat)
    requires 2 <= nMTF <= |mtfv| && mtfv[nMTF - 1] == nInUse + 1 && Encodes(mtfv[..nMTF - 1], col, nInUse)
    ensures nInUse <= 256 && forall k :: 0 <= k < nMTF ==> 0 <= mtfv[k] < nInUse + 2
  {
    hide Meaning;
    forall k | 0 <= k < nMTF ensures 0 <= mtfv[k] < nInUse + 2 {
      if k < nMTF - 1 { assert mtfv[..nMTF - 1][k] == mtfv[k]; }
    }
  }

  lemma CarriesJoin(x: Layout, block: seq<Byte>, order: seq<int>, unseqToSeq: seq<Byte>, mtfv: seq<int>, nMTF: nat, nInUse: nat)
    requires 2 <= nMTF <= |mtfv| && x.Sound() && x.syms == mtfv[..nMTF] && x.alphaSize == nInUse + 2
    requires |x.inUse| == 256 && nInUse == Used(x.inUse, 256) && mtfv[nMTF - 1] == nInUse + 1 && IsPerm(order, |block|) && Numbers(x.inUse, unseqToSeq)
    requires Encodes(mtfv[..nMTF - 1], Renumbered(BW.LastColumn(block, order), unseqToSeq), nInUse) && 1 <= nInUse
    requires forall k :: 0 <= k < |block| ==> x.inUse[block[k]]
    ensures Carries(x, block, order, unseqToSeq)
  {
    hide Renumbered, Used, Numbers, BW.LastColumn, IsPerm, Meaning, Layout.Sound, Layout.Bits;
    assert mtfv[..nMTF][..nMTF - 1] == mtfv[..nMTF - 1];
    forall k | 0 <= k < nMTF - 1 ensures mtfv[k] != nInUse + 1 { assert mtfv[..nMTF - 1][k] == mtfv[k]; }
  }

  /** tt holds a column of bytes and cf the starts of its groups of equal bytes. */
  ghost predicate Column(tt: seq<int>, cf: seq<int>, col: seq<Byte>) {
    tt == col && |cf| == 257 && forall c :: 0 <= c < 257 ==> cf[c] == Below(col, c)
  }

  /** The decoder's half: tables, symbols, column and group starts. The vector is cut to the block's length. */
  method ReceiveBlock(reader: BitReader, origPtr: nat, blockSize100k: nat, ghost x: Layout, ghost rest: seq<bool>,
                      ghost block: seq<Byte>, ghost order: seq<int>, ghost unseqToSeq: seq<Byte>)
    returns (r: Status, tt: array<int>, cftab: array<int>, ghost col: seq<Byte>)
    requires reader.Valid() && 1 <= blockSize100k <= 9
    modifies reader
    ensures reader.Valid() && fresh(tt) && fresh(cftab) && tt != cftab && cftab.Length == 257
    ensures r == Good ==> Column(tt[..], cftab[..], col) && origPtr < |col| <= 100000 * blockSize100k
    ensures Carries(x, block, order, unseqToSeq) && origPtr < |block| <= 100000 * blockSize100k && old(reader.Bits()) == x.Bits() + rest
            ==> if |x.selector| > BZ_MAX_SELECTORS then r == Overrun
                else r == Good && col == BW.LastColumn(block, order) && reader.Bits() == rest
  {
    hide *;
    if Carries(x, block, order, unseqToSeq) { CarriesProper(x, block, order, unseqToSeq); }
    ghost var expected := Carries(x, block, order, unseqToSeq) && origPtr < |block| <= 100000 * blockSize100k && reader.Bits() == x.Bits() + rest;
    tt, cftab, col := new int[0], new int[257](_ => 0), [];
    var d := new Receiver(100000 * blockSize100k);
    var inUse := new bool[256](_ => false);
    var nInUse, syms;
    r, nInUse, syms := ReceiveMTFValues(reader, inUse, d.seqToUnseq, x, rest);
    if r != Good { return; }
    expected := expected && |x.selector| <= BZ_MAX_SELECTORS;
    AreSymbols(syms, nInUse + 1);
    r, tt, col := ReadVector(d, origPtr, blockSize100k, inUse, syms, nInUse, cftab, x, block, order, unseqToSeq, expected);
  }

  lemma AreSymbols(syms: seq<int>, n: int)
    requires forall k :: 0 <= k < |syms| ==> 0 <= syms[k] <= n
    ensures Symbols(syms, n)
  {
  }

  lemma CarriesProper(x: Layout, block: seq<Byte>, order: seq<int>, unseqToSeq: seq<Byte>)
    requires Carries(x, block, order, unseqToSeq)
    ensures Proper(x) && x.Sound() && IsPerm(order, |block|)
  {
  }

  /** Runs of symbols to a column, the check on origPtr, and the group starts. */
  method ReadVector(d: Receiver, origPtr: nat, blockSize100k: nat, inUse: array<bool>, syms: seq<int>, nInUse: nat, cftab: array<int>,
                    ghost x: Layout, ghost block: seq<Byte>, ghost order: seq<int>, ghost unseqToSeq: seq<Byte>, ghost expected: bool)
    returns (r: Status, tt: array<int>, ghost col: seq<Byte>)
    requires d.Shape() && d.table.mtfa.Length == MtfTable.MTFA_SIZE && d.table.mtfbase.Length == 16 && d.vector.Length == 100000 * blockSize100k
    requires 1 <= blockSize100k <= 9 && inUse.Length == 256 && cftab.Length == 257 && cftab != d.unzftab && cftab != d.vector && cftab != d.table.mtfbase
    requires 1 <= nInUse == Used(inUse[..], 256) && Lists(inUse[..], d.seqToUnseq[..]) && Symbols(syms, nInUse + 1)
    requires 0 < |syms| && syms[|syms| - 1] == nInUse + 1 && nInUse + 1 !in syms[..|syms| - 1]
    requires expected ==> Carries(x, block, order, unseqToSeq) && origPtr < |block| <= 100000 * blockSize100k && x.syms == syms && x.inUse == inUse[..]
    modifies d`nblock, d.unzftab, d.vector, d.table.mtfa, d.table.mtfbase, cftab
    ensures fresh(tt) && (r == Good ==> Column(tt[..], cftab[..], col) && origPtr < |col| <= 100000 * blockSize100k)
    ensures expected ==> r == Good && IsPerm(order, |block|) && col == BW.LastColumn(block, order)
  {
    ghost var used, toUnseq := inUse[..], d.seqToUnseq[..];
    tt, col := new int[0], [];
    hide Stored, Lists, Meaning, Before, Carries, BW.LastColumn, Used, Below, Count;
    var o := d.ReadColumn(syms, nInUse, blockSize100k);
    if expected { col := BW.LastColumn(block, order); Expected(x, block, order, unseqToSeq, toUnseq, syms, nInUse, blockSize100k); }
    if o == Starved { return Status.NoInput, tt, col; }
    if o == Outcome.DataError { return Status.DataError, tt, col; }
    col := BytesOf(d.vector[..d.nblock], d.unzftab[..], toUnseq, Meaning(Before(syms, nInUse + 1)).column);
    if expected { Restored(x, block, order, unseqToSeq, toUnseq, syms, nInUse, d.vector[..d.nblock], d.unzftab[..]); }
    if origPtr >= d.nblock { return Status.DataError, tt, col; }
    var ok := V.BuildCftab(d.unzftab, cftab, d.nblock, col);
    if !ok { return Status.DataError, tt, col; }
    tt := CutVector(d.vector, d.nblock);
    r := Good;
  }

  /** The part of the vector that is filled. */
  method CutVector(vector: array<int>, nblock: nat) returns (tt: array<int>)
    requires nblock <= vector.Length
    ensures fresh(tt) && tt[..] == vector[..nblock]
  {
    tt := new int[nblock](i requires 0 <= i < nblock <= vector.Length reads vector => vector[i]);
  }

  lemma BytesOf(vec: seq<int>, unzftab: seq<int>, unseq: seq<Byte>, column: seq<Byte>) returns (col: seq<Byte>)
    requires Stored(vec, unzftab, unseq, column)
    ensures col == vec && forall c :: 0 <= c < 256 ==> unzftab[c] == Count(col, c)
  {
    col := seq(|column|, k requires 0 <= k < |column| => unseq[column[k]]);
  }

  /** What a carried block gives the decoder to go by. */
  lemma CarriedSymbols(x: Layout, block: seq<Byte>, order: seq<int>, unseqToSeq: seq<Byte>)
    requires Carries(x, block, order, unseqToSeq)
    ensures IsPerm(order, |block|) && Numbers(x.inUse, unseqToSeq) && |x.inUse| == 256 && 0 < |x.syms|
    ensures Encodes(x.syms[..|x.syms| - 1], Renumbered(BW.LastColumn(block, order), unseqToSeq), Used(x.inUse, 256))
    ensures x.syms == x.syms[..|x.syms| - 1] + [Used(x.inUse, 256) + 1]
    ensures forall k :: 0 <= k < |block| ==> x.inUse[BW.LastColumn(block, order)[k]]
  {
    hide Renumbered, Used, Numbers, Encodes, Usable, S.Coded, Selected, BW.LastColumn;
    ColumnInUse(x.inUse, block, order);
  }

  lemma ColumnInUse(inUse: seq<bool>, block: seq<Byte>, order: seq<int>)
    requires IsPerm(order, |block|) && |inUse| == 256 && forall k :: 0 <= k < |block| ==> inUse[block[k]]
    ensures forall k :: 0 <= k < |block| ==> inUse[BW.LastColumn(block, order)[k]]
  {
    var col := BW.LastColumn(block, order);
    forall k | 0 <= k < |block| ensures inUse[col[k]] { assert col[k] in block; }
  }

  lemma Expected(x: Layout, block: seq<Byte>, order: seq<int>, unseqToSeq: seq<Byte>, toUnseq: seq<Byte>, syms: seq<int>, nInUse: nat, blockSize100k: nat)
    requires Carries(x, block, order, unseqToSeq) && |block| <= 100000 * blockSize100k && x.syms == syms && nInUse == Used(x.inUse, 256)
    requires Symbols(syms, nInUse + 1) && 1 <= nInUse
    ensures nInUse + 1 in syms && |Meaning(Before(syms, nInUse + 1)).column| <= 100000 * blockSize100k
  {
    CarriedSymbols(x, block, order, unseqToSeq);
    hide Carries, Symbols, Encodes, Used, Meaning, Before, Renumbered, BW.LastColumn, IsPerm, Numbers;
    NeverRefused(Renumbered(BW.LastColumn(block, order), unseqToSeq), syms[..|syms| - 1], nInUse, blockSize100k);
  }

  lemma Restored(x: Layout, block: seq<Byte>, order: seq<int>, unseqToSeq: seq<Byte>, toUnseq: seq<Byte>, syms: seq<int>, nInUse: nat,
                 vec: seq<int>, unzftab: seq<int>)
    requires Carries(x, block, order, unseqToSeq) && x.syms == syms && nInUse == Used(x.inUse, 256) && Lists(x.inUse, toUnseq) && 1 <= nInUse
    requires Symbols(syms, nInUse + 1) && Stored(vec, unzftab, toUnseq, Meaning(Before(syms, nInUse + 1)).column)
    ensures vec == BW.LastColumn(block, order)
  {
    CarriedSymbols(x, block, order, unseqToSeq);
    hide Carries, Symbols, Encodes, Used, Meaning, Before, Renumbered, Stored, Lists, Numbers, BW.LastColumn;
    ColumnRestored(BW.LastColumn(block, order), x.inUse, unseqToSeq, toUnseq, syms[..|syms| - 1], nInUse, vec, unzftab);
  }

  /** A received block is ready for output, in the fast or the low-memory form. */
  method StartOutput(tt: array<int>, cftab: array<int>, origPtr: nat, blockSize100k: nat, small: bool, randomised: bool, ghost col: seq<Byte>) returns (s: O.DState)
    requires tt != cftab && Column(tt[..], cftab[..], col) && 1 <= blockSize100k <= 9 && origPtr < |col| <= 100000 * blockSize100k
    modifies tt, cftab
    ensures s.Valid() && s.block == O.Content(col, origPtr, randomised) && s.written == [] && s.smallDecompress == small && s.blockRandomised == randomised
    ensures fresh({s, s.tt, s.ll16, s.ll4, s.cftab} - {tt, cftab})
  {
    assert forall c :: 0 <= c < 257 ==> cftab[c] == cftab[..][c];
    hide *;
    if small {
      var ll4, cftabCopy := new Byte[(1 + tt.Length) / 2](_ => 0), new int[257](_ => 0);
      s := O.StartSmall(tt, ll4, cftab, cftabCopy, origPtr, blockSize100k, randomised, col);
    } else {
      s := O.StartFast(tt, cftab, origPtr, blockSize100k, randomised, col);
    }
  }
}
