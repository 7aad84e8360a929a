/** BZ2_compressBlock in its parts: the stream header, a block from its bytes to its bits, and the trailer. */
module BlockCoding {
  import opened Common
  import opened BitStream
  import opened BlockHeader
  import opened BlockMarker
  import opened BlockCrc
  import opened InUseMap
  import opened MtfEncoder
  import opened StreamFormat
  import P = BlockPipeline
  import T = BlockTransmission
  import CT = CodingTables
  import G = GroupChoice
  import B = BlockSort
  import O = MainOrder
  import R = Rotations
  import S = SymbolStream
  import BW = BurrowsWheeler

  /** BZ2_blockSort on areas of the block's own size. */
  method SortBlock(block: seq<Byte>, workFactor: int) returns (ptr: array<int>, origPtr: int)
    requires 0 < |block| <= O.MAX_BLOCK
    ensures fresh(ptr) && ptr.Length == |block| && R.SortedRotations(block, ptr[..]) && 0 <= origPtr < |block| && ptr[origPtr] == 0
  {
    hide R.SortedRotations;
    ptr := new int[|block|](_ => 0);
    var area := new int[|block| + O.N_OVERSHOOT](i => if 0 <= i < |block| then block[i] else 0);
    var quadrant := new int[|block| + O.N_OVERSHOOT](_ => 0);
    var ftab := new int[65537](_ => 0);
    assert area[..|block|] == block;
    origPtr := B.BlockSort(ptr, area, quadrant, ftab, |block|, workFactor, block);
  }

  /** The sorted block as the coder of its last column takes it. */
  method Load(block: seq<Byte>, ptr: array<int>, inUse: array<bool>) returns (e: Encoder)
    requires 0 < |block| == ptr.Length && inUse.Length == 256
    ensures fresh(e) && fresh(e.ptr) && fresh(e.block) && fresh(e.mtfv) && fresh(e.inUse) && fresh(e.unseqToSeq) && fresh(e.mtfFreq)
    ensures e.Shape() && e.block[..] == block && e.ptr[..] == ptr[..] && e.inUse[..] == inUse[..]
  {
    e := new Encoder(|block|);
    CopyBlock(e, block, ptr);
    CopyUsed(e, inUse);
  }

  method CopyBlock(e: Encoder, block: seq<Byte>, ptr: array<int>)
    requires e.Shape() && e.block.Length == |block| == ptr.Length && e.ptr != ptr && e.block != e.unseqToSeq
    modifies e.block, e.ptr
    ensures e.block[..] == block && e.ptr[..] == ptr[..]
  {
    var i := 0;
    while i < |block|
      invariant 0 <= i <= |block| && e.block[..i] == block[..i] && e.ptr[..i] == ptr[..i]
    {
      e.block[i] := block[i];
      e.ptr[i] := ptr[i];
      i := i + 1;
    }
    assert block[..i] == block;
  }

  method CopyUsed(e: Encoder, inUse: array<bool>)
    requires e.Shape() && inUse.Length == 256 && e.inUse != inUse
    modifies e.inUse
    ensures e.inUse[..] == inUse[..]
  {
    var i := 0;
    while i < 256
      invariant 0 <= i <= 256 && e.inUse[..i] == inUse[..i]
    {
      e.inUse[i] := inUse[i];
      i := i + 1;
    }
  }

  /** Marker, checksum and row of the block, then its last column in the tables chosen for it. */
  method SendRow(w: BitWriter, block: seq<Byte>, inUse: array<bool>, blockCRC: bv32, workFactor: int, level: int) returns (ghost row: Row)
    requires w.Valid() && 1 <= level <= 9 && 0 < |block| <= 100000 * level - 10 && inUse.Length == 256
    requires blockCRC == BlockCheck(block) && Whole(block) && forall k :: 0 <= k < |block| ==> inUse[block[k]]
    modifies w
    ensures w.Valid() && Sent(row, level) && row.block == block && !row.randomised && row.layout.Sound() && w.Bits() == old(w.Bits()) + SentBits(row)
    ensures G.Tailored(row.layout)
  {
    hide *;
    Within24(level);
    var ptr, origPtr := SortBlock(block, workFactor);
    ghost var order := ptr[..];
    ghost var start := w.Bits();
    SendMarker(w, Word(blockCRC), origPtr);
    ghost var layout, unseqToSeq := SendColumn(w, block, ptr, inUse);
    row := Row(block, false, order, origPtr, layout, unseqToSeq);
    RowIs(row, level);
    Assoc(start, MarkerBits(Word(blockCRC), false, origPtr), layout.Bits());
  }

  lemma Within24(level: int)
    requires 1 <= level <= 9
    ensures 100000 * level <= 900_000 < Pow2(24) && Pow2(32) == 0x1_0000_0000 && O.MAX_BLOCK == 900_000
  {
    Pow2Facts();
  }

  lemma RowIs(row: Row, level: int)
    requires 1 <= level <= 9 && !row.randomised && row.origPtr < |row.block| <= 100000 * level && R.SortedRotations(row.block, row.order) && row.order[row.origPtr] == 0
    requires P.Carries(row.layout, row.block, row.order, row.unseqToSeq) && Whole(row.block) && |row.layout.selector| <= CT.BZ_MAX_SELECTORS
    ensures Sent(row, level) && row.layout.Sound() && SentBits(row) == MarkerBits(Word(BlockCheck(row.block)), false, row.origPtr) + row.layout.Bits()
  {
    SentSound(row, level);
    hide R.SortedRotations, P.Carries, Whole, T.Layout.Sound, T.Layout.Bits, MarkerBits;
  }

  /** generateMTFValues and sendMTFValues. */
  method SendColumn(w: BitWriter, block: seq<Byte>, ptr: array<int>, inUse: array<bool>) returns (ghost layout: T.Layout, ghost unseqToSeq: seq<Byte>)
    requires w.Valid() && 0 < |block| == ptr.Length <= 900_000 && inUse.Length == 256 && R.SortedRotations(block, ptr[..])
    requires forall k :: 0 <= k < |block| ==> inUse[block[k]]
    modifies w
    ensures w.Valid() && layout.Sound() && w.Bits() == old(w.Bits()) + layout.Bits() && P.Carries(layout, block, ptr[..], unseqToSeq)
    ensures |layout.selector| <= CT.BZ_MAX_SELECTORS && G.Tailored(layout)
  {
    hide *;
    ghost var order := ptr[..];
    SortIsPerm(block, order);
    var e := Load(block, ptr, inUse);
    Loaded(e, block, inUse[..]);
    e.GenerateMTFValues(order);
    layout := SendSymbols(w, e, order);
    unseqToSeq := e.unseqToSeq[..];
  }

  lemma SortIsPerm(block: seq<Byte>, order: seq<int>)
    requires R.SortedRotations(block, order)
    ensures IsPerm(order, |block|)
  {
  }

  lemma Loaded(e: Encoder, block: seq<Byte>, used: seq<bool>)
    requires e.Shape() && e.block[..] == block && e.inUse[..] == used && |used| == 256 && 0 < |block| && forall k :: 0 <= k < |block| ==> used[block[k]]
    ensures e.block.Length == |block| && e.inUse.Length == 256 && forall k :: 0 <= k < e.block.Length ==> e.inUse[e.block[k]]
    ensures 1 <= Used(e.inUse[..], 256) <= 256
  {
    forall k | 0 <= k < e.block.Length ensures e.inUse[e.block[k]] { assert e.block[k] == e.block[..][k]; }
    SomeUsed(used, block[0]);
    hide Used;
  }

  /** The symbols of a column, in the tables chosen for them. */
  method SendSymbols(w: BitWriter, e: Encoder, ghost order: seq<int>) returns (ghost layout: T.Layout)
    requires w.Valid() && e.Shape() && IsPerm(order, |e.block[..]|) && e.block.Length <= 900_000
    requires forall k :: 0 <= k < e.block.Length ==> e.inUse[e.block[k]]
    requires 1 <= e.nInUse == Used(e.inUse[..], 256) && Numbers(e.inUse[..], e.unseqToSeq[..])
    requires 2 <= e.nMTF <= e.block.Length + 1 && e.nMTF <= e.mtfv.Length && e.mtfv[e.nMTF - 1] == e.nInUse + 1
    requires Encodes(e.mtfv[..e.nMTF - 1], Renumbered(BW.LastColumn(e.block[..], order), e.unseqToSeq[..]), e.nInUse)
    requires Counted(e.mtfFreq[..], e.mtfv[..e.nMTF], e.nInUse + 1)
    modifies w
    ensures w.Valid() && layout.Sound() && w.Bits() == old(w.Bits()) + layout.Bits() && P.Carries(layout, e.block[..], order, e.unseqToSeq[..])
    ensures |layout.selector| <= CT.BZ_MAX_SELECTORS && G.Tailored(layout)
  {
    hide *;
    ghost var mtfv := e.mtfv[..];
    assert mtfv[..e.nMTF - 1] == e.mtfv[..e.nMTF - 1];
    ForSymbols(e);
    P.SentSymbols(mtfv, e.nMTF, Renumbered(BW.LastColumn(e.block[..], order), e.unseqToSeq[..]), e.nInUse);
    InAlphabet(mtfv, e.nMTF, e.nInUse);
    AreOccurrences(e.mtfFreq[..], mtfv[..e.nMTF], e.nInUse + 2);
    var rfreq, selector, nSelectors;
    ghost var rounds;
    rfreq, selector, nSelectors, rounds := Choose(e.mtfv, e.nMTF, e.mtfFreq, e.nInUse + 2);
    layout := P.SendBlock(w, e, rfreq, selector, nSelectors, order, rounds[G.BZ_N_ITERS - 1].freqs);
    IsTailored(layout, rounds);
  }

  /** The selectors, and the counts for the tables to be sent. */
  method Choose(mtfv: array<int>, nMTF: nat, mtfFreq: array<int>, alphaSize: nat)
    returns (rfreq: seq<array<int>>, selector: array<Byte>, nSelectors: nat, ghost rounds: seq<G.Round>)
    requires 1 <= nMTF <= G.MOST && 1 <= alphaSize <= mtfFreq.Length && G.Within(mtfv[..], nMTF, alphaSize) && nMTF <= mtfv.Length
    requires mtfFreq[..alphaSize] == G.Occurrences(mtfv[..nMTF], alphaSize)
    ensures |rounds| == G.BZ_N_ITERS == 4 && G.Rounds(rounds, mtfv[..nMTF], G.Occurrences(mtfv[..nMTF], alphaSize), alphaSize)
    ensures 2 <= |rfreq| <= 6 && T.HoldCounts(rfreq, rounds[G.BZ_N_ITERS - 1].freqs, alphaSize)
    ensures 1 <= nSelectors <= CT.BZ_MAX_SELECTORS && nSelectors <= selector.Length && selector[..nSelectors] == rounds[G.BZ_N_ITERS - 1].selector
    ensures S.BZ_G_SIZE * (nSelectors - 1) < nMTF <= S.BZ_G_SIZE * nSelectors && forall g :: 0 <= g < nSelectors ==> selector[g] < |rfreq|
  {
    hide *;
    FourRounds();
    rfreq, selector, nSelectors, rounds := G.ChooseGroups(mtfv, nMTF, mtfFreq, alphaSize);
    ghost var syms, freq, sel := mtfv[..nMTF], mtfFreq[..alphaSize], selector[..nSelectors];
    SelectorsFit(rounds, syms, freq, alphaSize);
    G.AsManyTables(rounds, syms, freq, alphaSize, G.BZ_N_ITERS - 1);
    AsManyCounts(rfreq, rounds[G.BZ_N_ITERS - 1].freqs, alphaSize);
    assert forall g :: 0 <= g < nSelectors ==> selector[g] == sel[g];
  }

  lemma ForSymbols(e: Encoder)
    requires e.Shape()
    ensures e.mtfFreq.Length == 258 && e.unseqToSeq.Length == e.inUse.Length == 256
    ensures G.MOST == 900_001 && CT.BZ_N_GROUPS == 6 && Used(e.inUse[..], 256) <= 256
  {
  }

  lemma FourRounds()
    ensures G.BZ_N_ITERS == 4
  {
  }

  lemma InAlphabet(mtfv: seq<int>, nMTF: nat, nInUse: nat)
    requires nMTF <= |mtfv| && nInUse <= 256 && forall k :: 0 <= k < nMTF ==> 0 <= mtfv[k] < nInUse + 2
    ensures G.Within(mtfv, nMTF, nInUse + 2)
  {
  }

  lemma AsManyCounts(rfreq: seq<array<int>>, freqs: seq<seq<int>>, alphaSize: nat)
    requires T.HoldCounts(rfreq, freqs, alphaSize)
    ensures |rfreq| == |freqs|
  {
  }

  lemma AreOccurrences(freq: seq<int>, syms: seq<int>, alphaSize: nat)
    requires 0 < alphaSize <= |freq| && Counted(freq, syms, alphaSize - 1)
    ensures freq[..alphaSize] == G.Occurrences(syms, alphaSize)
  {
  }

  lemma IsTailored(x: T.Layout, rounds: seq<G.Round>)
    requires |rounds| == G.BZ_N_ITERS && G.Rounds(rounds, x.syms, G.Occurrences(x.syms, x.alphaSize), x.alphaSize)
    requires x.selector == rounds[G.BZ_N_ITERS - 1].selector && T.Fitted(rounds[G.BZ_N_ITERS - 1].freqs, x.lens)
    ensures G.Tailored(x)
  {
    hide G.Rounds, T.Fitted;
  }

  /** As many selectors as there are groups, few enough for the fifteen bits that say how many. */
  lemma SelectorsFit(rounds: seq<G.Round>, syms: seq<int>, freq: seq<int>, alphaSize: nat)
    requires |rounds| == G.BZ_N_ITERS && G.Rounds(rounds, syms, freq, alphaSize) && 1 <= |syms| <= G.MOST
    ensures var selector := rounds[G.BZ_N_ITERS - 1].selector;
            1 <= |selector| <= CT.BZ_MAX_SELECTORS && S.BZ_G_SIZE * (|selector| - 1) < |syms| <= S.BZ_G_SIZE * |selector|
            && forall g :: 0 <= g < |selector| ==> selector[g] < |rounds[G.BZ_N_ITERS - 1].freqs|
  {
    hide G.Chosen, G.First, T.Fitted;
    var r := rounds[G.BZ_N_ITERS - 1];
    G.ChosenAll(r.selector, |r.selector|, r.tabs, syms, |syms|, |syms|);
  }

  method SendHeader(w: BitWriter, level: int)
    requires w.Valid() && 1 <= level <= 9
    modifies w
    ensures w.Valid() && w.Bits() == old(w.Bits()) + BytesBits(HeaderBytes(level))
  {
    hide *;
    PutBytes(w, HeaderBytes(level));
  }

  /** The trailer, and zeros to the end of the byte. */
  method SendTrailer(w: BitWriter, combinedCRC: bv32) returns (ghost padding: nat)
    requires w.Valid()
    modifies w
    ensures padding < 8 && BytesBits(w.zbits) == old(w.Bits()) + (TrailerBits(Word(combinedCRC)) + BitsOf(0, padding)) && w.zbits != []
  {
    ghost var start, a, b := w.Bits(), BytesBits(EndMagic()), BytesBits(BytesOf(Word(combinedCRC), 4));
    assert TrailerBits(Word(combinedCRC)) == a + b;
    hide *;
    PutBytes(w, EndMagic());
    PutBytes(w, BytesOf(Word(combinedCRC), 4));
    padding := w.FinishWrite();
    Assoc(start, a, b);
    Assoc(start, a + b, BitsOf(0, padding));
    SomeBytes(w.zbits, start, b, BitsOf(0, padding));
  }

  lemma SomeBytes(z: seq<Byte>, start: seq<bool>, crc: seq<bool>, zeros: seq<bool>)
    requires BytesBits(z) == start + (BytesBits(EndMagic()) + crc + zeros)
    ensures z != []
  {
    BytesBitsFront(EndMagic(), 0);
    assert EndMagic()[0..] == EndMagic();
  }
}
