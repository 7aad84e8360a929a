/** How much room a compressed block takes: it always fits into the area behind the block it was made from. */
module StreamSize {
  import opened Common
  import opened BitStream
  import opened BlockCrc
  import opened BlockHeader
  import opened BlockMarker
  import opened BlockTransmission
  import opened CodingTables
  import opened HuffmanCodes
  import opened HuffmanDecoding
  import opened MtfEncoder
  import opened SymbolStream
  import opened StreamFormat
  import P = BlockPipeline
  import BW = BurrowsWheeler
  import O = MainOrder

  lemma {:induction false} BytesSize(z: seq<Byte>)
    ensures |BytesBits(z)| == 8 * |z|
  {
    if z != [] { BytesSize(z[..|z| - 1]); }
  }

  lemma {:induction false} DataSize(syms: seq<int>, selector: seq<int>, lens: seq<seq<int>>, k: nat)
    requires Coded(syms, selector, lens) && k <= |syms|
    ensures |DataFrom(syms, selector, lens, k)| <= LONGEST * (|syms| - k)
    decreases |syms| - k
  {
    if k < |syms| {
      DataSize(syms, selector, lens, k + 1);
      var len := TableOf(selector, lens, k);
      assert Lengths(len) && |CodeBits(len, syms[k])| == len[syms[k]] <= LONGEST;
      hide Coded, CodeBits;
    }
  }

  lemma {:induction false} StepsSize(curr: int, l: int)
    ensures |Steps(curr, l)| == 2 * (if curr < l then l - curr else curr - l)
    decreases if curr < l then l - curr else curr - l
  {
    if curr < l { StepsSize(curr + 1, l); } else if curr > l { StepsSize(curr - 1, l); }
  }

  lemma {:induction false} LengthsSize(len: seq<int>, i: nat, curr: int)
    requires Lengths(len) && i <= |len| && 1 <= curr <= LONGEST
    ensures |LengthsFrom(len, i, curr)| <= 39 * (|len| - i)
    decreases |len| - i
  {
    if i < |len| {
      StepsSize(curr, len[i]);
      LengthsSize(len, i + 1, len[i]);
      hide Steps;
    }
  }

  lemma {:induction false} TableSize(lens: seq<seq<int>>, alphaSize: nat, t: nat)
    requires Usable(lens, alphaSize) && alphaSize > 0 && t <= |lens|
    ensures |TableBits(lens, alphaSize, t)| <= 10067 * (|lens| - t)
    decreases |lens| - t
  {
    if t < |lens| {
      TableSize(lens, alphaSize, t + 1);
      var len := lens[t];
      LengthsSize(len, 0, len[0]);
      assert |LengthBits(len)| <= 5 + 39 * |len| <= 10067;
      hide KraftHolds, LengthBits;
    }
  }

  lemma {:induction false} UnarySize(j: nat)
    ensures |Unary(j)| == j + 1
  {
    if j > 0 { UnarySize(j - 1); }
  }

  lemma {:induction false} PlacesSize(moves: seq<int>, i: nat)
    requires Places(BZ_N_GROUPS, moves) && i <= |moves|
    ensures |UnaryFrom(moves, i)| <= BZ_N_GROUPS * (|moves| - i)
    decreases |moves| - i
  {
    if i < |moves| {
      UnarySize(moves[i]);
      PlacesSize(moves, i + 1);
      hide Unary;
    }
  }

  lemma {:induction false} FlagsSize(inUse: seq<bool>, i: nat)
    requires |inUse| == 256 && i <= 16
    ensures |FlagBits(inUse, i)| == 16 - i && |RowBits(inUse, i)| <= 16 * (16 - i)
    decreases 16 - i
  {
    if i < 16 { FlagsSize(inUse, i + 1); }
  }

  lemma MarkerSize(crc: nat, randomised: bool, origPtr: nat)
    ensures |MarkerBits(crc, randomised, origPtr)| == 105
  {
    BytesSize(Magic());
    BytesSize(BytesOf(crc, 4));
    BytesSize(BytesOf(origPtr, 3));
    hide BytesBits, BytesOf;
  }

  /** The parts of a layout. */
  lemma LayoutSize(x: Layout)
    requires x.Sound()
    ensures |x.Bits()| <= 257_294 + 20 * |x.syms|
  {
    FlagsSize(x.inUse, 0);
    PlacesSize(x.moves, 0);
    TableSize(x.lens, x.alphaSize, 0);
    DataSize(x.syms, x.selector, x.lens, 0);
    hide FlagBits, RowBits, UnaryFrom, TableBits, DataFrom, Usable, Coded, BitsOf;
  }

  /** A block of n bytes takes at most 20 bits a byte and a fixed amount. */
  lemma RowSize(row: Row, level: int)
    requires StreamFormat.Sent(row, level)
    ensures row.layout.Sound() && |SentBits(row)| <= 257_419 + 20 * |row.block|
  {
    SentSound(row, level);
    FewSymbols(row, level);
    hide StreamFormat.Sent, MarkerBits, Layout.Sound, Layout.Bits;
    MarkerSize(Word(BlockCheck(row.block)), row.randomised, row.origPtr);
    LayoutSize(row.layout);
  }

  /** No more symbols than bytes, and the end of block. */
  lemma FewSymbols(row: Row, level: int)
    requires StreamFormat.Sent(row, level)
    ensures |row.layout.syms| <= |row.block| + 1
  {
    P.CarriedSymbols(row.layout, row.Sorted(), row.order, row.unseqToSeq);
    hide Whole, P.Carries, BW.LastColumn, Renumbered;
  }

  /** Bytes of arr2 behind a block of n bytes. */
  function Area(level: int, n: nat): int {
    4 * (100000 * level + O.N_OVERSHOOT) - n
  }

  /** What one call writes at most, with the bits left over from before, header and trailer, fits behind the block. */
  lemma FitsBehind(level: int, n: nat, bits: nat)
    requires 1 <= level <= 9 && n <= 100000 * level - 10 && bits <= 32 + 32 + (257_419 + 20 * n) + 87
    ensures bits <= 8 * Area(level, n)
  {
  }

  lemma HeaderSize(level: int)
    requires 1 <= level <= 9
    ensures |BytesBits(HeaderBytes(level))| == 32
  {
    BytesSize(HeaderBytes(level));
    hide BytesBits;
  }

  lemma TrailerSize(crc: nat)
    ensures |TrailerBits(crc)| == 80
  {
    BytesSize(EndMagic());
    BytesSize(BytesOf(crc, 4));
    hide BytesBits, BytesOf;
  }

  /** What waits in the writer's buffer. */
  lemma WriterSize(w: BitWriter)
    requires w.Valid()
    ensures 8 * |w.zbits| <= |w.Bits()| <= 8 * |w.zbits| + 32
  {
    BytesSize(w.zbits);
    hide BytesBits;
  }
}
