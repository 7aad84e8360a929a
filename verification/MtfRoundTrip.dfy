/** The decoder turns the encoder's symbols back into the column they were made from, and never refuses them. */
module MtfRoundTrip {
  import opened Common
  import opened Counting
  import opened MtfTable
  import opened MtfCoding
  import opened InUseMap
  import opened MtfEncoder
  import opened MtfDecoder

  /** Up to the end marker the decoder reads exactly the encoder's symbols. */
  lemma SymbolsKept(syms: seq<int>, nInUse: int)
    requires 1 <= nInUse <= 256 && Symbols(syms, nInUse)
    ensures Before(syms + [nInUse + 1], nInUse + 1) == syms
  {
    var all := syms + [nInUse + 1];
    assert all[..|syms|] == syms;
    BeforeIs(all, nInUse + 1, |syms|);
  }

  /** Decoding what was encoded: the bytes stored are the column, and unzftab has its byte counts. */
  lemma ColumnRestored(col: seq<Byte>, inUse: seq<bool>, unseqToSeq: seq<Byte>, seqToUnseq: seq<Byte>, syms: seq<int>, nInUse: int,
                       vec: seq<int>, unzftab: seq<int>)
    requires Numbers(inUse, unseqToSeq) && Lists(inUse, seqToUnseq) && forall k :: 0 <= k < |col| ==> inUse[col[k]]
    requires nInUse == Used(inUse, 256) && Encodes(syms, Renumbered(col, unseqToSeq), nInUse)
    requires Stored(vec, unzftab, seqToUnseq, Meaning(Before(syms + [nInUse + 1], nInUse + 1)).column)
    ensures vec == col && forall c :: 0 <= c < 256 ==> unzftab[c] == Count(col, c)
  {
    SymbolsKept(syms, nInUse);
    forall k | 0 <= k < |col| ensures vec[k] == col[k] { MapsInverse(inUse, unseqToSeq, seqToUnseq, col[k]); }
  }

  /** A column of a legal block is never refused: neither the size check nor the guard on the run weight stops it. */
  lemma NeverRefused(col: seq<Byte>, syms: seq<int>, nInUse: int, blockSize100k: nat)
    requires Encodes(syms, col, nInUse) && |col| <= 100000 * blockSize100k
    ensures nInUse + 1 in syms + [nInUse + 1]
    ensures |Meaning(Before(syms + [nInUse + 1], nInUse + 1)).column| <= 100000 * blockSize100k
  {
    SymbolsKept(syms, nInUse);
  }
}
