/** Reading a block's tables and symbols back: whatever sendMTFValues wrote is read as it was, to the last bit. */
module BlockReception {
  import opened Common
  import opened BitStream
  import opened HuffmanCodes
  import opened HuffmanDecoding
  import opened SymbolStream
  import opened BlockHeader
  import opened CodingTables
  import opened BlockTransmission
  import opened InUseMap
  import MtfTable

  /** The layout belongs to a block: its alphabet is that of the bytes in use, and its symbols stop at the end marker. */
  ghost predicate Proper(x: Layout) {
    x.Sound() && 1 <= Used(x.inUse, 256) && x.alphaSize == Used(x.inUse, 256) + 2
    && 0 < |x.syms| && x.syms[|x.syms| - 1] == x.alphaSize - 1 && x.alphaSize - 1 !in x.syms[..|x.syms| - 1]
  }

  /** The four parts of a layout, split off one after the other. */
  lemma Parts(x: Layout, rest: seq<bool>)
    requires x.Sound()
    ensures x.Bits() + rest == MappingBits(x.inUse) + (SelectorBits(|x.lens|, x.moves)
                               + (TableBits(x.lens, x.alphaSize, 0) + (DataFrom(x.syms, x.selector, x.lens, 0) + rest)))
  {
    hide MappingBits, SelectorBits, TableBits, DataFrom, KraftHolds;
    var a, b, c, d := MappingBits(x.inUse), SelectorBits(|x.lens|, x.moves), TableBits(x.lens, x.alphaSize, 0), DataFrom(x.syms, x.selector, x.lens, 0);
    assert x.Bits() == a + (b + (c + d));
    Assoc(a, b + (c + d), rest);
    Assoc(b, c + d, rest);
    Assoc(c, d, rest);
  }

  method ReceiveMTFValues(reader: BitReader, inUse: array<bool>, seqToUnseq: array<Byte>, ghost x: Layout, ghost rest: seq<bool>)
    returns (r: Status, nInUse: nat, syms: seq<int>)
    requires reader.Valid() && inUse.Length == seqToUnseq.Length == 256
    modifies reader, inUse, seqToUnseq
    ensures reader.Valid()
    ensures r == Good ==> 1 <= nInUse == Used(inUse[..], 256) && Lists(inUse[..], seqToUnseq[..])
                          && (forall k :: 0 <= k < |syms| ==> 0 <= syms[k] <= nInUse + 1)
                          && 0 < |syms| && syms[|syms| - 1] == nInUse + 1 && nInUse + 1 !in syms[..|syms| - 1]
    ensures Proper(x) && old(reader.Bits()) == x.Bits() + rest ==>
              if |x.selector| > BZ_MAX_SELECTORS then r == Overrun
              else r == Good && inUse[..] == x.inUse && syms == x.syms && reader.Bits() == rest
  {
    ghost var expected := Proper(x) && reader.Bits() == x.Bits() + rest;
    ghost var fits := expected && |x.selector| <= BZ_MAX_SELECTORS;
    ghost var data := if expected then DataFrom(x.syms, x.selector, x.lens, 0) + rest else [];
    nInUse, syms := 0, [];
    var alphaSize, nGroups, nSelectors, selectorMtf;
    if expected { Parts(x, rest); }
    r, alphaSize, nGroups, nSelectors, selectorMtf := ReceiveHead(reader, inUse, seqToUnseq, x, data, expected);
    if r != Good { return; }
    var lengths;
    ghost var lens;
    r, lengths, lens := ReceiveTables(reader, nGroups, alphaSize, if fits then x.lens else [], data, fits);
    if r != Good { return; }
    nInUse := alphaSize - 2;
    r, syms := ReceiveData(reader, selectorMtf, nSelectors, nGroups, lengths, alphaSize, lens, x, rest, fits);
  }

  /** Mapping table and selectors. */
  method ReceiveHead(reader: BitReader, inUse: array<bool>, seqToUnseq: array<Byte>, ghost x: Layout, ghost data: seq<bool>, ghost expected: bool)
    returns (r: Status, alphaSize: nat, nGroups: nat, nSelectors: nat, selectorMtf: array<Byte>)
    requires reader.Valid() && inUse.Length == seqToUnseq.Length == 256
    requires expected ==> Proper(x) && reader.Bits() == MappingBits(x.inUse) + (SelectorBits(|x.lens|, x.moves) + (TableBits(x.lens, x.alphaSize, 0) + data))
    modifies reader, inUse, seqToUnseq
    ensures reader.Valid() && fresh(selectorMtf)
    ensures r == Good ==> 3 <= alphaSize == Used(inUse[..], 256) + 2 && Lists(inUse[..], seqToUnseq[..]) && nSelectors <= selectorMtf.Length == BZ_MAX_SELECTORS
                          && 2 <= nGroups <= BZ_N_GROUPS && Places(nGroups, selectorMtf[..nSelectors])
    ensures expected ==> if |x.selector| > BZ_MAX_SELECTORS then r == Overrun
                         else r == Good && inUse[..] == x.inUse && alphaSize == x.alphaSize && nGroups == |x.lens| && nSelectors == |x.moves|
                              && selectorMtf[..nSelectors] == x.moves && reader.Bits() == TableBits(x.lens, x.alphaSize, 0) + data
  {
    hide BitReader.Bits, LowBits, MappingBits, SelectorBits, TableBits, KraftHolds;
    alphaSize, nGroups, nSelectors := 0, 0, 0;
    selectorMtf := new Byte[BZ_MAX_SELECTORS](_ => 0);
    ghost var tables := if expected then TableBits(x.lens, x.alphaSize, 0) + data else [];
    ghost var used := if expected then x.inUse else seq(256, _ => false);
    r := ReceiveMapping(reader, inUse, used, if expected then SelectorBits(|x.lens|, x.moves) + tables else []);
    if r != Good { return; }
    var nInUse := MakeMapsD(inUse, seqToUnseq);
    if nInUse == 0 { return DataError, alphaSize, nGroups, nSelectors, selectorMtf; }
    alphaSize := nInUse + 2;
    ghost var n, moves := if expected then |x.lens| else 0, if expected then x.moves else [];
    r, nGroups, nSelectors := ReceiveSelectors(reader, selectorMtf, n, moves, tables);
  }

  /** Selectors undone, decoding tables made, symbols read to the end marker. */
  method ReceiveData(reader: BitReader, selectorMtf: array<Byte>, nSelectors: nat, nGroups: nat, lengths: seq<array<Byte>>, alphaSize: nat,
                     ghost lens: seq<seq<int>>, ghost x: Layout, ghost rest: seq<bool>, ghost expected: bool) returns (r: Status, syms: seq<int>)
    requires reader.Valid() && nSelectors <= selectorMtf.Length == BZ_MAX_SELECTORS && nGroups == |lens| <= BZ_N_GROUPS && 3 <= alphaSize && Places(nGroups, selectorMtf[..nSelectors])
    requires HoldLengths(lengths, lens) && forall t :: 0 <= t < |lens| ==> |lens[t]| == alphaSize && Lengths(lens[t])
    requires expected ==> Proper(x) && lens == x.lens && alphaSize == x.alphaSize && selectorMtf[..nSelectors] == x.moves
                          && reader.Bits() == DataFrom(x.syms, x.selector, x.lens, 0) + rest
    modifies reader
    ensures reader.Valid() && r != Overrun
    ensures r == Good ==> 0 < |syms| && syms[|syms| - 1] == alphaSize - 1 && alphaSize - 1 !in syms[..|syms| - 1]
    ensures forall k :: 0 <= k < |syms| ==> 0 <= syms[k] < alphaSize
    ensures expected ==> r == Good && syms == x.syms && reader.Bits() == rest
  {
    hide BitReader.Bits, LowBits, KraftHolds, Lengths, Source.Kept, Coded, DataFrom, BlockTransmission.HoldLengths, Selected;
    var selector := Undo(selectorMtf, nSelectors, nGroups);
    if expected { SelectorsRestored(nGroups, x.moves, x.selector, selector[..nSelectors]); }
    var minLens, limit, base, perm;
    ghost var books;
    minLens, limit, base, perm, books := MakeBooks(lengths, alphaSize, lens);
    ghost var sent := if expected then x.syms else [];
    if expected { IsSent(x, rest); }
    r, syms := ReceiveAll(reader, selector, nSelectors, minLens, limit, base, perm, books, alphaSize - 1, lens, sent, rest);
  }

  lemma IsSent(x: Layout, rest: seq<bool>)
    requires Proper(x)
    ensures Sent(x.syms, x.alphaSize - 1, x.selector, x.lens, rest, DataFrom(x.syms, x.selector, x.lens, 0) + rest)
  {
  }

  method Undo(selectorMtf: array<Byte>, nSelectors: nat, nGroups: nat) returns (selector: array<Byte>)
    requires nSelectors <= selectorMtf.Length == BZ_MAX_SELECTORS && nGroups <= BZ_N_GROUPS && Places(nGroups, selectorMtf[..nSelectors])
    ensures fresh(selector) && selector.Length == BZ_MAX_SELECTORS && Selected(nGroups, selectorMtf[..nSelectors], selector[..nSelectors])
    ensures forall g :: 0 <= g < nSelectors ==> selector[g] < nGroups
  {
    selector := new Byte[BZ_MAX_SELECTORS](_ => 0);
    UndoSelectors(selector, selectorMtf, nSelectors, nGroups);
    SelectorsLegal(nGroups, selectorMtf[..nSelectors], selector[..nSelectors]);
  }

  method ReceiveAll(reader: BitReader, selector: array<Byte>, nSelectors: nat, minLens: seq<nat>, limit: seq<array<int>>, base: seq<array<int>>,
                    perm: seq<array<int>>, ghost books: seq<Book>, EOB: int, ghost lens: seq<seq<int>>, ghost sent: seq<int>, ghost rest: seq<bool>)
    returns (r: Status, syms: seq<int>)
    requires reader.Valid() && nSelectors <= selector.Length && |books| == |minLens| == |limit| == |base| == |perm| == |lens|
    requires forall g :: 0 <= g < nSelectors ==> selector[g] < |books|
    requires forall t :: 0 <= t < |books| ==> books[t].len == lens[t] && Source.Kept(books[t], limit[t], base[t], perm[t], minLens[t])
    requires forall t :: 0 <= t < |lens| ==> |lens[t]| == EOB + 1
    modifies reader
    ensures reader.Valid() && r != Overrun && (r == Good ==> 0 < |syms| && syms[|syms| - 1] == EOB && EOB !in syms[..|syms| - 1])
    ensures forall k :: 0 <= k < |syms| ==> 0 <= syms[k] <= EOB
    ensures Sent(sent, EOB, selector[..nSelectors], lens, rest, old(reader.Bits())) ==> r == Good && syms == sent && reader.Bits() == rest
  {
    hide BitReader.Bits, LowBits, Source.Kept, Sent;
    var source := new Source(reader, selector, nSelectors, minLens, limit, base, perm, books);
    assert source.Lens() == lens;
    var s;
    s, syms := source.ReceiveSymbols(EOB, sent, rest);
    r := if s.Sym? then Good else if s.Refused? then DataError else Status.NoInput;
  }

  lemma SelectorsLegal(n: nat, moves: seq<int>, selector: seq<int>)
    requires Selected(n, moves, selector)
    ensures forall i :: 0 <= i < |selector| ==> 0 <= selector[i] < n
  {
    forall i | 0 <= i < |selector| ensures 0 <= selector[i] < n { EntriesBelow(n, moves[..i], moves[i]); }
  }

  lemma {:induction false} EntriesBelow(n: nat, moves: seq<int>, k: int)
    requires Places(n, moves) && 0 <= k < n
    ensures 0 <= ListAfter(n, moves)[k] < n
  {
    if moves != [] {
      var m := |moves| - 1;
      var j := moves[m];
      EntriesBelow(n, moves[..m], if k == 0 then j else if k <= j then k - 1 else k);
    }
  }

  // ---- a layout with one selector more than the decoder's table holds ----

  /** A one-byte block, two tables, and 18003 selectors, all for the first table. */
  function CrowdedLayout(): Layout {
    var len := [1, 2, 2];
    var zeros := seq(BZ_MAX_SELECTORS + 1, _ => 0);
    Layout(seq(256, c => c == 7), zeros, zeros, [len, len], [0, 2], 3)
  }

  /** It is well formed in every way, and it overruns the table. */
  lemma CrowdedOverruns(rest: seq<bool>)
    ensures var x := CrowdedLayout();
            Proper(x) && |x.selector| == BZ_MAX_SELECTORS + 1 == 18003 && Overruns(SelectorBits(|x.lens|, x.moves) + rest)
  {
    var x := CrowdedLayout();
    hide Used, KraftHolds, ListAfter, Overruns, SelectorBits, Coded, Usable, Lengths, Selected, Places;
    AlwaysFirst(x.moves);
    OverrunsWhen(2, x.moves, rest);
    CrowdedCoded(x.selector, x.lens);
    OneUsed(x.inUse, 256);
    assert x.syms[..1] == [0];
  }

  lemma CrowdedCoded(selector: seq<int>, lens: seq<seq<int>>)
    requires selector == seq(BZ_MAX_SELECTORS + 1, _ => 0) && lens == [[1, 2, 2], [1, 2, 2]]
    ensures Coded([0, 2], selector, lens) && Usable(lens, 3)
  {
    SmallTable();
    hide KraftHolds, Lengths;
    var syms := [0, 2];
    forall k | 0 <= k < |syms| ensures TableOf(selector, lens, k) == [1, 2, 2] {
      assert k / BZ_G_SIZE == 0;
    }
  }

  lemma SmallTable()
    ensures Lengths([1, 2, 2]) && KraftHolds([1, 2, 2])
  {
    var len := [1, 2, 2];
    assert len[..2] == [1, 2] && [1, 2][..1] == [1] && [1][..0] == [];
    assert Pow2(20) == 2 * Pow2(19) && Pow2(19) == 2 * Pow2(18);
    hide Pow2;
    assert Kraft([], LONGEST, LONGEST) == 0;
    assert Kraft([1], LONGEST, LONGEST) == Pow2(19);
    assert Kraft([1, 2], LONGEST, LONGEST) == Pow2(19) + Pow2(18);
    assert Kraft(len, LONGEST, LONGEST) == Pow2(19) + Pow2(18) + Pow2(18);
  }

  lemma {:induction false} OneUsed(inUse: seq<bool>, n: nat)
    requires n <= |inUse| && forall c :: 0 <= c < |inUse| ==> (inUse[c] <==> c == 7)
    ensures Used(inUse, n) == if n > 7 then 1 else 0
  {
    if n > 0 { OneUsed(inUse, n - 1); }
  }

  /** Place nought of a list that never moves is the first table. */
  lemma {:induction false} AlwaysFirst(moves: seq<int>)
    requires forall i :: 0 <= i < |moves| ==> moves[i] == 0
    ensures Places(2, moves) && ListAfter(2, moves) == [0, 1] && Selected(2, moves, moves)
  {
    if moves == [] {
      assert ListAfter(2, moves) == [0, 1];
    } else {
      var n := |moves| - 1;
      AlwaysFirst(moves[..n]);
      SelectOne(2, moves[..n], moves[..n], 0, 0);
      assert moves == moves[..n] + [0];
      assert MtfTable.MoveFront([0, 1], 0) == [0, 1];
    }
  }
}
