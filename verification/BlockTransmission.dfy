/** sendMTFValues and its counterpart: a block's tables and symbols on the wire, for any choice of selectors and for tables
    made from any frequencies. */
module BlockTransmission {
  import opened Common
  import opened BitStream
  import opened HuffmanCodes
  import opened HuffmanLengths
  import opened SymbolStream
  import opened BlockHeader
  import opened CodingTables

  const MAX_LEN: nat := 17

  /** Lengths made for at most 17 bits are lengths a decoder takes, and they leave room for the codes. */
  lemma LengthsUsable(len: seq<int>)
    requires |len| <= HuffmanCodes.BZ_MAX_ALPHA_SIZE && (forall i :: 0 <= i < |len| ==> 1 <= len[i] <= MAX_LEN) && Kraft(len, MAX_LEN, MAX_LEN) == Pow2(MAX_LEN)
    ensures Lengths(len) && KraftHolds(len)
  {
    KraftScale(len, MAX_LEN, 3);
    Pow2Add(MAX_LEN, 3);
  }

  lemma FibForAlphabet(a: nat)
    requires a <= 258
    ensures Fib(MAX_LEN + 3) > 2 * a
  {
    FibLarge();
    FibMonotone(15, MAX_LEN + 3);
  }

  /** All tables of a block: legal lengths of one alphabet that leave room for their codes. */
  ghost predicate Usable(lens: seq<seq<int>>, alphaSize: int) {
    |lens| <= BZ_N_GROUPS && forall t :: 0 <= t < |lens| ==> |lens[t]| == alphaSize && Lengths(lens[t]) && KraftHolds(lens[t])
  }

  ghost function TableBits(lens: seq<seq<int>>, alphaSize: nat, t: nat): seq<bool>
    requires Usable(lens, alphaSize) && alphaSize > 0 && t <= |lens|
    decreases |lens| - t
  {
    if t == |lens| then [] else LengthBits(lens[t]) + TableBits(lens, alphaSize, t + 1)
  }

  /** A block after its header: bytes in use, selectors, tables, data. */
  datatype Layout = Layout(inUse: seq<bool>, moves: seq<int>, selector: seq<int>, lens: seq<seq<int>>, syms: seq<int>, alphaSize: nat) {
    ghost predicate Sound() {
      |inUse| == 256 && alphaSize > 0 && Usable(lens, alphaSize) && 2 <= |lens| && 1 <= |selector| < 0x8000
      && Selected(|lens|, moves, selector) && Coded(syms, selector, lens)
    }

    ghost function Bits(): seq<bool>
      requires Sound()
    {
      MappingBits(inUse) + (SelectorBits(|lens|, moves) + (TableBits(lens, alphaSize, 0) + DataFrom(syms, selector, lens, 0)))
    }
  }

  /** The arrays hold the lengths. */
  ghost predicate HoldLengths(lengths: seq<array<Byte>>, lens: seq<seq<int>>)
    reads lengths
  {
    |lengths| == |lens| && forall t :: 0 <= t < |lens| ==> |lens[t]| <= lengths[t].Length && lengths[t][..|lens[t]|] == lens[t]
  }

  /** One table: its lengths from the frequencies, and its codes from the lengths. */
  method MakeTable(freq: array<int>, alphaSize: nat) returns (length: array<Byte>, code: array<int>, ghost len: seq<int>)
    requires 2 <= alphaSize <= HuffmanCodes.BZ_MAX_ALPHA_SIZE && alphaSize <= freq.Length
    requires (forall i :: 0 <= i < alphaSize ==> freq[i] >= 0) && Sum(Filled(freq[..alphaSize])) < 0x80_0000
    ensures fresh(length) && fresh(code) && length.Length == code.Length == HuffmanCodes.BZ_MAX_ALPHA_SIZE && |len| == alphaSize
    ensures length[..alphaSize] == len && Lengths(len) && KraftHolds(len) && forall i :: 0 <= i < alphaSize ==> code[i] == Code(len, i)
    ensures Kept(Filled(freq[..alphaSize]), len, MAX_LEN)
  {
    hide *;
    length := new Byte[HuffmanCodes.BZ_MAX_ALPHA_SIZE](_ => 0);
    code := new int[HuffmanCodes.BZ_MAX_ALPHA_SIZE](_ => 0);
    SameAlphabet();
    FibForAlphabet(alphaSize);
    MakeCodeLengths(length, freq, alphaSize, MAX_LEN);
    len := length[..alphaSize];
    LengthsUsable(len);
    LengthsAre(len);
    var minLen, maxLen := Extremes(length, alphaSize);
    AssignCodes(code, length, minLen, maxLen, alphaSize);
  }

  lemma SameAlphabet()
    ensures HuffmanCodes.BZ_MAX_ALPHA_SIZE == HuffmanLengths.BZ_MAX_ALPHA_SIZE == 258
  {
  }

  lemma LengthsAre(len: seq<int>)
    requires Lengths(len)
    ensures forall i :: 0 <= i < |len| ==> 1 <= len[i] <= LONGEST
  {
  }

  /** Shortest and longest length. */
  method Extremes(length: array<Byte>, alphaSize: nat) returns (minLen: nat, maxLen: nat)
    requires 1 <= alphaSize <= length.Length && forall i :: 0 <= i < alphaSize ==> 1 <= length[i] <= LONGEST
    ensures 1 <= minLen <= maxLen <= LONGEST && maxLen in length[..alphaSize] && forall i :: 0 <= i < alphaSize ==> minLen <= length[i] <= maxLen
  {
    minLen, maxLen := 32, 0;
    var i := 0;
    while i < alphaSize
      invariant 0 <= i <= alphaSize && (i > 0 ==> 1 <= minLen <= maxLen <= LONGEST && maxLen in length[..alphaSize])
      invariant (i == 0 ==> minLen == 32 && maxLen == 0) && forall k :: 0 <= k < i ==> minLen <= length[k] <= maxLen
    {
      assert length[i] == length[..alphaSize][i];
      if length[i] > maxLen { maxLen := length[i]; }
      if length[i] < minLen { minLen := length[i]; }
      i := i + 1;
    }
  }

  method MakeTables(rfreq: seq<array<int>>, alphaSize: nat, ghost freqs: seq<seq<int>>) returns (lengths: seq<array<Byte>>, codes: seq<array<int>>, ghost lens: seq<seq<int>>)
    requires 2 <= alphaSize <= HuffmanCodes.BZ_MAX_ALPHA_SIZE && |rfreq| <= BZ_N_GROUPS && HoldCounts(rfreq, freqs, alphaSize)
    ensures |lens| == |rfreq| && Usable(lens, alphaSize) && HoldLengths(lengths, lens) && HoldCodes(lengths, codes, lens)
    ensures Fitted(freqs, lens)
  {
    hide Kept, KraftHolds, Lengths, Frequencies;
    lengths, codes, lens := [], [], [];
    var t := 0;
    while t < |rfreq|
      invariant 0 <= t <= |rfreq| && |lens| == t && Usable(lens, alphaSize) && HoldLengths(lengths, lens) && HoldCodes(lengths, codes, lens)
      invariant Fitted(freqs[..t], lens)
      modifies {}
    {
      var length, code;
      ghost var len;
      FrequenciesAre(rfreq[t], alphaSize);
      length, code, len := MakeTable(rfreq[t], alphaSize);
      FittedMore(freqs[..t], lens, freqs[t], len);
      assert freqs[..t + 1] == freqs[..t] + [freqs[t]];
      lengths, codes, lens := lengths + [length], codes + [code], lens + [len];
      t := t + 1;
    }
    assert freqs[..t] == freqs;
  }

  lemma FrequenciesAre(freq: array<int>, alphaSize: nat)
    requires Frequencies(freq, alphaSize)
    ensures alphaSize <= freq.Length && (forall i :: 0 <= i < alphaSize ==> freq[i] >= 0) && Sum(Filled(freq[..alphaSize])) < 0x80_0000
  {
  }

  lemma FittedMore(freqs: seq<seq<int>>, lens: seq<seq<int>>, freq: seq<int>, len: seq<int>)
    requires Fitted(freqs, lens) && |freq| == |len| && Kept(Filled(freq), len, MAX_LEN)
    ensures Fitted(freqs + [freq], lens + [len])
  {
    hide Kept, Filled;
    assert len[..|freq|] == len;
  }

  /** Code lengths for the counts: those of a best code for them, or for half of them and so on while that is too long. */
  ghost predicate Fitted(freqs: seq<seq<int>>, lens: seq<seq<int>>) {
    |lens| == |freqs| && forall t :: 0 <= t < |freqs| ==> |freqs[t]| <= |lens[t]| && Kept(Filled(freqs[t]), lens[t][..|freqs[t]|], MAX_LEN)
  }

  /** The arrays hold the counts. */
  ghost predicate HoldCounts(rows: seq<array<int>>, freqs: seq<seq<int>>, alphaSize: nat)
    reads rows
  {
    |rows| == |freqs| && forall t :: 0 <= t < |rows| ==> Frequencies(rows[t], alphaSize) && rows[t][..alphaSize] == freqs[t]
  }

  /** Frequencies a caller may hand over: not negative and, with zeros counted as one, below 2^23 in all. */
  ghost predicate Frequencies(freq: array<int>, alphaSize: nat)
    reads freq
  {
    alphaSize <= freq.Length && (forall i :: 0 <= i < alphaSize ==> freq[i] >= 0) && Sum(Filled(freq[..alphaSize])) < 0x80_0000
  }

  method SendTables(w: BitWriter, lengths: seq<array<Byte>>, alphaSize: nat, ghost lens: seq<seq<int>>)
    requires w.Valid() && alphaSize > 0 && Usable(lens, alphaSize) && HoldLengths(lengths, lens)
    modifies w
    ensures w.Valid() && w.Bits() == old(w.Bits()) + TableBits(lens, alphaSize, 0)
  {
    hide BitWriter.Bits, Aligned, KraftHolds;
    ghost var all := w.Bits() + TableBits(lens, alphaSize, 0);
    var t := 0;
    while t < |lengths|
      invariant 0 <= t <= |lengths| && w.Valid() && w.Bits() + TableBits(lens, alphaSize, t) == all
    {
      Assoc(w.Bits(), LengthBits(lens[t]), TableBits(lens, alphaSize, t + 1));
      SendLengths(w, lengths[t], alphaSize);
      t := t + 1;
    }
    assert w.Bits() + [] == w.Bits();
  }

  method SendMTFValues(w: BitWriter, mtfv: array<int>, nMTF: nat, inUse: array<bool>, alphaSize: nat, rfreq: seq<array<int>>,
                       selector: array<Byte>, nSelectors: nat, ghost freqs: seq<seq<int>>) returns (ghost layout: Layout)
    requires w.Valid() && inUse.Length == 256 && nMTF <= mtfv.Length && 2 <= |rfreq| <= BZ_N_GROUPS
    requires 2 <= alphaSize <= HuffmanCodes.BZ_MAX_ALPHA_SIZE && HoldCounts(rfreq, freqs, alphaSize)
    requires 1 <= nSelectors <= BZ_MAX_SELECTORS && nSelectors <= selector.Length && forall g :: 0 <= g < nSelectors ==> selector[g] < |rfreq|
    requires BZ_G_SIZE * (nSelectors - 1) < nMTF <= BZ_G_SIZE * nSelectors && forall k :: 0 <= k < nMTF ==> 0 <= mtfv[k] < alphaSize
    modifies w
    ensures w.Valid() && layout.Sound() && w.Bits() == old(w.Bits()) + layout.Bits()
    ensures layout.inUse == inUse[..] && layout.syms == mtfv[..nMTF] && layout.selector == selector[..nSelectors] && layout.alphaSize == alphaSize
    ensures Fitted(freqs, layout.lens)
  {
    var lengths, codes;
    ghost var lens;
    lengths, codes, lens := MakeTables(rfreq, alphaSize, freqs);
    hide Fitted;
    var selectorMtf := new Byte[BZ_MAX_SELECTORS](_ => 0);
    MoveSelectors(selector, selectorMtf, nSelectors, |rfreq|);
    ghost var moves: seq<int>, sel: seq<int>, syms := selectorMtf[..nSelectors], selector[..nSelectors], mtfv[..nMTF];
    layout := Layout(inUse[..], moves, sel, lens, syms, alphaSize);
    Transmittable(syms, sel, lens, alphaSize);
    hide BitWriter.Bits, Aligned, Usable, Coded, HoldCodes, HoldLengths;
    var selCtr := Transmit(w, mtfv, nMTF, inUse, alphaSize, selector, selectorMtf, nSelectors, lengths, codes, layout);
  }

  lemma LayoutParts(x: Layout)
    requires x.Sound()
    ensures |x.inUse| == 256 && x.alphaSize > 0 && Usable(x.lens, x.alphaSize) && 2 <= |x.lens| <= BZ_N_GROUPS && 1 <= |x.selector| < 0x8000
    ensures Places(BZ_N_GROUPS, x.moves) && Places(|x.lens|, x.moves) && |x.moves| == |x.selector| && Coded(x.syms, x.selector, x.lens)
    ensures x.Bits() == MappingBits(x.inUse) + (SelectorBits(|x.lens|, x.moves) + (TableBits(x.lens, x.alphaSize, 0) + DataFrom(x.syms, x.selector, x.lens, 0)))
  {
    hide MappingBits, SelectorBits, TableBits, DataFrom, Coded, KraftHolds, Lengths, ListAfter;
  }

  lemma SameTables(lengths: seq<array<Byte>>, lens: seq<seq<int>>)
    requires HoldLengths(lengths, lens)
    ensures |lengths| == |lens|
  {
  }

  /** Mapping table, selectors, code lengths and block data, in this order. */
  method Transmit(w: BitWriter, mtfv: array<int>, nMTF: nat, inUse: array<bool>, alphaSize: nat, selector: array<Byte>, selectorMtf: array<Byte>,
                  nSelectors: nat, lengths: seq<array<Byte>>, codes: seq<array<int>>, ghost layout: Layout) returns (selCtr: nat)
    requires w.Valid() && inUse.Length == 256 && nMTF <= mtfv.Length && nSelectors <= selector.Length && nSelectors <= selectorMtf.Length
    requires layout.Sound() && layout.inUse == inUse[..] && layout.syms == mtfv[..nMTF] && layout.selector == selector[..nSelectors]
    requires layout.alphaSize == alphaSize && layout.moves == selectorMtf[..nSelectors]
    requires HoldLengths(lengths, layout.lens) && HoldCodes(lengths, codes, layout.lens) && BZ_G_SIZE * (nSelectors - 1) < nMTF
    modifies w
    ensures w.Valid() && selCtr == nSelectors && w.Bits() == old(w.Bits()) + layout.Bits()
  {
    hide *;
    ghost var lens, moves, sel, syms := layout.lens, layout.moves, layout.selector, layout.syms;
    LayoutParts(layout);
    SameTables(lengths, lens);
    Regroup4(w.Bits(), MappingBits(layout.inUse), SelectorBits(|lens|, moves), TableBits(lens, alphaSize, 0), DataFrom(syms, sel, lens, 0));
    SendHead(w, inUse, |lengths|, nSelectors, selectorMtf);
    selCtr := SendBody(w, mtfv, nMTF, alphaSize, selector, nSelectors, lengths, codes, lens);
  }

  method SendHead(w: BitWriter, inUse: array<bool>, nGroups: nat, nSelectors: nat, selectorMtf: array<Byte>)
    requires w.Valid() && inUse.Length == 256 && nGroups <= BZ_N_GROUPS && nSelectors <= selectorMtf.Length && nSelectors < 0x8000
    requires Places(nGroups, selectorMtf[..nSelectors])
    modifies w
    ensures w.Valid() && w.Bits() == old(w.Bits()) + (MappingBits(inUse[..]) + SelectorBits(nGroups, selectorMtf[..nSelectors]))
  {
    hide BitWriter.Bits, Aligned, MappingBits, SelectorBits;
    Assoc(w.Bits(), MappingBits(inUse[..]), SelectorBits(nGroups, selectorMtf[..nSelectors]));
    SendMapping(w, inUse);
    SendSelectors(w, nGroups, nSelectors, selectorMtf);
  }

  method SendBody(w: BitWriter, mtfv: array<int>, nMTF: nat, alphaSize: nat, selector: array<Byte>, nSelectors: nat,
                  lengths: seq<array<Byte>>, codes: seq<array<int>>, ghost lens: seq<seq<int>>) returns (selCtr: nat)
    requires w.Valid() && nMTF <= mtfv.Length && nSelectors <= selector.Length && alphaSize > 0 && Usable(lens, alphaSize)
    requires HoldLengths(lengths, lens) && HoldCodes(lengths, codes, lens) && Coded(mtfv[..nMTF], selector[..nSelectors], lens)
    requires BZ_G_SIZE * (nSelectors - 1) < nMTF
    modifies w
    ensures w.Valid() && selCtr == nSelectors
    ensures w.Bits() == old(w.Bits()) + (TableBits(lens, alphaSize, 0) + DataFrom(mtfv[..nMTF], selector[..nSelectors], lens, 0))
  {
    hide BitWriter.Bits, Aligned, Usable, Coded, HoldCodes, HoldLengths, TableBits, DataFrom;
    Assoc(w.Bits(), TableBits(lens, alphaSize, 0), DataFrom(mtfv[..nMTF], selector[..nSelectors], lens, 0));
    SendTables(w, lengths, alphaSize, lens);
    selCtr := SendData(w, mtfv, nMTF, selector, nSelectors, lengths, codes, lens);
  }

  lemma Transmittable(syms: seq<int>, sel: seq<int>, lens: seq<seq<int>>, alphaSize: nat)
    requires Usable(lens, alphaSize) && |syms| <= BZ_G_SIZE * |sel| && (forall g :: 0 <= g < |sel| ==> 0 <= sel[g] < |lens|)
    requires forall k :: 0 <= k < |syms| ==> 0 <= syms[k] < alphaSize
    ensures Coded(syms, sel, lens)
  {
  }

  lemma Regroup4(s: seq<bool>, a: seq<bool>, b: seq<bool>, c: seq<bool>, d: seq<bool>)
    ensures s + (a + b) + (c + d) == s + (a + (b + (c + d)))
  {
  }

  // ---- receiving ----

  method ReceiveTables(reader: BitReader, nGroups: nat, alphaSize: nat, ghost x: seq<seq<int>>, ghost rest: seq<bool>, ghost expected: bool)
    returns (r: Status, lengths: seq<array<Byte>>, ghost lens: seq<seq<int>>)
    requires reader.Valid() && 1 <= alphaSize <= HuffmanCodes.BZ_MAX_ALPHA_SIZE
    requires expected ==> |x| == nGroups && Usable(x, alphaSize) && reader.Bits() == TableBits(x, alphaSize, 0) + rest
    modifies reader
    ensures reader.Valid() && (r == Good ==> |lens| == nGroups && HoldLengths(lengths, lens) && forall t :: 0 <= t < nGroups ==> |lens[t]| == alphaSize && Lengths(lens[t]))
    ensures expected ==> r == Good && lens == x && reader.Bits() == rest
  {
    hide BitReader.Bits, LowBits, KraftHolds, LengthBits;
    lengths, lens := [], [];
    var t := 0;
    while t < nGroups
      invariant 0 <= t <= nGroups && reader.Valid() && |lens| == t && HoldLengths(lengths, lens)
      invariant forall k :: 0 <= k < t ==> |lens[k]| == alphaSize && Lengths(lens[k])
      invariant expected ==> lens == x[..t] && reader.Bits() == TableBits(x, alphaSize, t) + rest
      modifies reader
    {
      var length := new Byte[HuffmanCodes.BZ_MAX_ALPHA_SIZE](_ => 0);
      ghost var l, after := if expected then x[t] else [], if expected then TableBits(x, alphaSize, t + 1) + rest else [];
      if expected { Assoc(LengthBits(l), TableBits(x, alphaSize, t + 1), rest); }
      r := ReceiveLengths(reader, length, alphaSize, l, after);
      if r != Good { return; }
      lengths, lens := lengths + [length], lens + [length[..alphaSize]];
      assert expected ==> x[..t + 1] == x[..t] + [x[t]];
      t := t + 1;
    }
    assert expected ==> x[..nGroups] == x && [] + rest == rest;
    r := Good;
  }

  /** The decoding tables of one code. */
  method MakeBook(length: array<Byte>, alphaSize: nat)
    returns (minLen: nat, limit: array<int>, base: array<int>, perm: array<int>, ghost book: Book)
    requires 1 <= alphaSize <= length.Length && Lengths(length[..alphaSize])
    ensures fresh(limit) && fresh(base) && fresh(perm) && book.len == length[..alphaSize] && Source.Kept(book, limit, base, perm, minLen)
  {
    limit := new int[HuffmanCodes.BZ_MAX_ALPHA_SIZE](_ => 0);
    base := new int[HuffmanCodes.BZ_MAX_ALPHA_SIZE](_ => 0);
    perm := new int[HuffmanCodes.BZ_MAX_ALPHA_SIZE](_ => 0);
    ghost var len: seq<int> := length[..alphaSize];
    assert forall i :: 0 <= i < alphaSize ==> length[i] == len[i];
    var maxLen;
    minLen, maxLen := Extremes(length, alphaSize);
    hide Lengths;
    CreateDecodeTables(limit, base, perm, length, minLen, maxLen, alphaSize);
    book := Book(len, limit[..], base[..], perm[..], minLen, maxLen);
  }

  method MakeBooks(lengths: seq<array<Byte>>, alphaSize: nat, ghost lens: seq<seq<int>>)
    returns (minLens: seq<nat>, limit: seq<array<int>>, base: seq<array<int>>, perm: seq<array<int>>, ghost books: seq<Book>)
    requires 1 <= alphaSize && HoldLengths(lengths, lens) && forall t :: 0 <= t < |lens| ==> |lens[t]| == alphaSize && Lengths(lens[t])
    ensures |books| == |minLens| == |limit| == |base| == |perm| == |lens|
    ensures forall t :: 0 <= t < |lens| ==> books[t].len == lens[t] && Source.Kept(books[t], limit[t], base[t], perm[t], minLens[t])
  {
    minLens, limit, base, perm, books := [], [], [], [], [];
    hide Lengths, Book.Sound;
    var t := 0;
    while t < |lengths|
      invariant 0 <= t <= |lengths| && |books| == |minLens| == |limit| == |base| == |perm| == t
      invariant forall k :: 0 <= k < t ==> books[k].len == lens[k] && Source.Kept(books[k], limit[k], base[k], perm[k], minLens[k])
      modifies {}
    {
      var mi, li, ba, pe;
      ghost var bo;
      mi, li, ba, pe, bo := MakeBook(lengths[t], alphaSize);
      minLens, limit, base, perm, books := minLens + [mi], limit + [li], base + [ba], perm + [pe], books + [bo];
      t := t + 1;
    }
  }
}
