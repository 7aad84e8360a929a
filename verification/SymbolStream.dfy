/** The block data: symbols in groups of fifty, each group coded with the table its selector names. */
module SymbolStream {
  import opened Common
  import opened BitStream
  import opened HuffmanCodes
  import opened HuffmanDecoding

  const BZ_G_SIZE := 50

  /** Every symbol has a selector, and a code in the table that selector names. */
  ghost predicate Coded(syms: seq<int>, selector: seq<int>, lens: seq<seq<int>>) {
    (forall t :: 0 <= t < |lens| ==> Lengths(lens[t]) && KraftHolds(lens[t]))
    && |syms| <= BZ_G_SIZE * |selector| && (forall g :: 0 <= g < |selector| ==> 0 <= selector[g] < |lens|)
    && forall k :: 0 <= k < |syms| ==> 0 <= syms[k] < |TableOf(selector, lens, k)|
  }

  function TableOf(selector: seq<int>, lens: seq<seq<int>>, k: nat): seq<int>
    requires k / BZ_G_SIZE < |selector| && 0 <= selector[k / BZ_G_SIZE] < |lens|
  {
    lens[selector[k / BZ_G_SIZE]]
  }

  /** The bits of the symbols from the k-th on. */
  ghost function DataFrom(syms: seq<int>, selector: seq<int>, lens: seq<seq<int>>, k: nat): seq<bool>
    requires Coded(syms, selector, lens) && k <= |syms|
    decreases |syms| - k
  {
    if k == |syms| then [] else CodeBits(TableOf(selector, lens, k), syms[k]) + DataFrom(syms, selector, lens, k + 1)
  }

  /** The i-th symbol of a group is the symbol's own number. */
  lemma InGroup(selCtr: nat, i: int)
    requires BZ_G_SIZE * selCtr <= i < BZ_G_SIZE * (selCtr + 1)
    ensures i / BZ_G_SIZE == selCtr
  {
    DivModUnique(i, BZ_G_SIZE, selCtr, i - BZ_G_SIZE * selCtr);
  }

  /** A code fits its length, so writing it writes exactly its bits. */
  lemma CodeWritable(len: seq<int>, s: int)
    requires Lengths(len) && KraftHolds(len) && 0 <= s < |len|
    ensures 0 <= Code(len, s) < Pow2(len[s]) && CodeBits(len, s) == BitsOf(Code(len, s), len[s])
  {
    CodeValue(len, s);
  }

  /** The arrays hold the lengths and the assigned codes of every table. */
  ghost predicate HoldCodes(lengths: seq<array<Byte>>, codes: seq<array<int>>, lens: seq<seq<int>>)
    reads lengths, codes
  {
    |lengths| == |codes| == |lens|
    && forall t :: 0 <= t < |lens| ==>
         |lens[t]| <= lengths[t].Length && |lens[t]| <= codes[t].Length && Lengths(lens[t])
         && forall i :: 0 <= i < |lens[t]| ==> lengths[t][i] == lens[t][i] && codes[t][i] == Code(lens[t], i)
  }

  /** Writes the block data. */
  method SendData(w: BitWriter, mtfv: array<int>, nMTF: nat, selector: array<Byte>, nSelectors: nat,
                  lengths: seq<array<Byte>>, codes: seq<array<int>>, ghost lens: seq<seq<int>>) returns (selCtr: nat)
    requires w.Valid() && nMTF <= mtfv.Length && nSelectors <= selector.Length && HoldCodes(lengths, codes, lens)
    requires Coded(mtfv[..nMTF], selector[..nSelectors], lens) && BZ_G_SIZE * (nSelectors - 1) < nMTF
    modifies w
    ensures w.Valid() && selCtr == nSelectors
    ensures w.Bits() == old(w.Bits()) + DataFrom(mtfv[..nMTF], selector[..nSelectors], lens, 0)
  {
    ghost var syms: seq<int> := mtfv[..nMTF];
    ghost var sel: seq<int> := selector[..nSelectors];
    ghost var all := w.Bits() + DataFrom(syms, sel, lens, 0);
    DataEnds(syms, sel, lens, nMTF);
    hide *;
    selCtr := 0;
    var gs := 0;
    while true
      invariant 0 <= selCtr <= nSelectors && gs <= nMTF && (gs == BZ_G_SIZE * selCtr || (gs == nMTF && selCtr == nSelectors))
      invariant w.Valid() && w.Bits() + DataFrom(syms, sel, lens, gs) == all
      decreases nMTF - gs
    {
      if gs >= nMTF { break; }
      gs := SendTurn(w, mtfv, nMTF, gs, selCtr, selector, nSelectors, lengths, codes, syms, sel, lens);
      selCtr := selCtr + 1;
    }
    assert w.Bits() + [] == w.Bits();
  }

  /** One turn: the group that starts at gs, with the table its selector names. */
  method SendTurn(w: BitWriter, mtfv: array<int>, nMTF: nat, gs: nat, selCtr: nat, selector: array<Byte>, nSelectors: nat,
                  lengths: seq<array<Byte>>, codes: seq<array<int>>, ghost syms: seq<int>, ghost sel: seq<int>, ghost lens: seq<seq<int>>)
    returns (gs': nat)
    requires w.Valid() && gs < nMTF <= mtfv.Length && nSelectors <= selector.Length && HoldCodes(lengths, codes, lens)
    requires syms == mtfv[..nMTF] && sel == selector[..nSelectors] && Coded(syms, sel, lens)
    requires BZ_G_SIZE * (nSelectors - 1) < nMTF && selCtr <= nSelectors
    requires gs == BZ_G_SIZE * selCtr || (gs == nMTF && selCtr == nSelectors)
    modifies w
    ensures selCtr < nSelectors && gs < gs' <= nMTF && (gs' == BZ_G_SIZE * (selCtr + 1) || (gs' == nMTF && selCtr + 1 == nSelectors))
    ensures w.Valid() && w.Bits() + DataFrom(syms, sel, lens, gs') == old(w.Bits()) + DataFrom(syms, sel, lens, gs)
  {
    hide *;
    var ge := gs + BZ_G_SIZE - 1;
    if ge >= nMTF { ge := nMTF - 1; }
    GroupEnd(syms, sel, lens, nMTF, nSelectors, gs, selCtr, ge);
    HeldAt(lengths, codes, syms, sel, lens, selCtr);
    var t := selector[selCtr];
    assert t == sel[selCtr];
    SendGroup(w, mtfv, nMTF, gs, ge, lengths[t], codes[t], selCtr, sel, lens);
    gs' := ge + 1;
  }

  /** There is a selector for the group at gs, and the next group starts after it unless it is the last. */
  lemma GroupEnd(syms: seq<int>, sel: seq<int>, lens: seq<seq<int>>, nMTF: nat, nSelectors: nat, gs: nat, selCtr: nat, ge: int)
    requires Coded(syms, sel, lens) && |syms| == nMTF && |sel| == nSelectors && BZ_G_SIZE * (nSelectors - 1) < nMTF && gs < nMTF
    requires gs == BZ_G_SIZE * selCtr || (gs == nMTF && selCtr == nSelectors)
    requires ge == if gs + BZ_G_SIZE - 1 >= nMTF then nMTF - 1 else gs + BZ_G_SIZE - 1
    ensures BZ_G_SIZE * selCtr == gs && gs <= ge < nMTF && ge < gs + BZ_G_SIZE && selCtr < nSelectors
    ensures ge + 1 == BZ_G_SIZE * (selCtr + 1) || (ge + 1 == nMTF && selCtr + 1 == nSelectors)
  {
  }

  lemma DataEnds(syms: seq<int>, sel: seq<int>, lens: seq<seq<int>>, nMTF: nat)
    requires Coded(syms, sel, lens) && |syms| == nMTF
    ensures BZ_G_SIZE == 50 && DataFrom(syms, sel, lens, nMTF) == []
  {
  }

  /** The arrays of the table that a group selects. */
  lemma HeldAt(lengths: seq<array<Byte>>, codes: seq<array<int>>, syms: seq<int>, sel: seq<int>, lens: seq<seq<int>>, g: nat)
    requires HoldCodes(lengths, codes, lens) && Coded(syms, sel, lens) && g < |sel|
    ensures |lengths| == |codes| == |lens| && 0 <= sel[g] < |lens|
    ensures var len, length, code := lens[sel[g]], lengths[sel[g]], codes[sel[g]];
            |len| <= length.Length && |len| <= code.Length && Lengths(len) && forall i :: 0 <= i < |len| ==> length[i] == len[i] && code[i] == Code(len, i)
  {
  }

  method SendGroup(w: BitWriter, mtfv: array<int>, nMTF: nat, gs: nat, ge: nat, length: array<Byte>, code: array<int>, ghost selCtr: nat,
                   ghost sel: seq<int>, ghost lens: seq<seq<int>>)
    requires w.Valid() && gs <= ge < nMTF <= mtfv.Length && Coded(mtfv[..nMTF], sel, lens)
    requires BZ_G_SIZE * selCtr == gs && ge < gs + BZ_G_SIZE && selCtr < |sel|
    requires var len := lens[sel[selCtr]];
             |len| <= length.Length && |len| <= code.Length && forall i :: 0 <= i < |len| ==> length[i] == len[i] && code[i] == Code(len, i)
    modifies w
    ensures w.Valid() && w.Bits() + DataFrom(mtfv[..nMTF], sel, lens, ge + 1) == old(w.Bits()) + DataFrom(mtfv[..nMTF], sel, lens, gs)
  {
    ghost var syms := mtfv[..nMTF];
    ghost var all := w.Bits() + DataFrom(syms, sel, lens, gs);
    hide *;
    var i := gs;
    while i <= ge
      invariant gs <= i <= ge + 1
      invariant w.Valid() && w.Bits() + DataFrom(syms, sel, lens, i) == all
    {
      assert mtfv[i] == syms[i];
      GroupSpan(gs, ge, selCtr, i);
      SendOne(w, mtfv[i], length, code, i, selCtr, syms, sel, lens);
      i := i + 1;
    }
  }

  lemma GroupSpan(gs: nat, ge: nat, selCtr: nat, i: nat)
    requires BZ_G_SIZE * selCtr == gs <= i <= ge < gs + BZ_G_SIZE
    ensures BZ_G_SIZE * selCtr <= i < BZ_G_SIZE * (selCtr + 1)
  {
  }

  /** bsW of one symbol's code. */
  method SendOne(w: BitWriter, s: int, length: array<Byte>, code: array<int>, ghost i: nat, ghost g: nat, ghost syms: seq<int>, ghost sel: seq<int>,
                 ghost lens: seq<seq<int>>)
    requires w.Valid() && Coded(syms, sel, lens) && i < |syms| && BZ_G_SIZE * g <= i < BZ_G_SIZE * (g + 1) && g < |sel| && s == syms[i]
    requires 0 <= sel[g] < |lens| && var len := lens[sel[g]];
             |len| <= length.Length && |len| <= code.Length && forall k :: 0 <= k < |len| ==> length[k] == len[k] && code[k] == Code(len, k)
    modifies w
    ensures w.Valid() && w.Bits() + DataFrom(syms, sel, lens, i + 1) == old(w.Bits()) + DataFrom(syms, sel, lens, i)
  {
    hide *;
    InGroup(g, i);
    NextCode(syms, sel, lens, i, g);
    Regroup(w.Bits(), CodeBits(lens[sel[g]], s), DataFrom(syms, sel, lens, i + 1));
    w.W(length[s], code[s]);
  }

  lemma Regroup(a: seq<bool>, b: seq<bool>, c: seq<bool>)
    ensures a + (b + c) == a + b + c
  {
  }

  /** The next symbol has a code in the group's table, short enough to be written at once. */
  lemma NextCode(syms: seq<int>, sel: seq<int>, lens: seq<seq<int>>, i: nat, g: nat)
    requires Coded(syms, sel, lens) && i < |syms| && i / BZ_G_SIZE == g < |sel|
    ensures 0 <= sel[g] < |lens| && var len := lens[sel[g]];
            0 <= syms[i] < |len| && Lengths(len) && 0 <= len[syms[i]] <= 25 && 0 <= Code(len, syms[i]) < Pow2(len[syms[i]])
            && CodeBits(len, syms[i]) == BitsOf(Code(len, syms[i]), len[syms[i]])
    ensures DataFrom(syms, sel, lens, i) == CodeBits(lens[sel[g]], syms[i]) + DataFrom(syms, sel, lens, i + 1)
  {
    CodeWritable(lens[sel[g]], syms[i]);
    hide Code, CodeBits, KraftHolds, Pow2, BitsOf;
  }

  /** The bits are those of the sent symbols, the last and only the last of them the end marker, and then the rest. */
  ghost predicate Sent(sent: seq<int>, EOB: int, selector: seq<int>, lens: seq<seq<int>>, rest: seq<bool>, bits: seq<bool>) {
    Coded(sent, selector, lens) && 0 < |sent| && sent[|sent| - 1] == EOB && EOB !in sent[..|sent| - 1]
    && bits == DataFrom(sent, selector, lens, 0) + rest
  }

  /** Decoding takes the next sent symbol and leaves the others. */
  lemma TakeSent(sent: seq<int>, selector: seq<int>, lens: seq<seq<int>>, k: nat, rest: seq<bool>, bits: seq<bool>, r: Symbol, bits': seq<bool>)
    requires Coded(sent, selector, lens) && k < |sent| && bits == DataFrom(sent, selector, lens, k) + rest
    requires Decodes(TableOf(selector, lens, k), bits, r, bits')
    ensures r == Sym(sent[k]) && bits' == DataFrom(sent, selector, lens, k + 1) + rest
  {
    var code, more := CodeBits(TableOf(selector, lens, k), sent[k]), DataFrom(sent, selector, lens, k + 1);
    assert bits == code + (more + rest);
    assert code <= bits;
    assert bits[|code|..] == more + rest;
    assert bits == code + bits' ==> bits[|code|..] == bits';
  }

  lemma NoMore(sent: seq<int>, selector: seq<int>, lens: seq<seq<int>>, rest: seq<bool>)
    requires Coded(sent, selector, lens)
    ensures DataFrom(sent, selector, lens, |sent|) + rest == rest
  {
  }

  /** The decoder's place in the groups: GET_MTF_VAL with its saved groupNo, groupPos and chosen tables. */
  class Source {
    const reader: BitReader
    const selector: array<Byte>
    const nSelectors: nat
    const minLens: seq<nat>
    const limit: seq<array<int>>
    const base: seq<array<int>>
    const perm: seq<array<int>>
    ghost const books: seq<Book>
    var groupNo: int
    var groupPos: int
    var gSel: int
    /** How many symbols have been asked for. */
    ghost var taken: nat

    /** The tables are those of sound code books, the selectors name them. */
    ghost predicate Fixed()
      reads selector, limit, base, perm
    {
      nSelectors <= selector.Length && |books| == |minLens| == |limit| == |base| == |perm|
      && (forall g :: 0 <= g < nSelectors ==> selector[g] < |books|)
      && forall t :: 0 <= t < |books| ==> Kept(books[t], limit[t], base[t], perm[t], minLens[t])
    }

    static ghost predicate Kept(b: Book, limit: array<int>, base: array<int>, perm: array<int>, minLen: nat)
      reads limit, base, perm
    {
      b.Sound() && limit[..] == b.limit && base[..] == b.base && perm[..] == b.perm && minLen == b.minLen
    }

    ghost predicate Valid()
      reads this, reader, selector, limit, base, perm
    {
      Fixed() && reader.Valid() && -1 <= groupNo < nSelectors && groupPos == BZ_G_SIZE * (groupNo + 1) - taken && 0 <= groupPos < BZ_G_SIZE
      && (0 <= groupNo ==> gSel == selector[groupNo])
    }

    ghost function Lens(): (lens: seq<seq<int>>)
      ensures |lens| == |books| && forall t :: 0 <= t < |books| ==> lens[t] == books[t].len
    {
      seq(|books|, t requires 0 <= t < |books| => books[t].len)
    }

    constructor (r: BitReader, selector: array<Byte>, nSelectors: nat, minLens: seq<nat>, limit: seq<array<int>>, base: seq<array<int>>,
                 perm: seq<array<int>>, ghost books: seq<Book>)
      requires r.Valid() && nSelectors <= selector.Length && |books| == |minLens| == |limit| == |base| == |perm|
      requires forall g :: 0 <= g < nSelectors ==> selector[g] < |books|
      requires forall t :: 0 <= t < |books| ==> Source.Kept(books[t], limit[t], base[t], perm[t], minLens[t])
      ensures Valid() && taken == 0 && reader == r && this.selector == selector && this.nSelectors == nSelectors && this.books == books
      ensures this.limit == limit && this.base == base && this.perm == perm
    {
      this.reader, this.selector, this.nSelectors, this.minLens := r, selector, nSelectors, minLens;
      this.limit, this.base, this.perm, this.books := limit, base, perm, books;
      groupNo, groupPos, gSel, taken := -1, 0, 0, 0;
    }

    /** The next symbol, with the table of the group it is in; refused when the selectors have run out. */
    method GetMtfVal() returns (r: Symbol)
      requires Valid()
      modifies this, reader
      ensures Fixed() && reader.Valid() && (r.Sym? ==> Valid() && taken == old(taken) + 1 && exists t :: 0 <= t < |books| && 0 <= r.sym < |books[t].len|)
      ensures old(taken) < BZ_G_SIZE * nSelectors ==>
                (old(taken) / BZ_G_SIZE < nSelectors
                 && var len := Lens()[selector[old(taken) / BZ_G_SIZE]]; KraftHolds(len) ==> Decodes(len, old(reader.Bits()), r, reader.Bits()))
      ensures old(taken) >= BZ_G_SIZE * nSelectors ==> r == Refused
    {
      if groupPos == 0 {
        groupNo := groupNo + 1;
        if groupNo >= nSelectors {
          groupNo := groupNo - 1;
          return Refused;
        }
        groupPos := BZ_G_SIZE;
        gSel := selector[groupNo];
      }
      groupPos := groupPos - 1;
      InGroup(groupNo, taken);
      taken := taken + 1;
      r := GetSymbol(reader, limit[gSel], base[gSel], perm[gSel], minLens[gSel], books[gSel]);
    }

    /** Reads symbols until the end marker. Symbols sent with the same selectors and lengths come back, and no bit more is used. */
    method ReceiveSymbols(EOB: int, ghost sent: seq<int>, ghost rest: seq<bool>) returns (r: Symbol, syms: seq<int>)
      requires Valid() && taken == 0
      modifies this, reader
      ensures Fixed() && reader.Valid()
      ensures r.Sym? ==> r.sym == EOB && 0 < |syms| && syms[|syms| - 1] == EOB && EOB !in syms[..|syms| - 1]
      ensures (forall t :: 0 <= t < |books| ==> |books[t].len| == EOB + 1) ==> forall k :: 0 <= k < |syms| ==> 0 <= syms[k] <= EOB
      ensures Sent(sent, EOB, selector[..nSelectors], Lens(), rest, old(reader.Bits())) ==> r == Sym(EOB) && syms == sent && reader.Bits() == rest
    {
      hide BitReader.Bits, LowBits, Kept, Decodes, KraftHolds, DataFrom;
      ghost var sel: seq<int>, lens, bits := selector[..nSelectors], Lens(), reader.Bits();
      ghost var expected := Sent(sent, EOB, sel, lens, rest, bits);
      syms := [];
      while true
        invariant Valid() && Fixed() && reader.Valid() && taken == |syms| <= BZ_G_SIZE * nSelectors && EOB !in syms && selector[..nSelectors] == sel
        invariant (forall t :: 0 <= t < |books| ==> |books[t].len| == EOB + 1) ==> forall k :: 0 <= k < |syms| ==> 0 <= syms[k] <= EOB
        invariant expected ==> |syms| < |sent| && syms == sent[..|syms|] && reader.Bits() == DataFrom(sent, sel, lens, |syms|) + rest
        decreases BZ_G_SIZE * nSelectors - taken
      {
        ghost var was := reader.Bits();
        r := GetMtfVal();
        if expected { TakeSent(sent, sel, lens, |syms|, rest, was, r, reader.Bits()); }
        if !r.Sym? { return; }
        syms := syms + [r.sym];
        if r.sym == EOB { break; }
      }
      if expected {
        assert syms == sent;
        NoMore(sent, sel, lens, rest);
      }
    }
  }
}
