/** generateMTFValues of compress.c: the last column turned into move-to-front symbols, written over the sort order it is
    read from. */
module MtfEncoder {
  import opened Common
  import opened RunLength
  import opened MtfTable
  import opened MtfCoding
  import opened InUseMap
  import BW = BurrowsWheeler

  /** The symbols written so far plus a pending run say the first i bytes of the column. */
  ghost predicate Encoding(col: seq<Byte>, i: int, yy: seq<Byte>, nInUse: int, syms: seq<int>, zPend: int) {
    0 <= i <= |col| && 0 <= zPend && 1 <= nInUse <= 256 && |yy| == 256 && Symbols(syms, nInUse)
    && IsPerm(yy[..nInUse], nInUse) && |syms| + zPend <= i
    && var m := Meaning(syms);
       m.list[..nInUse] == yy[..nInUse] && m.weight == 1 && m.column + Repeat(yy[0], zPend) == col[..i]
  }

  /** While a run is being written: z copies of the next digit's weight are still to be said. */
  ghost predicate Flushing(col: seq<Byte>, i: int, yy: seq<Byte>, nInUse: int, syms: seq<int>, z: int) {
    0 <= i <= |col| && 0 <= z && 1 <= nInUse <= 256 && |yy| == 256 && Symbols(syms, nInUse)
    && IsPerm(yy[..nInUse], nInUse) && |syms| + z <= i
    && var m := Meaning(syms);
       m.list[..nInUse] == yy[..nInUse] && m.column + Repeat(yy[0], z * m.weight) == col[..i]
  }

  lemma EncodingStart(col: seq<Byte>, yy: seq<Byte>, nInUse: int)
    requires 1 <= nInUse <= 256 && |yy| == 256 && forall k :: 0 <= k < nInUse ==> yy[k] == k
    ensures Encoding(col, 0, yy, nInUse, [], 0)
  {
  }

  lemma Pend(col: seq<Byte>, i: int, yy: seq<Byte>, nInUse: int, syms: seq<int>, zPend: int)
    requires Encoding(col, i, yy, nInUse, syms, zPend) && i < |col| && col[i] == yy[0]
    ensures Encoding(col, i + 1, yy, nInUse, syms, zPend + 1)
  {
    RepeatAdd(yy[0], zPend, 1);
    assert col[..i + 1] == col[..i] + Repeat(yy[0], 1);
    assert Meaning(syms).column + Repeat(yy[0], zPend + 1) == Meaning(syms).column + Repeat(yy[0], zPend) + Repeat(yy[0], 1);
  }

  lemma DigitIs(sym: int, zPend: nat)
    requires sym == if zPend % 2 == 1 then BZ_RUNB else BZ_RUNA
    ensures 0 <= sym <= 1 && sym == zPend % 2
  {
  }

  lemma FlushStart(col: seq<Byte>, i: int, yy: seq<Byte>, nInUse: int, syms: seq<int>, zPend: int)
    requires Encoding(col, i, yy, nInUse, syms, zPend)
    ensures Flushing(col, i, yy, nInUse, syms, zPend)
  {
  }

  lemma FlushRoom(col: seq<Byte>, i: int, yy: seq<Byte>, nInUse: int, syms: seq<int>, z: int)
    requires Flushing(col, i, yy, nInUse, syms, z)
    ensures i <= |col| && |syms| + z <= i && 1 <= nInUse <= 256 && |yy| == 256 && IsPerm(yy[..nInUse], nInUse)
  {
  }

  lemma InList(yy: seq<Byte>, n: int, v: Byte)
    requires 1 <= n <= |yy| && IsPerm(yy[..n], n) && v < n
    ensures v in yy[..n]
  {
    PermOnto(yy[..n], n, v);
  }

  lemma Halve(z: int, w: nat)
    requires z > 0
    ensures z * w == ((z - 1) % 2 + 1) * w + (z - 1) / 2 * (2 * w)
  {
    var q, d := (z - 1) / 2, (z - 1) % 2;
    assert z == 2 * q + d + 1;
    assert (2 * q + d + 1) * w == (d + 1) * w + q * (2 * w);
  }

  lemma FlushStep(col: seq<Byte>, i: int, yy: seq<Byte>, nInUse: int, syms: seq<int>, z: int)
    requires Flushing(col, i, yy, nInUse, syms, z) && z > 0
    ensures Flushing(col, i, yy, nInUse, syms + [(z - 1) % 2], (z - 1) / 2)
  {
    var d, m := (z - 1) % 2, Meaning(syms);
    MeaningAppend(syms, d);
    Halve(z, m.weight);
    assert m.list[0] == m.list[..nInUse][0] == yy[..nInUse][0] == yy[0];
    var a, b := (d + 1) * m.weight, (z - 1) / 2 * (2 * m.weight);
    NonNegative(d + 1, m.weight);
    NonNegative((z - 1) / 2, 2 * m.weight);
    hide Repeat, IsPerm;
    RepeatAdd(yy[0], a, b);
    assert m.column + Repeat(yy[0], a) + Repeat(yy[0], b) == m.column + Repeat(yy[0], a + b);
  }

  lemma NonNegative(x: int, y: int)
    requires x >= 0 && y >= 0
    ensures x * y >= 0
  {
  }

  /** With the run said, the next byte is fetched from entry j of the list. */
  lemma Fetch(col: seq<Byte>, i: int, yy: seq<Byte>, nInUse: int, syms: seq<int>, j: int)
    requires Flushing(col, i, yy, nInUse, syms, 0) && i < |col| && 1 <= j < nInUse && col[i] == yy[j]
    ensures Encoding(col, i + 1, MoveFront(yy, j), nInUse, syms + [j + 1], 0)
  {
    var m, yy' := Meaning(syms), MoveFront(yy, j);
    NoRepeat(yy[0], m.weight);
    NoRepeat(yy'[0], 1);
    assert m.column == col[..i];
    MeaningAppend(syms, j + 1);
    FetchList(m.list, yy, nInUse, j);
    hide IsPerm, Repeat, MoveFront, Meaning;
    assert col[..i + 1] == col[..i] + [yy[j]] == col[..i] + [yy[j]] + Repeat(yy'[0], 0);
  }

  lemma NoRepeat(c: Byte, w: nat)
    ensures 0 * w == 0 && Repeat(c, 0) == []
  {
  }

  /** The encoder's list and the reader's, both moved. */
  lemma FetchList(list: seq<Byte>, yy: seq<Byte>, n: int, j: int)
    requires |list| == |yy| == 256 && 0 <= j < n <= 256 && list[..n] == yy[..n] && IsPerm(yy[..n], n)
    ensures list[j] == yy[j] && MoveFront(list, j)[..n] == MoveFront(yy, j)[..n] && IsPerm(MoveFront(yy, j)[..n], n)
  {
    assert list[j] == list[..n][j] && yy[j] == yy[..n][j];
    hide IsPerm;
    assert MoveFront(list, j)[..n] == MoveFront(list[..n], j);
    assert MoveFront(yy, j)[..n] == MoveFront(yy[..n], j);
    MoveFrontRearranges(yy[..n], j);
    RearrangedPerm(yy[..n], MoveFront(yy[..n], j), n);
  }

  lemma MoveFrontRearranges(list: seq<int>, j: int)
    requires 0 <= j < |list|
    ensures multiset(MoveFront(list, j)) == multiset(list)
  {
    assert list == list[..j] + [list[j]] + list[j + 1..];
  }

  /** A column with every byte replaced by its number among the bytes in use. */
  function Renumbered(col: seq<Byte>, unseqToSeq: seq<Byte>): (r: seq<Byte>)
    requires |unseqToSeq| == 256
    ensures |r| == |col|
  {
    seq(|col|, k requires 0 <= k < |col| => unseqToSeq[col[k]])
  }

  /** The symbols of a whole column, before the end marker. */
  ghost predicate Encodes(syms: seq<int>, col: seq<Byte>, nInUse: int) {
    1 <= nInUse <= 256 && Symbols(syms, nInUse) && |syms| <= |col| && Meaning(syms).column == col
  }

  lemma EncodingDone(col: seq<Byte>, yy: seq<Byte>, nInUse: int, syms: seq<int>)
    requires Flushing(col, |col|, yy, nInUse, syms, 0)
    ensures Encodes(syms, col, nInUse)
  {
    assert Repeat(yy[0], 0 * Meaning(syms).weight) == [];
  }

  lemma SomeUsed(inUse: seq<bool>, c: Byte)
    requires |inUse| == 256 && inUse[c]
    ensures 1 <= Used(inUse, 256) <= 256
  {
    UsedRank(inUse, c, 256);
  }

  /** The column byte for row i, as the source fetches it. */
  lemma ColumnAt(block: seq<Byte>, order: seq<int>, unseqToSeq: seq<Byte>, inUse: seq<bool>, i: int)
    requires IsPerm(order, |block|) && 0 <= i < |block| && Numbers(inUse, unseqToSeq)
    requires forall k :: 0 <= k < |block| ==> inUse[block[k]]
    ensures 0 <= order[i] < |block|
    ensures var j := if order[i] - 1 < 0 then order[i] - 1 + |block| else order[i] - 1;
            Renumbered(BW.LastColumn(block, order), unseqToSeq)[i] == unseqToSeq[block[j]] < Used(inUse, 256)
  {
    var j := BW.Prev(order[i], |block|);
    UsedRank(inUse, block[j], 256);
  }

  /** The frequencies count the symbols written. */
  ghost predicate Counted(freq: seq<int>, syms: seq<int>, EOB: int) {
    0 <= EOB < |freq| && forall s :: 0 <= s <= EOB ==> freq[s] == multiset(syms)[s]
  }

  lemma CountMore(freq: seq<int>, syms: seq<int>, EOB: int, s: int)
    requires Counted(freq, syms, EOB) && 0 <= s <= EOB
    ensures Counted(freq[s := freq[s] + 1], syms + [s], EOB)
  {
  }

  class Encoder {
    const ptr: array<int>
    const block: array<Byte>
    const mtfv: array<int>
    const inUse: array<bool>
    const unseqToSeq: array<Byte>
    const mtfFreq: array<int>
    var nInUse: nat
    var nMTF: nat

    /** Sizes, as bzCompressInit allots them for a block of this length. */
    ghost predicate Shape() {
      ptr.Length == block.Length >= 1 && mtfv.Length == 2 * ptr.Length
      && inUse.Length == unseqToSeq.Length == 256 && mtfFreq.Length == 258
      && ptr != mtfv && ptr != mtfFreq && mtfv != mtfFreq && unseqToSeq != block
    }

    constructor (n: nat)
      requires n >= 1
      ensures Shape() && fresh(ptr) && fresh(block) && fresh(mtfv) && fresh(inUse) && fresh(unseqToSeq) && fresh(mtfFreq)
      ensures ptr.Length == n
    {
      ptr := new int[n](_ => 0);
      block := new Byte[n](_ => 0);
      mtfv := new int[2 * n](_ => 0);
      inUse := new bool[256](_ => false);
      unseqToSeq := new Byte[256](_ => 0);
      mtfFreq := new int[258](_ => 0);
      nInUse, nMTF := 0, 0;
      new;
    }

    /** The symbols written so far, counted. */
    ghost predicate Written(syms: seq<int>, EOB: int)
      reads mtfv, mtfFreq
    {
      Shape() && |syms| <= mtfv.Length && mtfv[..|syms|] == syms && Counted(mtfFreq[..], syms, EOB)
    }

    lemma WrittenRoom(syms: seq<int>, EOB: int)
      requires Written(syms, EOB)
      ensures ptr.Length >= 1 && mtfv.Length == 2 * ptr.Length && ptr != mtfv && ptr != mtfFreq && mtfv != mtfFreq
    {
    }

    /** mtfv shares its memory with ptr, two symbols to an entry: a store destroys the entry underneath. */
    method Put(sym: int, wr: nat, ghost syms: seq<int>, ghost EOB: int)
      requires Written(syms, EOB) && wr == |syms| < mtfv.Length && 0 <= sym <= EOB
      modifies mtfv, ptr, mtfFreq
      ensures Written(syms + [sym], EOB)
      ensures forall k :: wr < k < ptr.Length ==> ptr[k] == old(ptr[k])
      ensures wr > 0 && wr < ptr.Length ==> ptr[wr] == old(ptr[wr])
    {
      ghost var freq := mtfFreq[..];
      mtfv[wr] := sym;
      ptr[wr / 2] := *;
      mtfFreq[sym] := mtfFreq[sym] + 1;
      CountMore(freq, syms, EOB, sym);
      assert mtfFreq[..] == freq[sym := freq[sym] + 1];
      assert mtfv[..wr + 1] == syms + [sym];
    }

    /** Writes a pending run as RUNA and RUNB digits. */
    method EmitRun(wr0: nat, zPend0: nat, ghost syms0: seq<int>, ghost i: nat, ghost col: seq<Byte>, ghost yy: seq<Byte>, ghost n: int)
      returns (wr: nat, ghost syms: seq<int>)
      requires zPend0 > 0 && Encoding(col, i, yy, n, syms0, zPend0) && Written(syms0, n + 1) && wr0 == |syms0| && |col| == ptr.Length
      modifies mtfv, ptr, mtfFreq
      ensures Written(syms, n + 1) && wr == |syms| && Flushing(col, i, yy, n, syms, 0)
      ensures forall k :: i <= k < ptr.Length ==> ptr[k] == old(ptr[k])
    {
      wr, syms := wr0, syms0;
      hide *;
      FlushStart(col, i, yy, n, syms, zPend0);
      var zPend := zPend0 - 1;
      FlushRoom(col, i, yy, n, syms, zPend0);
      WrittenRoom(syms, n + 1);
      while true
        invariant 0 <= zPend && wr + zPend + 1 <= i && wr == |syms| && i < mtfv.Length
        invariant Flushing(col, i, yy, n, syms, zPend + 1) && Written(syms, n + 1)
        invariant forall k :: i <= k < ptr.Length ==> ptr[k] == old(ptr[k])
        decreases zPend
      {
        FlushStep(col, i, yy, n, syms, zPend + 1);
        var sym := if zPend % 2 == 1 then BZ_RUNB else BZ_RUNA;
        DigitIs(sym, zPend);
        Put(sym, wr, syms, n + 1);
        wr, syms := wr + 1, syms + [sym];
        if zPend < 2 { break; }
        zPend := (zPend - 2) / 2;
      }
    }

    /** Finds llI in the list, not at the front, moving the entries before it up on the way. */
    method FindAndMove(yy: array<Byte>, llI: Byte, ghost n: int) returns (j: nat)
      requires yy.Length == 256 && 1 <= n <= 256 && yy[0] != llI && llI in yy[..n]
      modifies yy
      ensures 1 <= j < n && old(yy[j]) == llI && yy[..] == MoveFront(old(yy[..]), j)
    {
      ghost var was := yy[..];
      ghost var at: int :| 0 <= at < n && was[at] == llI;
      var rtmp := yy[1];
      yy[1] := yy[0];
      j := 1;
      while llI != rtmp
        invariant 1 <= j <= at && rtmp == was[j]
        invariant yy[0] == was[0] && (forall x, y :: 1 <= x <= j && y == x - 1 ==> yy[x] == was[y]) && (forall x :: j < x < 256 ==> yy[x] == was[x])
        decreases at - j
      {
        j := j + 1;
        var rtmp2 := rtmp;
        rtmp := yy[j];
        yy[j] := rtmp2;
      }
      yy[0] := rtmp;
      ghost var moved := MoveFront(was, j);
      forall x | 0 <= x < 256 ensures yy[x] == moved[x] {
        MovedAt(was, j, x);
        if 1 <= x <= j { var y := x - 1; assert yy[x] == was[y]; }
      }
    }

    /** One byte of the column: lengthens the pending run, or writes it out and then fetches the byte. */
    method EncodeByte(llI: Byte, wr0: nat, zPend0: nat, yy: array<Byte>, ghost syms0: seq<int>, ghost i: nat, ghost col: seq<Byte>, ghost n: int)
      returns (wr: nat, zPend: nat, ghost syms: seq<int>)
      requires yy.Length == 256 && i < |col| == ptr.Length && llI == col[i] < n
      requires Encoding(col, i, yy[..], n, syms0, zPend0) && Written(syms0, n + 1) && wr0 == |syms0|
      modifies mtfv, ptr, mtfFreq, yy
      ensures Encoding(col, i + 1, yy[..], n, syms, zPend) && Written(syms, n + 1) && wr == |syms|
      ensures forall k :: i < k < ptr.Length ==> ptr[k] == old(ptr[k])
    {
      ghost var was := yy[..];
      assert Shape();
      hide *;
      wr, zPend, syms := wr0, zPend0, syms0;
      if yy[0] == llI {
        Pend(col, i, was, n, syms, zPend);
        zPend := zPend + 1;
      } else {
        FlushStart(col, i, was, n, syms, zPend);
        if zPend > 0 {
          wr, syms := EmitRun(wr, zPend, syms, i, col, was, n);
          zPend := 0;
        }
        assert zPend == 0;
        FlushRoom(col, i, was, n, syms, 0);
        InList(was, n, llI);
        var j := FindAndMove(yy, llI, n);
        Fetch(col, i, was, n, syms, j);
        Put(j + 1, wr, syms, n + 1);
        wr, syms := wr + 1, syms + [j + 1];
      }
    }

    /** The column's symbols and the end marker go to mtfv; order is the sort order ptr holds on entry. */
    method GenerateMTFValues(ghost order: seq<int>)
      requires Shape() && IsPerm(order, |block[..]|) && ptr[..] == order
      requires forall k :: 0 <= k < block.Length ==> inUse[block[k]]
      modifies this, unseqToSeq, ptr, mtfv, mtfFreq
      ensures nInUse == Used(inUse[..], 256) && Numbers(inUse[..], unseqToSeq[..])
      ensures 2 <= nMTF <= block.Length + 1 && nMTF <= mtfv.Length && mtfv[nMTF - 1] == nInUse + 1
      ensures Encodes(mtfv[..nMTF - 1], Renumbered(BW.LastColumn(block[..], order), unseqToSeq[..]), nInUse)
      ensures Counted(mtfFreq[..], mtfv[..nMTF], nInUse + 1)
    {
      nInUse := MakeMapsE(inUse, unseqToSeq);
      SomeUsed(inUse[..], block[0]);
      ghost var col := Renumbered(BW.LastColumn(block[..], order), unseqToSeq[..]);
      ghost var syms := EncodeColumn(order, col);
      assert mtfv[..nMTF][..nMTF - 1] == mtfv[..nMTF - 1];
    }

    method EncodeColumn(ghost order: seq<int>, ghost col: seq<Byte>) returns (ghost syms: seq<int>)
      requires Shape() && IsPerm(order, |block[..]|) && ptr[..] == order && 1 <= nInUse <= 256
      requires forall k :: 0 <= k < block.Length ==> inUse[block[k]]
      requires nInUse == Used(inUse[..], 256) && Numbers(inUse[..], unseqToSeq[..])
      requires col == Renumbered(BW.LastColumn(block[..], order), unseqToSeq[..])
      modifies this`nMTF, ptr, mtfv, mtfFreq
      ensures Encodes(syms, col, nInUse) && Written(syms + [nInUse + 1], nInUse + 1) && nMTF == |syms| + 1
    {
      var EOB, nblock := nInUse + 1, block.Length;
      ghost var b, unseq, used := block[..], unseqToSeq[..], inUse[..];
      ClearFrequencies(EOB);
      var yy := new Byte[256](_ => 0);
      FirstList(yy, nInUse);
      var wr, zPend, i := 0, 0, 0;
      syms := [];
      EncodingStart(col, yy[..], nInUse);
      assert |col| == nblock == ptr.Length && mtfv.Length == 2 * nblock && |b| == nblock >= 1 && unseqToSeq.Length == 256;
      assert forall k :: 0 <= k < |b| ==> used[b[k]];
      hide *;
      while i < nblock
        invariant 0 <= i <= nblock && wr == |syms| && Written(syms, EOB)
        invariant Encoding(col, i, yy[..], nInUse, syms, zPend)
        invariant forall k :: i <= k < nblock ==> ptr[k] == order[k]
        modifies ptr, mtfv, mtfFreq, yy
      {
        ColumnAt(b, order, unseq, used, i);
        var j := ptr[i] - 1;
        if j < 0 { j := j + nblock; }
        var llI := unseqToSeq[block[j]];
        wr, zPend, syms := EncodeByte(llI, wr, zPend, yy, syms, i, col, nInUse);
        i := i + 1;
      }
      syms := FinishColumn(wr, zPend, syms, col, yy[..]);
    }

    /** The last run and the end marker. */
    method FinishColumn(wr0: nat, zPend: nat, ghost syms0: seq<int>, ghost col: seq<Byte>, ghost yy: seq<Byte>) returns (ghost syms: seq<int>)
      requires Encoding(col, |col|, yy, nInUse, syms0, zPend) && Written(syms0, nInUse + 1) && wr0 == |syms0| && |col| == ptr.Length
      modifies this`nMTF, ptr, mtfv, mtfFreq
      ensures Encodes(syms, col, nInUse) && Written(syms + [nInUse + 1], nInUse + 1) && nMTF == |syms| + 1
    {
      var EOB, wr := nInUse + 1, wr0;
      syms := syms0;
      hide *;
      WrittenRoom(syms, nInUse + 1);
      FlushStart(col, |col|, yy, nInUse, syms, zPend);
      if zPend > 0 { wr, syms := EmitRun(wr, zPend, syms, |col|, col, yy, nInUse); }
      EncodingDone(col, yy, nInUse, syms);
      FlushRoom(col, |col|, yy, nInUse, syms, 0);
      Put(EOB, wr, syms, EOB);
      wr := wr + 1;
      nMTF := wr;
    }

    method ClearFrequencies(EOB: nat)
      requires Shape() && EOB <= 257
      modifies mtfFreq
      ensures Written([], EOB)
    {
      var i := 0;
      while i <= EOB
        invariant 0 <= i <= EOB + 1 && forall s :: 0 <= s < i ==> mtfFreq[s] == 0
      {
        mtfFreq[i] := 0;
        i := i + 1;
      }
      assert mtfv[..0] == [];
    }

    method FirstList(yy: array<Byte>, n: nat)
      requires yy.Length == 256 && n <= 256
      modifies yy
      ensures forall k :: 0 <= k < n ==> yy[k] == k
    {
      var i := 0;
      while i < n
        invariant 0 <= i <= n && forall k :: 0 <= k < i ==> yy[k] == k
      {
        yy[i] := i;
        i := i + 1;
      }
    }
  }
}
