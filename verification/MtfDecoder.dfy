/** The symbol half of BZ2_decompress: run digits and list fetches turned back into the last column and its byte counts. */
module MtfDecoder {
  import opened Common
  import opened Counting
  import opened RunLength
  import opened MtfTable
  import opened MtfCoding

  /** Done: the end marker was met. DataError: the symbols ask for too much. Starved: more input is needed. */
  datatype Outcome = Done | DataError | Starved

  /** The symbols up to the end marker. */
  function Before(syms: seq<int>, EOB: int): (b: seq<int>)
    ensures |b| <= |syms| && (Symbols(syms, EOB) ==> Symbols(b, EOB - 1))
  {
    if syms == [] || syms[0] == EOB then [] else [syms[0]] + Before(syms[1..], EOB)
  }

  lemma {:induction false} BeforeIs(syms: seq<int>, EOB: int, p: int)
    requires 0 <= p <= |syms| && EOB !in syms[..p] && (p < |syms| ==> syms[p] == EOB)
    ensures Before(syms, EOB) == syms[..p]
  {
    if p > 0 {
      assert syms[0] == syms[..p][0] && syms[1..][..p - 1] == syms[1..p];
      assert forall k :: 1 <= k < p ==> syms[k] == syms[..p][k];
      BeforeIs(syms[1..], EOB, p - 1);
      assert syms[..p] == [syms[0]] + syms[1..p];
    }
  }

  /** p symbols lie before any end marker. */
  ghost predicate Prefix(syms: seq<int>, EOB: int, p: int) {
    2 <= EOB <= 257 && Symbols(syms, EOB) && 0 <= p <= |syms| && forall k :: 0 <= k < p ==> syms[k] != EOB
  }

  /** What the column says at symbol p, whichever way the symbols go on, is part of the final column. */
  lemma TooLong(syms: seq<int>, EOB: int, p: int, limit: int)
    requires Prefix(syms, EOB, p) && |Meaning(syms[..p]).column| > limit
    ensures |Meaning(Before(syms, EOB)).column| > limit
  {
    var q := FirstEnd(syms, EOB, p);
    BeforeIs(syms, EOB, q);
    var b := syms[..q];
    ColumnGrows(b, p, q);
    assert b[..p] == syms[..p] && b[..q] == b;
  }

  lemma {:induction false} FirstEnd(syms: seq<int>, EOB: int, p: int) returns (q: int)
    requires Prefix(syms, EOB, p)
    ensures p <= q && Prefix(syms, EOB, q) && (q < |syms| ==> syms[q] == EOB)
    decreases |syms| - p
  {
    if p == |syms| || syms[p] == EOB { q := p; } else { q := FirstEnd(syms, EOB, p + 1); }
  }

  /** Symbols before p read: list, column out, and a weight of 1 unless a run was just read. */
  ghost predicate Settled(syms: seq<int>, EOB: int, p: int, list: seq<Byte>, out: seq<Byte>) {
    Prefix(syms, EOB, p) && p < |syms|
    && var m := Meaning(syms[..p]); m.list == list && m.column == out && (syms[p] <= BZ_RUNB ==> m.weight == 1)
  }

  /** In a run before digit p: es + 1 copies of the front entry, the next digit weighing N. */
  ghost predicate InRun(syms: seq<int>, EOB: int, p: int, list: seq<Byte>, out: seq<Byte>, es: int, N: nat) {
    Prefix(syms, EOB, p) && -1 <= es
    && var m := Meaning(syms[..p]); m.list == list && |list| == 256 && m.column == out + Repeat(list[0], es + 1) && m.weight == N >= 1
  }

  lemma RunStart(syms: seq<int>, EOB: int, p: int, list: seq<Byte>, out: seq<Byte>)
    requires Settled(syms, EOB, p, list, out) && syms[p] <= BZ_RUNB
    ensures InRun(syms, EOB, p, list, out, -1, 1)
  {
    assert out + Repeat(list[0], 0) == out;
  }

  lemma TakeOne(syms: seq<int>, EOB: int, p: int)
    requires Prefix(syms, EOB, p) && p < |syms| && syms[p] != EOB
    ensures Prefix(syms, EOB, p + 1) && Meaning(syms[..p + 1]) == Step(Meaning(syms[..p]), syms[p])
  {
    assert syms[..p + 1] == syms[..p] + [syms[p]];
    MeaningAppend(syms[..p], syms[p]);
  }

  lemma RunDigit(syms: seq<int>, EOB: int, p: int, list: seq<Byte>, out: seq<Byte>, es: int, N: nat)
    requires InRun(syms, EOB, p, list, out, es, N) && p < |syms| && syms[p] <= BZ_RUNB
    ensures InRun(syms, EOB, p + 1, list, out, es + (syms[p] + 1) * N, N * 2)
  {
    TakeOne(syms, EOB, p);
    var c, d := list[0], (syms[p] + 1) * N;
    assert d >= 0;
    RepeatAdd(c, es + 1, d);
    assert out + Repeat(c, es + 1) + Repeat(c, d) == out + Repeat(c, es + 1 + d);
  }

  /** The guard on N can only stop symbols whose column is too long anyway. */
  lemma HeavyIsLong(syms: seq<int>, EOB: int, p: int, list: seq<Byte>, out: seq<Byte>, es: int, N: nat, limit: int)
    requires InRun(syms, EOB, p, list, out, es, N) && N >= 2 * 1024 * 1024 && limit <= 900000
    ensures |Meaning(Before(syms, EOB)).column| > limit
  {
    WeightBound(syms[..p]);
    TooLong(syms, EOB, p, limit);
  }

  lemma RunEnd(syms: seq<int>, EOB: int, p: int, list: seq<Byte>, out: seq<Byte>, es: int, N: nat, limit: int)
    requires InRun(syms, EOB, p, list, out, es, N) && p < |syms| && syms[p] > BZ_RUNB
    ensures Settled(syms, EOB, p, list, out + Repeat(list[0], es + 1))
    ensures |out| + es + 1 > limit ==> |Meaning(Before(syms, EOB)).column| > limit
  {
    if |out| + es + 1 > limit { TooLong(syms, EOB, p, limit); }
  }

  lemma FetchRead(syms: seq<int>, EOB: int, p: int, list: seq<Byte>, out: seq<Byte>, limit: int)
    requires Settled(syms, EOB, p, list, out) && BZ_RUNB < syms[p] && syms[p] != EOB
    ensures |list| == 256 && 1 <= syms[p] - 1 < 256 && Prefix(syms, EOB, p + 1)
    ensures p + 1 < |syms| ==> Settled(syms, EOB, p + 1, MoveFront(list, syms[p] - 1), out + [list[syms[p] - 1]])
    ensures |out| + 1 > limit ==> |Meaning(Before(syms, EOB)).column| > limit
  {
    TakeOne(syms, EOB, p);
    if |out| + 1 > limit { TooLong(syms, EOB, p + 1, limit); }
  }

  /** All input used up without an end marker. */
  lemma NoEnd(syms: seq<int>, EOB: int)
    requires Prefix(syms, EOB, |syms|)
    ensures EOB !in syms
  {
  }

  lemma Finished(syms: seq<int>, EOB: int, p: int, list: seq<Byte>, out: seq<Byte>)
    requires Settled(syms, EOB, p, list, out) && syms[p] == EOB
    ensures EOB in syms && Meaning(Before(syms, EOB)).column == out
  {
    BeforeIs(syms, EOB, p);
  }

  // ---- the vector and the counts ----

  /** The stored entries are the column's bytes, and unzftab counts them. */
  ghost predicate Stored(vec: seq<int>, unzftab: seq<int>, unseq: seq<Byte>, out: seq<Byte>) {
    |vec| == |out| && |unseq| == |unzftab| == 256 && (forall k :: 0 <= k < |out| ==> vec[k] == unseq[out[k]])
    && forall c :: 0 <= c < 256 ==> unzftab[c] == Count(vec, c)
  }

  lemma {:induction false} CountRepeat(c: Byte, n: nat, d: int)
    ensures Count(Repeat(c, n), d) == if c == d then n else 0
  {
    if n > 0 {
      CountRepeat(c, n - 1, d);
      BelowStep(Repeat(c, n), n - 1, d);
      assert Repeat(c, n)[..n - 1] == Repeat(c, n - 1) && Repeat(c, n)[..n] == Repeat(c, n);
    }
  }

  lemma StoreMore(vec: seq<int>, unzftab: seq<int>, unseq: seq<Byte>, out: seq<Byte>, e: Byte, n: nat)
    requires Stored(vec, unzftab, unseq, out)
    ensures Stored(vec + Repeat(unseq[e], n), unzftab[unseq[e] := unzftab[unseq[e]] + n], unseq, out + Repeat(e, n))
  {
    var c := unseq[e];
    forall d | 0 <= d < 256 ensures unzftab[c := unzftab[c] + n][d] == Count(vec + Repeat(c, n), d) {
      BelowConcat(vec, Repeat(c, n), d);
      BelowConcat(vec, Repeat(c, n), d + 1);
      CountRepeat(c, n, d);
    }
  }

  class Receiver {
    const table: Table
    const seqToUnseq: array<Byte>
    const unzftab: array<int>
    /** tt, or ll16 in the low-memory form. */
    const vector: array<int>
    var nblock: nat

    ghost predicate Shape()
      reads this
    {
      seqToUnseq.Length == 256 && unzftab.Length == 256 && nblock <= vector.Length && unzftab != vector
      && table.mtfbase != unzftab && table.mtfbase != vector && seqToUnseq != table.mtfa
    }

    ghost predicate Valid(list: seq<Byte>, out: seq<Byte>)
      reads this, seqToUnseq, unzftab, vector, table.mtfa, table.mtfbase
    {
      Shape() && table.Valid(list) && |out| == nblock && Stored(vector[..nblock], unzftab[..], seqToUnseq[..], out)
    }

    constructor (capacity: nat)
      ensures Shape() && vector.Length == capacity && nblock == 0
      ensures table.mtfa.Length == MTFA_SIZE && table.mtfbase.Length == 16
      ensures fresh(table.mtfa) && fresh(table.mtfbase) && fresh(seqToUnseq) && fresh(unzftab) && fresh(vector)
    {
      var t := new Table();
      table := t;
      seqToUnseq := new Byte[256](_ => 0);
      unzftab := new int[256](_ => 0);
      vector := new int[capacity](_ => 0);
      nblock := 0;
    }

    /** Reads run digits from position p on. The run's length stays far below 2^31. */
    method ReadRun(syms: seq<int>, p0: nat, ghost EOB: int, ghost list: seq<Byte>, ghost out: seq<Byte>, ghost limit: int)
      returns (r: Outcome, es: int, p: nat, ghost N: nat)
      requires p0 < |syms| && syms[p0] <= BZ_RUNB && Settled(syms, EOB, p0, list, out) && |out| <= limit <= 900000
      ensures r.Done? ==> p < |syms| && syms[p] > BZ_RUNB && InRun(syms, EOB, p, list, out, es - 1, N) && 0 < es < 0x80_0000 && p0 < p
      ensures r.DataError? ==> |Meaning(Before(syms, EOB)).column| > limit
      ensures r.Starved? ==> EOB !in syms
    {
      RunStart(syms, EOB, p0, list, out);
      hide Meaning, Before, Settled;
      p, es := p0, -1;
      var n: nat := 1;
      while true
        invariant p0 <= p < |syms| && syms[p] <= BZ_RUNB && InRun(syms, EOB, p, list, out, es, n)
        invariant -1 <= es <= 2 * n - 3 && n <= 0x40_0000
        decreases |syms| - p
      {
        N := n;
        if n >= 2 * 1024 * 1024 {
          HeavyIsLong(syms, EOB, p, list, out, es, n, limit);
          r := DataError;
          return;
        }
        RunDigit(syms, EOB, p, list, out, es, n);
        if syms[p] == BZ_RUNA { es := es + (0 + 1) * n; }
        else if syms[p] == BZ_RUNB { es := es + (1 + 1) * n; }
        n := n * 2;
        N := n;
        p := p + 1;
        if p == |syms| {
          NoEnd(syms, EOB);
          r := Starved;
          return;
        }
        if !(syms[p] == BZ_RUNA || syms[p] == BZ_RUNB) { break; }
      }
      es := es + 1;
      r := Done;
    }

    /** Stores es copies of uc, as far as there is room. */
    method StoreRun(uc: Byte, es0: int, nblockMAX: nat) returns (ok: bool)
      requires nblock <= nblockMAX <= vector.Length && es0 >= 0
      modifies this`nblock, vector
      ensures ok <==> old(nblock) + es0 <= nblockMAX
      ensures nblock <= nblockMAX
      ensures ok ==> nblock == old(nblock) + es0 && vector[..nblock] == old(vector[..nblock]) + Repeat(uc, es0)
    {
      var es := es0;
      ghost var n := nblock;
      while es > 0
        invariant 0 <= es <= es0 && nblock == n + es0 - es <= nblockMAX
        invariant vector[..nblock] == old(vector[..nblock]) + Repeat(uc, es0 - es)
      {
        if nblock >= nblockMAX { return false; }
        ghost var was := vector[..nblock];
        vector[nblock] := uc;
        assert vector[..nblock + 1] == was + [uc];
        assert was + [uc] == old(vector[..nblock]) + Repeat(uc, es0 - es + 1);
        nblock := nblock + 1;
        es := es - 1;
      }
      return true;
    }

    /** A run: digits, then that many copies of the front entry's byte. */
    method TakeRun(syms: seq<int>, p0: nat, nblockMAX: nat, ghost EOB: int, ghost list: seq<Byte>, ghost out: seq<Byte>)
      returns (r: Outcome, p: nat, ghost out': seq<Byte>)
      requires Valid(list, out) && p0 < |syms| && syms[p0] <= BZ_RUNB && Settled(syms, EOB, p0, list, out) && nblock <= nblockMAX <= 900000
      requires nblockMAX <= vector.Length
      modifies this`nblock, unzftab, vector
      ensures r.Done? ==> Valid(list, out') && nblock <= nblockMAX && p0 < p < |syms| && syms[p] > BZ_RUNB && Settled(syms, EOB, p, list, out')
      ensures r.DataError? ==> |Meaning(Before(syms, EOB)).column| > nblockMAX
      ensures r.Starved? ==> EOB !in syms
    {
      hide Meaning, Before, Settled, InRun, Prefix, Stored, Symbols;
      ghost var N;
      var es;
      out' := out;
      r, es, p, N := ReadRun(syms, p0, EOB, list, out, nblockMAX);
      if !r.Done? { return; }
      var e := table.Front(list);
      var uc := seqToUnseq[e];
      RunEnd(syms, EOB, p, list, out, es - 1, N, nblockMAX);
      StoreMore(vector[..nblock], unzftab[..], seqToUnseq[..], out, e, es);
      ghost var counts := unzftab[..];
      unzftab[uc] := unzftab[uc] + es;
      assert unzftab[..] == counts[uc := counts[uc] + es];
      var ok := StoreRun(uc, es, nblockMAX);
      if !ok { r := DataError; return; }
      out' := out + Repeat(e, es);
    }

    /** A fetch: one byte from the list, moved to its front. */
    method TakeFetch(nextSym: int, nblockMAX: nat, ghost syms: seq<int>, ghost p: nat, ghost EOB: int, ghost list: seq<Byte>, ghost out: seq<Byte>)
      returns (r: Outcome)
      requires Valid(list, out) && p < |syms| && nextSym == syms[p] && BZ_RUNB < nextSym != EOB && Settled(syms, EOB, p, list, out)
      requires nblock <= nblockMAX <= vector.Length
      modifies this`nblock, unzftab, vector, table.mtfa, table.mtfbase
      ensures r.Done? || r.DataError?
      ensures r.Done? ==> |list| == 256 && 1 <= nextSym - 1 < 256 && nblock <= nblockMAX
      ensures r.Done? ==> Valid(MoveFront(list, nextSym - 1), out + [list[nextSym - 1]])
      ensures r.DataError? ==> |Meaning(Before(syms, EOB)).column| > nblockMAX
    {
      FetchRead(syms, EOB, p, list, out, nblockMAX);
      hide Meaning, Before, Settled, Prefix, Stored, Symbols, MoveFront;
      if nblock >= nblockMAX { return DataError; }
      ghost var vec, counts := vector[..nblock], unzftab[..];
      var uc := table.ToFront(nextSym - 1, list);
      StoreMore(vec, counts, seqToUnseq[..], out, uc, 1);
      unzftab[seqToUnseq[uc]] := unzftab[seqToUnseq[uc]] + 1;
      assert unzftab[..] == counts[seqToUnseq[uc] := counts[seqToUnseq[uc]] + 1];
      vector[nblock] := seqToUnseq[uc];
      assert vector[..nblock + 1] == vec + Repeat(seqToUnseq[uc], 1);
      nblock := nblock + 1;
      assert out + Repeat(uc, 1) == out + [uc];
      return Done;
    }

    /** Reads symbols to the end marker. The column fits or the data are refused; what is stored is what they mean. */
    method ReadColumn(syms: seq<int>, nInUse: nat, blockSize100k: nat) returns (r: Outcome)
      requires Shape() && table.mtfa.Length == MTFA_SIZE && table.mtfbase.Length == 16
      requires 1 <= nInUse <= 256 && Symbols(syms, nInUse + 1) && blockSize100k <= 9 && 100000 * blockSize100k <= vector.Length
      modifies this`nblock, unzftab, vector, table.mtfa, table.mtfbase
      ensures var column := Meaning(Before(syms, nInUse + 1)).column;
              && (r.Done? <==> nInUse + 1 in syms && |column| <= 100000 * blockSize100k)
              && (r.Starved? ==> nInUse + 1 !in syms)
              && (r.Done? ==> nblock == |column| && Stored(vector[..nblock], unzftab[..], seqToUnseq[..], column))
    {
      var EOB := nInUse + 1;
      var nblockMAX := 100000 * blockSize100k;
      Clear();
      table.Init();
      nblock := 0;
      ghost var list, out: seq<Byte> := Identity(), [];
      assert Valid(list, out) by { assert vector[..0] == []; }
      var p := 0;
      if p == |syms| { return Starved; }
      assert Settled(syms, EOB, p, list, out) by { assert syms[..0] == []; }
      while syms[p] != EOB
        invariant 0 <= p < |syms| && Valid(list, out) && nblock <= nblockMAX && Settled(syms, EOB, p, list, out)
        decreases |syms| - p
      {
        hide Meaning, Before, Stored, MoveFront;
        if syms[p] == BZ_RUNA || syms[p] == BZ_RUNB {
          r, p, out := TakeRun(syms, p, nblockMAX, EOB, list, out);
          if !r.Done? { return; }
        } else {
          r := TakeFetch(syms[p], nblockMAX, syms, p, EOB, list, out);
          if !r.Done? { return; }
          FetchRead(syms, EOB, p, list, out, nblockMAX);
          list, out := MoveFront(list, syms[p] - 1), out + [list[syms[p] - 1]];
          p := p + 1;
          if p == |syms| { NoEnd(syms, EOB); return Starved; }
        }
      }
      Finished(syms, EOB, p, list, out);
      return Done;
    }

    method Clear()
      requires unzftab.Length == 256
      modifies unzftab
      ensures forall c :: 0 <= c < 256 ==> unzftab[c] == 0
    {
      var i := 0;
      while i <= 255
        invariant 0 <= i <= 256 && forall c :: 0 <= c < i ==> unzftab[c] == 0
      {
        unzftab[i] := 0;
        i := i + 1;
      }
    }
  }
}
