/** The decoder's move-to-front list: 256 entries kept as sixteen chunks of sixteen that slide down a 4096-cell array. */
module MtfTable {
  import opened Common

  const MTFA_SIZE := 4096
  const MTFL_SIZE := 16
  /** Where the chunks start after Init and after every rebuild. */
  const TOP := MTFA_SIZE - 256

  /** list with entry r taken out and put in front. */
  function MoveFront<T>(list: seq<T>, r: int): (moved: seq<T>)
    requires 0 <= r < |list|
    ensures |moved| == |list|
  {
    [list[r]] + list[..r] + list[r + 1..]
  }

  lemma MovedAt<T>(list: seq<T>, r: int, k: int)
    requires 0 <= r < |list| && 0 <= k < |list|
    ensures MoveFront(list, r)[k] == if k == 0 then list[r] else if k <= r then list[k - 1] else list[k]
  {
  }

  function Identity(): (id: seq<Byte>)
    ensures |id| == 256 && forall i :: 0 <= i < 256 ==> id[i] == i
  {
    seq(256, i requires 0 <= i < 256 => i as Byte)
  }

  /** Entries from .. to-1 of chunk i of the list stand in the cells from b on. */
  ghost predicate Chunk(mtfa: seq<Byte>, b: int, list: seq<Byte>, i: int, from: int, to: int) {
    |mtfa| == MTFA_SIZE && |list| == 256 && 0 <= i < 16 && 0 <= from && to <= 16 && -1 <= b
    && b + MTFL_SIZE <= MTFA_SIZE && (from == 0 ==> 0 <= b)
    && forall x :: b + from <= x < b + to ==> mtfa[x] == list[16 * i + x - b]
  }

  /** Chunks lie in order, without overlap, inside the array. */
  ghost predicate Chunked(base: seq<int>) {
    |base| == 16 && 0 <= base[0] && base[15] + MTFL_SIZE <= MTFA_SIZE
    && forall i, j :: 0 <= i < j < 16 ==> base[i] + MTFL_SIZE <= base[j]
  }

  /** The array and its bases hold the list. */
  ghost predicate Holds(mtfa: seq<Byte>, base: seq<int>, list: seq<Byte>) {
    |mtfa| == MTFA_SIZE && |list| == 256 && Chunked(base)
    && forall i :: 0 <= i < 16 ==> Chunk(mtfa, base[i], list, i, 0, 16)
  }

  lemma ChunkAt(mtfa: seq<Byte>, b: int, list: seq<Byte>, i: int, from: int, to: int, j: int)
    requires Chunk(mtfa, b, list, i, from, to) && from <= j < to
    ensures 0 <= b + j < MTFA_SIZE && mtfa[b + j] == list[16 * i + j]
  {
  }

  /** A store outside a chunk leaves it. */
  lemma ChunkKept(mtfa: seq<Byte>, x: int, v: Byte, b: int, list: seq<Byte>, i: int, from: int, to: int)
    requires Chunk(mtfa, b, list, i, from, to) && 0 <= x < MTFA_SIZE && !(b + from <= x < b + to)
    ensures Chunk(mtfa[x := v], b, list, i, from, to)
  {
  }

  // ---- moving within the first chunk ----

  /** Cells above p down from z have moved up by one. */
  ghost predicate Shifted(was: seq<Byte>, now: seq<Byte>, p: int, z: int) {
    |was| == |now| == MTFA_SIZE && 0 <= p && z < MTFA_SIZE
    && (forall x, y :: p < x <= z && y == x - 1 ==> now[x] == was[y])
    && (forall x :: 0 <= x < MTFA_SIZE && !(p < x <= z) ==> now[x] == was[x])
  }

  lemma ShiftStep(was: seq<Byte>, now: seq<Byte>, p: int, z: int)
    requires Shifted(was, now, p, z) && 0 < p <= z
    ensures Shifted(was, now[p := now[p - 1]], p - 1, z)
  {
    assert now[p - 1] == was[p - 1];
  }

  lemma FirstChunkMoved(was: seq<Byte>, now: seq<Byte>, base: seq<int>, list: seq<Byte>, nn: int)
    requires Holds(was, base, list) && 0 <= nn < 16 && Shifted(was, now, base[0], base[0] + nn)
    ensures list[nn] == was[base[0] + nn] && Holds(now[base[0] := list[nn]], base, MoveFront(list, nn))
  {
    var after := now[base[0] := list[nn]];
    ChunkAt(was, base[0], list, 0, 0, 16, nn);
    var moved := MoveFront(list, nn);
    forall i | 0 <= i < 16 ensures Chunk(after, base[i], moved, i, 0, 16) {
      assert Chunk(was, base[i], list, i, 0, 16);
      if i > 0 { assert base[0] + 16 <= base[i]; }
      forall x | base[i] <= x < base[i] + 16 ensures after[x] == moved[16 * i + x - base[i]] {
        MovedAt(list, nn, 16 * i + x - base[i]);
        if i == 0 && base[0] < x <= base[0] + nn { var y := x - 1; assert now[x] == was[y] == list[x - 1 - base[0]]; }
      }
    }
  }

  // ---- moving across chunks ----

  /** Bases once an entry of chunk k has gone to the front: the chunks before k slide down by one cell. */
  function Slid(base: seq<int>, k: int): seq<int>
    requires |base| == 16
  {
    seq(16, i requires 0 <= i < 16 => if i < k then base[i] - 1 else base[i])
  }

  /** Chunks after l are final, chunk l lacks its first entry, chunks before l are as they were. */
  ghost predicate Sliding(mtfa: seq<Byte>, bases: seq<int>, base: seq<int>, list: seq<Byte>, moved: seq<Byte>, k: int, l: int) {
    |bases| == 16 && Chunked(base) && base[0] > 0 && |list| == |moved| == 256 && |mtfa| == MTFA_SIZE && 0 <= l <= k < 16
    && (forall i :: l < i < 16 ==> bases[i] == Slid(base, k)[i] && Chunk(mtfa, bases[i], moved, i, 0, 16))
    && bases[l] == Slid(base, k)[l] + 1 && Chunk(mtfa, bases[l] - 1, moved, l, 1, 16)
    && (forall i :: 0 <= i < l ==> bases[i] == base[i] && Chunk(mtfa, base[i], list, i, 0, 16))
  }

  lemma SlideStart(was: seq<Byte>, now: seq<Byte>, base: seq<int>, list: seq<Byte>, k: int, off: int)
    requires Holds(was, base, list) && base[0] > 0 && 0 < k < 16 && 0 <= off < 16 && Shifted(was, now, base[k], base[k] + off)
    ensures list[16 * k + off] == was[base[k] + off]
    ensures Sliding(now, base[k := base[k] + 1], base, list, MoveFront(list, 16 * k + off), k, k)
  {
    var r := 16 * k + off;
    var moved := MoveFront(list, r);
    ChunkAt(was, base[k], list, k, 0, 16, off);
    forall x | base[k] + 1 <= x < base[k] + 16 ensures now[x] == moved[16 * k + x - base[k]] {
      MovedAt(list, r, 16 * k + x - base[k]);
      if x <= base[k] + off { var y := x - 1; assert now[x] == was[y] == list[16 * k + x - 1 - base[k]]; }
    }
    assert forall i :: k < i < 16 ==> base[k] + 16 <= base[i];
    forall i | 0 <= i < 16 && i != k ensures Chunk(now, base[i], if i < k then list else moved, i, 0, 16) {
      assert Chunk(was, base[i], list, i, 0, 16);
      assert i < k ==> base[i] + 16 <= base[k];
      forall x | base[i] <= x < base[i] + 16 ensures now[x] == (if i < k then list else moved)[16 * i + x - base[i]] {
        MovedAt(list, r, 16 * i + x - base[i]);
      }
    }
  }

  /** The last cell a chunk was missing. */
  lemma FirstFilled(mtfa: seq<Byte>, b: int, list: seq<Byte>, i: int)
    requires Chunk(mtfa, b, list, i, 1, 16) && 0 <= b
    ensures Chunk(mtfa[b := list[16 * i]], b, list, i, 0, 16)
  {
  }

  /** A chunk wholly before the moved entry, seen one cell lower, holds the new list but for its first entry. */
  lemma ChunkSlid(mtfa: seq<Byte>, b: int, list: seq<Byte>, r: int, i: int)
    requires Chunk(mtfa, b + 1, list, i, 0, 16) && -1 <= b && 16 * i + 15 <= r < 256
    ensures Chunk(mtfa, b, MoveFront(list, r), i, 1, 16)
  {
    forall x | b + 1 <= x < b + 16 ensures mtfa[x] == MoveFront(list, r)[16 * i + x - b] {
      MovedAt(list, r, 16 * i + x - b);
    }
  }

  lemma SlideStep(mtfa: seq<Byte>, bases: seq<int>, base: seq<int>, list: seq<Byte>, r: int, k: int, l: int)
    requires 0 <= r < 256 && |list| == 256 && r / 16 == k && 0 < l
    requires Sliding(mtfa, bases, base, list, MoveFront(list, r), k, l)
    ensures 0 < bases[l] <= MTFA_SIZE && 0 <= bases[l - 1] < MTFA_SIZE - 15
    ensures Sliding(mtfa[bases[l] - 1 := mtfa[bases[l - 1] + 15]], bases[l := bases[l] - 1], base, list, MoveFront(list, r), k, l - 1)
  {
    var moved := MoveFront(list, r);
    var x, v := bases[l] - 1, mtfa[bases[l - 1] + 15];
    ChunkAt(mtfa, base[l - 1], list, l - 1, 0, 16, 15);
    assert base[l - 1] + 16 <= base[l];
    MovedAt(list, r, 16 * l);
    FirstFilled(mtfa, x, moved, l);
    ChunkSlid(mtfa, base[l - 1] - 1, list, r, l - 1);
    hide Chunk, MoveFront;
    ChunkKept(mtfa, x, v, base[l - 1] - 1, moved, l - 1, 1, 16);
    forall i | l < i < 16 ensures Chunk(mtfa[x := v], bases[i], moved, i, 0, 16) {
      assert base[l] + 16 <= base[i];
      ChunkKept(mtfa, x, v, bases[i], moved, i, 0, 16);
    }
    forall i | 0 <= i < l - 1 ensures Chunk(mtfa[x := v], base[i], list, i, 0, 16) {
      assert base[i] + 16 <= base[l - 1];
      ChunkKept(mtfa, x, v, base[i], list, i, 0, 16);
    }
  }

  lemma SlideDone(mtfa: seq<Byte>, bases: seq<int>, base: seq<int>, list: seq<Byte>, r: int, k: int)
    requires 0 <= r < 256 && |list| == 256
    requires Sliding(mtfa, bases, base, list, MoveFront(list, r), k, 0)
    ensures 0 < bases[0] <= MTFA_SIZE
    ensures Holds(mtfa[bases[0] - 1 := list[r]], bases[0 := bases[0] - 1], MoveFront(list, r))
  {
    var moved := MoveFront(list, r);
    var x := bases[0] - 1;
    var after, bases' := mtfa[x := list[r]], bases[0 := x];
    MovedAt(list, r, 0);
    assert Chunk(after, x, moved, 0, 0, 16);
    forall i | 0 < i < 16 ensures Chunk(after, bases'[i], moved, i, 0, 16) {
      assert base[0] + 16 <= base[i];
      ChunkKept(mtfa, x, list[r], bases[i], moved, i, 0, 16);
    }
    forall i, j | 0 <= i < j < 16 ensures bases'[i] + 16 <= bases'[j] { assert base[i] + 16 <= base[j]; }
    assert base[0] + 16 <= base[15];
  }

  // ---- rebuilding at the top ----

  /** Chunks after i stand at the top, chunk i is there from entry j + 1 on; the rest is still where base says. */
  ghost predicate Lifting(mtfa: seq<Byte>, bases: seq<int>, base: seq<int>, list: seq<Byte>, i: int, j: int) {
    |bases| == 16 && |mtfa| == MTFA_SIZE && |list| == 256 && Chunked(base) && -1 <= i < 16 && -1 <= j < 16
    && (forall m :: i < m < 16 ==> bases[m] == TOP + 16 * m && Chunk(mtfa, bases[m], list, m, 0, 16))
    && (forall m :: 0 <= m <= i ==> bases[m] == base[m])
    && (forall m :: 0 <= m < i ==> Chunk(mtfa, base[m], list, m, 0, 16))
    && (0 <= i ==> Chunk(mtfa, base[i], list, i, 0, j + 1) && Chunk(mtfa, TOP + 16 * i, list, i, j + 1, 16))
  }

  /** No chunk lies above its place at the top. */
  lemma {:induction false} BelowTop(base: seq<int>, i: int)
    requires Chunked(base) && 0 <= i < 16
    ensures 0 <= base[i] <= TOP + 16 * i
    decreases 16 - i
  {
    if i < 15 { BelowTop(base, i + 1); assert base[i] + 16 <= base[i + 1]; }
    if i > 0 { assert base[0] + 16 <= base[i]; }
  }

  lemma LiftCell(mtfa: seq<Byte>, bases: seq<int>, base: seq<int>, list: seq<Byte>, i: int, j: int)
    requires Lifting(mtfa, bases, base, list, i, j) && 0 <= i && 0 <= j
    ensures 0 <= base[i] <= TOP + 16 * i && bases[i] == base[i]
    ensures Lifting(mtfa[TOP + 16 * i + j := mtfa[base[i] + j]], bases, base, list, i, j - 1)
  {
    BelowTop(base, i);
    var x, v := TOP + 16 * i + j, mtfa[base[i] + j];
    ChunkAt(mtfa, base[i], list, i, 0, j + 1, j);
    forall m | i < m < 16 ensures Chunk(mtfa[x := v], bases[m], list, m, 0, 16) { ChunkKept(mtfa, x, v, bases[m], list, m, 0, 16); }
    forall m | 0 <= m < i ensures Chunk(mtfa[x := v], base[m], list, m, 0, 16) {
      assert base[m] + 16 <= base[i];
      ChunkKept(mtfa, x, v, base[m], list, m, 0, 16);
    }
    assert Chunk(mtfa[x := v], base[i], list, i, 0, j);
    assert Chunk(mtfa[x := v], TOP + 16 * i, list, i, j, 16);
  }

  lemma LiftChunk(mtfa: seq<Byte>, bases: seq<int>, base: seq<int>, list: seq<Byte>, i: int)
    requires Lifting(mtfa, bases, base, list, i, -1) && 0 <= i
    ensures Lifting(mtfa, bases[i := TOP + 16 * i], base, list, i - 1, 15)
  {
    if i > 0 {
      BelowTop(base, i - 1);
      assert Chunk(mtfa, TOP + 16 * (i - 1), list, i - 1, 16, 16);
    }
  }

  lemma LiftStart(mtfa: seq<Byte>, base: seq<int>, list: seq<Byte>)
    requires Holds(mtfa, base, list)
    ensures Lifting(mtfa, base, base, list, 15, 15)
  {
    assert Chunk(mtfa, base[15], list, 15, 0, 16) && Chunk(mtfa, TOP + 16 * 15, list, 15, 16, 16);
  }

  lemma LiftDone(mtfa: seq<Byte>, bases: seq<int>, base: seq<int>, list: seq<Byte>)
    requires Lifting(mtfa, bases, base, list, -1, 15)
    ensures Holds(mtfa, bases, list) && bases[0] == TOP
  {
  }

  class Table {
    const mtfa: array<Byte>
    const mtfbase: array<int>

    /** Between calls the table holds a list and there is room below the first chunk. */
    ghost predicate Valid(list: seq<Byte>)
      reads mtfa, mtfbase
    {
      mtfa.Length == MTFA_SIZE && mtfbase.Length == 16 && Holds(mtfa[..], mtfbase[..], list) && mtfbase[0] > 0
    }

    constructor ()
      ensures fresh(mtfa) && fresh(mtfbase) && mtfa.Length == MTFA_SIZE && mtfbase.Length == 16
    {
      mtfa := new Byte[MTFA_SIZE](_ => 0);
      mtfbase := new int[16](_ => 0);
    }

    /** The identity list, at the top of the array. */
    method Init()
      requires mtfa.Length == MTFA_SIZE && mtfbase.Length == 16
      modifies mtfa, mtfbase
      ensures Valid(Identity())
    {
      ghost var id := Identity();
      var kk := MTFA_SIZE - 1;
      var ii := 15;
      while ii >= 0
        invariant -1 <= ii <= 15 && kk == TOP + 16 * ii + 15
        invariant forall i :: ii < i < 16 ==> mtfbase[i] == TOP + 16 * i && Chunk(mtfa[..], mtfbase[i], id, i, 0, 16)
      {
        var jj := 15;
        while jj >= 0
          invariant -1 <= jj <= 15 && kk == TOP + 16 * ii + jj
          invariant forall i :: ii < i < 16 ==> Chunk(mtfa[..], mtfbase[i], id, i, 0, 16)
          invariant Chunk(mtfa[..], TOP + 16 * ii, id, ii, jj + 1, 16)
          modifies mtfa
        {
          ghost var was := mtfa[..];
          mtfa[kk] := (ii * MTFL_SIZE + jj) as Byte;
          assert mtfa[..] == was[kk := mtfa[kk]];
          kk := kk - 1;
          jj := jj - 1;
        }
        mtfbase[ii] := kk + 1;
        ii := ii - 1;
      }
    }

    /** The front entry. */
    method Front(ghost list: seq<Byte>) returns (uc: Byte)
      requires Valid(list)
      ensures |list| == 256 && uc == list[0]
    {
      ChunkAt(mtfa[..], mtfbase[0], list, 0, 0, 16, 0);
      uc := mtfa[mtfbase[0]];
    }

    /** uc = MTF(nn): fetches entry nn and moves it to the front of the list. */
    method ToFront(nn: int, ghost list: seq<Byte>) returns (uc: Byte)
      requires Valid(list) && 0 <= nn < 256
      modifies mtfa, mtfbase
      ensures |list| == 256 && uc == list[nn] && Valid(MoveFront(list, nn))
    {
      hide Holds;
      if nn < MTFL_SIZE {
        uc := Near(nn, list);
      } else {
        uc := Far(nn, list);
        if mtfbase[0] == 0 { Rebuild(MoveFront(list, nn)); }
      }
    }

    /** The first chunk only: four cells at a time while that many are left, then one at a time. */
    method Near(k: int, ghost list: seq<Byte>) returns (uc: Byte)
      requires Valid(list) && 0 <= k < MTFL_SIZE
      modifies mtfa
      ensures |list| == 256 && uc == list[k] && Valid(MoveFront(list, k))
    {
      ghost var was := mtfa[..];
      var nn, pp := k, mtfbase[0];
      assert 0 <= pp && pp + 16 <= MTFA_SIZE by { BelowTop(mtfbase[..], 0); }
      uc := mtfa[pp + nn];
      while nn > 3
        invariant 0 <= nn <= k && Shifted(was, mtfa[..], pp + nn, pp + k)
      {
        var z := pp + nn;
        ghost var n0 := mtfa[..];
        ShiftStep(was, n0, z, pp + k);
        ghost var n1 := n0[z := n0[z - 1]];
        ShiftStep(was, n1, z - 1, pp + k);
        ghost var n2 := n1[z - 1 := n1[z - 2]];
        ShiftStep(was, n2, z - 2, pp + k);
        ghost var n3 := n2[z - 2 := n2[z - 3]];
        ShiftStep(was, n3, z - 3, pp + k);
        mtfa[z] := mtfa[z - 1];
        mtfa[z - 1] := mtfa[z - 2];
        mtfa[z - 2] := mtfa[z - 3];
        mtfa[z - 3] := mtfa[z - 4];
        assert mtfa[..] == n3[z - 3 := n3[z - 4]];
        nn := nn - 4;
      }
      while nn > 0
        invariant 0 <= nn <= k && Shifted(was, mtfa[..], pp + nn, pp + k)
      {
        ghost var n0 := mtfa[..];
        ShiftStep(was, n0, pp + nn, pp + k);
        mtfa[pp + nn] := mtfa[pp + nn - 1];
        assert mtfa[..] == n0[pp + nn := n0[pp + nn - 1]];
        nn := nn - 1;
      }
      FirstChunkMoved(was, mtfa[..], mtfbase[..], list, k);
      ghost var now := mtfa[..];
      mtfa[pp] := uc;
      assert mtfa[..] == now[pp := uc];
    }

    /** In the entry's own chunk: the entries before it move up and the chunk gives up its first cell. */
    method LeaveChunk(lno: int, off: int, ghost list: seq<Byte>) returns (uc: Byte)
      requires Valid(list) && 0 < lno < 16 && 0 <= off < MTFL_SIZE
      modifies mtfa, mtfbase
      ensures mtfa.Length == MTFA_SIZE && mtfbase.Length == 16 && |list| == 256 && uc == list[16 * lno + off]
      ensures Sliding(mtfa[..], mtfbase[..], old(mtfbase[..]), list, MoveFront(list, 16 * lno + off), lno, lno)
    {
      ghost var was, base := mtfa[..], mtfbase[..];
      BelowTop(base, lno);
      var pp := mtfbase[lno] + off;
      uc := mtfa[pp];
      while pp > mtfbase[lno]
        invariant base[lno] <= pp <= base[lno] + off && Shifted(was, mtfa[..], pp, base[lno] + off)
        modifies mtfa
      {
        ghost var cells := mtfa[..];
        ShiftStep(was, cells, pp, base[lno] + off);
        mtfa[pp] := mtfa[pp - 1];
        assert mtfa[..] == cells[pp := cells[pp - 1]];
        pp := pp - 1;
      }
      SlideStart(was, mtfa[..], base, list, lno, off);
      mtfbase[lno] := mtfbase[lno] + 1;
      assert mtfbase[..] == base[lno := base[lno] + 1];
    }

    /** Any later chunk: the entries before it in its chunk move up, each earlier chunk hands its last entry on. */
    method Far(nn: int, ghost list: seq<Byte>) returns (uc: Byte)
      requires Valid(list) && MTFL_SIZE <= nn < 256
      modifies mtfa, mtfbase
      ensures mtfa.Length == MTFA_SIZE && mtfbase.Length == 16
      ensures |list| == 256 && uc == list[nn] && Holds(mtfa[..], mtfbase[..], MoveFront(list, nn)) && mtfbase[0] >= 0
    {
      ghost var base := mtfbase[..];
      var lno := nn / MTFL_SIZE;
      ghost var k := lno;
      uc := LeaveChunk(lno, nn % MTFL_SIZE, list);
      hide *;
      while lno > 0
        invariant 0 <= lno <= k && mtfa.Length == MTFA_SIZE && mtfbase.Length == 16
        invariant Sliding(mtfa[..], mtfbase[..], base, list, MoveFront(list, nn), k, lno)
      {
        ghost var cells, bases := mtfa[..], mtfbase[..];
        SlideStep(cells, bases, base, list, nn, k, lno);
        mtfbase[lno] := mtfbase[lno] - 1;
        mtfa[mtfbase[lno]] := mtfa[mtfbase[lno - 1] + MTFL_SIZE - 1];
        assert mtfbase[..] == bases[lno := bases[lno] - 1];
        assert mtfa[..] == cells[bases[lno] - 1 := cells[bases[lno - 1] + 15]];
        lno := lno - 1;
      }
      ghost var cells, bases := mtfa[..], mtfbase[..];
      SlideDone(cells, bases, base, list, nn, k);
      mtfbase[0] := mtfbase[0] - 1;
      mtfa[mtfbase[0]] := uc;
      assert mtfbase[..] == bases[0 := bases[0] - 1];
      assert mtfa[..] == cells[bases[0] - 1 := uc];
    }

    /** Copies all chunks back to the top of the array, from the last entry down. */
    method Rebuild(ghost list: seq<Byte>)
      requires mtfa.Length == MTFA_SIZE && mtfbase.Length == 16 && Holds(mtfa[..], mtfbase[..], list)
      modifies mtfa, mtfbase
      ensures Valid(list)
    {
      ghost var base := mtfbase[..];
      LiftStart(mtfa[..], base, list);
      var kk := MTFA_SIZE - 1;
      var ii := 256 / MTFL_SIZE - 1;
      hide *;
      while ii >= 0
        invariant -1 <= ii < 16 && kk == TOP + 16 * ii + 15 && Lifting(mtfa[..], mtfbase[..], base, list, ii, 15)
      {
        var jj := MTFL_SIZE - 1;
        while jj >= 0
          invariant -1 <= jj < 16 && kk == TOP + 16 * ii + jj && Lifting(mtfa[..], mtfbase[..], base, list, ii, jj)
          modifies mtfa
        {
          ghost var cells := mtfa[..];
          LiftCell(cells, mtfbase[..], base, list, ii, jj);
          mtfa[kk] := mtfa[mtfbase[ii] + jj];
          assert mtfa[..] == cells[kk := cells[base[ii] + jj]];
          kk := kk - 1;
          jj := jj - 1;
        }
        ghost var bases := mtfbase[..];
        LiftChunk(mtfa[..], bases, base, list, ii);
        mtfbase[ii] := kk + 1;
        assert mtfbase[..] == bases[ii := kk + 1];
        ii := ii - 1;
      }
      LiftDone(mtfa[..], mtfbase[..], base, list);
    }
  }
}
