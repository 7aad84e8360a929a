/** The output half of decompression in bzlib.c: walking the inverse vectors and undoing the run-length stage, in the
    fast and in the low-memory form, into whatever room the caller gives. */
module BlockOutput {
  import opened Common
  import opened Counting
  import opened RunLength
  import opened BlockCrc
  import R = Rotations
  import BW = BurrowsWheeler
  import V = InverseVectors
  import RandTable

  /** Where the walk from origPtr along the inverse links of a column stands after m steps. */
  ghost function Visit(col: seq<Byte>, origPtr: int, m: nat): (t: int)
    requires 0 <= origPtr < |col|
    ensures 0 <= t < |col|
  {
    if m == 0 then origPtr else V.LinksStable(col); V.Links(col)[Visit(col, origPtr, m - 1)]
  }

  /** The byte of fetch number j (from 0); the walk may be asked for more than the column's length. */
  ghost function Fetch(col: seq<Byte>, origPtr: int, j: nat): (b: Byte)
    requires 0 <= origPtr < |col|
  {
    col[Visit(col, origPtr, j + 1)]
  }

  // ---- randomised blocks ----

  /** Bytes to go to the next changed one, and the next table entry. */
  datatype Rand = Rand(toGo: int, pos: int)

  /** BZ_RAND_UPD_MASK. */
  function NextRand(r: Rand): (r': Rand)
    requires 0 <= r.pos < 512
    ensures 0 <= r'.pos < 512
  {
    if r.toGo == 0 then Rand(RandTable.RNum(r.pos) - 1, if r.pos + 1 == 512 then 0 else r.pos + 1) else Rand(r.toGo - 1, r.pos)
  }

  /** After j bytes, from BZ_RAND_INIT_MASK. */
  function RandAfter(j: nat): (r: Rand)
    ensures 0 <= r.pos < 512
  {
    if j == 0 then Rand(0, 0) else NextRand(RandAfter(j - 1))
  }

  /** Exclusive or with BZ_RAND_MASK. */
  function Masked(b: Byte, r: Rand): Byte {
    if r.toGo != 1 then b else if b % 2 == 0 then b + 1 else b - 1
  }

  /** The byte of fetch number j with the randomisation undone. */
  ghost function Next(col: seq<Byte>, origPtr: int, randomised: bool, j: nat): (b: Byte)
    requires 0 <= origPtr < |col|
  {
    if randomised then Masked(Fetch(col, origPtr, j), RandAfter(j + 1)) else Fetch(col, origPtr, j)
  }

  /** The block a column stands for, whether or not it came from a sort. */
  ghost function Content(col: seq<Byte>, origPtr: int, randomised: bool): (block: seq<Byte>)
    requires 0 <= origPtr < |col|
    ensures |block| == |col|
  {
    seq(|col|, j requires 0 <= j < |col| => Next(col, origPtr, randomised, j))
  }

  /** In the last column of a sorted order the walk reads the block, over and over. */
  lemma VisitFirst(col: seq<Byte>, origPtr: int)
    requires 0 <= origPtr < |col|
    ensures Visit(col, origPtr, 0) == origPtr
  {
  }

  lemma VisitNext(col: seq<Byte>, origPtr: int, m: nat)
    requires 0 <= origPtr < |col|
    ensures |V.Links(col)| == |col| && Visit(col, origPtr, m + 1) == V.Links(col)[Visit(col, origPtr, m)]
  {
    V.LinksStable(col);
  }

  lemma Linked(block: seq<Byte>, order: seq<int>)
    requires R.SortedRotations(block, order)
    ensures IsPerm(order, |block|) && |BW.LastColumn(block, order)| == |block| && BW.StableOrder(BW.LastColumn(block, order), V.Links(BW.LastColumn(block, order)))
  {
    V.LinksStable(BW.LastColumn(block, order));
    hide BW.StableOrder, V.Links;
  }

  lemma {:induction false} RowVisited(block: seq<Byte>, order: seq<int>, origPtr: int, m: nat)
    requires R.SortedRotations(block, order) && 0 <= origPtr < |block| && order[origPtr] == 0
    ensures BW.RowAt(block, order, Visit(BW.LastColumn(block, order), origPtr, m), m)
  {
    hide *;
    Linked(block, order);
    var col := BW.LastColumn(block, order);
    if m == 0 {
      VisitFirst(col, origPtr);
      BW.OriginRow(block, order, V.Links(col), origPtr);
    } else {
      RowVisited(block, order, origPtr, m - 1);
      VisitNext(col, origPtr, m - 1);
      BW.RowStep(block, order, V.Links(col), Visit(col, origPtr, m - 1), m - 1);
    }
  }

  /** The column of a sorted order stands for the block that was sorted. */
  lemma ContentOfSort(block: seq<Byte>, order: seq<int>, origPtr: int)
    requires R.SortedRotations(block, order) && 0 <= origPtr < |block| && order[origPtr] == 0
    ensures Content(BW.LastColumn(block, order), origPtr, false) == block
  {
    var col := BW.LastColumn(block, order);
    forall j | 0 <= j < |block| ensures Fetch(col, origPtr, j) == block[j] {
      RowVisited(block, order, origPtr, j + 1);
      BW.RowByte(block, order, Visit(col, origPtr, j + 1), j);
      DivModUnique(j, |block|, 0, j);
    }
  }

  /** Written so far, then the run in hand, then what is still ahead (the unread bytes start at used - 1) make up the
      whole expansion. One fetch too many means the last count was missing; wrap is what that fetch gave. */
  ghost predicate OnTrack(block: seq<Byte>, wrap: Byte, written: seq<Byte>, ch: Byte, len: int, used: int) {
    block != [] && 1 <= used <= |block| + 2 && 0 <= len
    && var all := Expand(block, wrap);
       if used <= |block| + 1 then After(written + Repeat(ch, len), Expand(block[used - 1..], wrap)) == all
       else Expansion(written + Repeat(ch, len), false) == all
  }

  lemma StartOnTrack(block: seq<Byte>, wrap: Byte, ch: Byte)
    requires block != []
    ensures OnTrack(block, wrap, [], ch, 0, 1)
  {
    assert block[0..] == block;
    assert [] + Repeat(ch, 0) + Expand(block, wrap).bytes == Expand(block, wrap).bytes;
  }

  /** Writing one byte of the run in hand. */
  lemma WriteOne(block: seq<Byte>, wrap: Byte, written: seq<Byte>, ch: Byte, len: int, used: int)
    requires OnTrack(block, wrap, written, ch, len, used) && len > 0
    ensures OnTrack(block, wrap, written + [ch], ch, len - 1, used)
  {
    assert written + Repeat(ch, len) == written + [ch] + Repeat(ch, len - 1);
  }

  /** A run of one to three bytes, ended by another byte or by the end of the block. */
  lemma ShortRun(block: seq<Byte>, wrap: Byte, written: seq<Byte>, ch: Byte, used: int, r: int)
    requires OnTrack(block, wrap, written, ch, 0, used) && 1 <= r <= 3 && used + r <= |block| + 1
    requires (forall i :: used - 1 <= i < used - 1 + r ==> block[i] == ch) && (used + r <= |block| ==> block[used - 1 + r] != ch)
    ensures OnTrack(block, wrap, written, ch, r, used + r)
  {
    var b := block[used - 1..];
    assert b[..r] == Repeat(ch, r);
    assert b == Repeat(ch, r) + b[r..] && b[r..] == block[used + r - 1..];
    hide Expand;
    ExpandShort(ch, r, b[r..], wrap);
    var e := Expand(b[r..], wrap).bytes;
    assert written + Repeat(ch, 0) + (Repeat(ch, r) + e) == written + Repeat(ch, r) + e;
  }

  /** Four equal bytes and a count; the count may be missing. */
  lemma LongRun(block: seq<Byte>, wrap: Byte, written: seq<Byte>, ch: Byte, used: int, count: Byte)
    requires OnTrack(block, wrap, written, ch, 0, used) && used + 3 <= |block|
    requires (forall i :: used - 1 <= i < used + 3 ==> block[i] == ch) && count == if used + 3 < |block| then block[used + 3] else wrap
    ensures OnTrack(block, wrap, written, ch, count as int + 4, used + 5)
  {
    var b := block[used - 1..];
    assert forall i :: 0 <= i < 4 ==> b[i] == block[used - 1 + i];
    assert b[0] == ch && b[1] == ch && b[2] == ch && b[3] == ch;
    if used + 3 == |block| {
      assert Expand(b, wrap) == Expansion(Repeat(ch, count as nat + 4), false);
      assert written + Repeat(ch, 0) + Repeat(ch, count as nat + 4) == written + Repeat(ch, count as nat + 4);
    } else {
      assert b[4] == count && b[5..] == block[used + 4..];
      var e := Expand(b[5..], wrap).bytes;
      assert written + Repeat(ch, 0) + (Repeat(ch, count as nat + 4) + e) == written + Repeat(ch, count as nat + 4) + e;
    }
  }

  // ---- the vectors and what a fetch reads from them ----

  /** tt links the column along its inverse links. */
  ghost predicate FastVectors(col: seq<Byte>, tt: seq<int>) {
    |tt| == |col| && forall k :: 0 <= k < |col| ==> tt[k] == col[k] + 256 * V.Links(col)[k]
  }

  /** ll16 and ll4 were linked and reversed along the cycle of origPtr, cf holds the group starts. */
  ghost predicate SmallVectors(col: seq<Byte>, ll16: seq<int>, ll4: seq<Byte>, cf: seq<int>, origPtr: int, cycle: set<int>) {
    |ll16| == |col| && |ll4| == (1 + |col|) / 2 && |cf| == 257
    && (forall c :: 0 <= c < 257 ==> cf[c] == Below(col, c)) && V.Reversed(V.Links(col), V.Entries(ll16, ll4), origPtr, cycle)
  }

  /** Row t is where the fast walk reads fetch number j: one link ahead. */
  ghost predicate FastAt(col: seq<Byte>, origPtr: int, t: int, j: int) {
    0 <= j && 0 <= origPtr < |col| && t == Visit(col, origPtr, j + 1)
  }

  /** Row t is where the low-memory walk reads fetch number j, on the reversed cycle. */
  ghost predicate SmallAt(col: seq<Byte>, origPtr: int, cycle: set<int>, t: int, j: int) {
    0 <= j && 0 <= origPtr < |col| && t in cycle && t == Visit(col, origPtr, j)
  }

  lemma FastRead(col: seq<Byte>, tt: seq<int>, origPtr: int, t: int, j: int)
    requires FastVectors(col, tt) && FastAt(col, origPtr, t, j)
    ensures 0 <= t < |tt| == |col| && 0 <= j && 0 <= origPtr < |col| && tt[t] % 256 == Fetch(col, origPtr, j)
    ensures FastAt(col, origPtr, tt[t] / 256, j + 1)
  {
    var T := V.Links(col);
    V.LinksStable(col);
    DivModUnique(tt[t], 256, T[t], col[t]);
  }

  lemma GroupByte(col: seq<Byte>, cf: seq<int>, t: int, b: Byte)
    requires 0 <= t < |col| && |cf| == 257 && (forall c :: 0 <= c < 257 ==> cf[c] == Below(col, c))
    requires 0 <= V.Links(col)[t] < |col| && col[V.Links(col)[t]] == b
    ensures cf[0] <= t < cf[256] && forall c :: 0 <= c < 256 && cf[c] <= t < cf[c + 1] ==> c == b
  {
    BelowExtremes(col, 0);
    BelowExtremes(col, 256);
    forall c | 0 <= c < 256 && cf[c] <= t < cf[c + 1] ensures c == b { V.GroupIsByte(col, t, c); }
  }

  lemma SmallRead(col: seq<Byte>, ll16: seq<int>, ll4: seq<Byte>, cf: seq<int>, origPtr: int, cycle: set<int>, t: int, j: int)
    requires SmallVectors(col, ll16, ll4, cf, origPtr, cycle) && SmallAt(col, origPtr, cycle, t, j)
    ensures 0 <= t < |col| == |ll16| && |ll4| == (1 + |ll16|) / 2 && |cf| == 257 && cf[0] <= t < cf[256] && 0 <= j && 0 <= origPtr < |col|
    ensures forall c :: 0 <= c < 256 && cf[c] <= t < cf[c + 1] ==> c == Fetch(col, origPtr, j)
    ensures SmallAt(col, origPtr, cycle, V.Entries(ll16, ll4)[t], j + 1)
  {
    V.LinksStable(col);
    hide V.Links, V.Entries, Below;
    GroupByte(col, cf, t, Fetch(col, origPtr, j));
  }

  /** What a call with this much room achieves: the expansion goes on until the room is used up. It is reported corrupt
      when the last run lacks its count and the room is enough for what there is, or, in the loops that look at the room
      first, more than enough. unsaved: then the fields and the caller's record of the buffer stay as they were. */
  ghost predicate Achieved(all: Expansion, corrupt: bool, done: bool, before: seq<Byte>, room: int, unsaved: bool, written: seq<Byte>, avail_out: int) {
    var most := |before| + room;
    (corrupt <==> !all.ok && if unsaved then most >= |all.bytes| else most > |all.bytes|)
    && (done <==> all.ok && most >= |all.bytes|)
    && if corrupt && unsaved then written == before && avail_out == room
       else 0 <= most && avail_out == most - |written| && written == if most < |all.bytes| then all.bytes[..most] else all.bytes
  }

  /** How the loops stop: for want of room, at the end of the block, or at a missing count. */
  ghost predicate Halted(all: Expansion, corrupt: bool, done: bool, written: seq<Byte>) {
    written <= all.bytes && (corrupt ==> !done && all == Expansion(written, false)) && (done ==> all == Expansion(written, true))
  }

  lemma AchievedFast(all: Expansion, corrupt: bool, done: bool, before: seq<Byte>, room: int, written: seq<Byte>, avail_out: int)
    requires Halted(all, corrupt, done, written) && before <= written && 0 <= avail_out <= room && |written| - |before| == room - avail_out
    requires !corrupt && !done ==> avail_out == 0 && |written| < |all.bytes|
    ensures corrupt ==> !all.ok && |before| + room >= |all.bytes|
    ensures !corrupt ==> Achieved(all, corrupt, done, before, room, true, written, avail_out)
  {
  }

  lemma AchievedSlow(all: Expansion, corrupt: bool, done: bool, before: seq<Byte>, room: int, written: seq<Byte>, avail_out: int)
    requires Halted(all, corrupt, done, written) && before <= written && 0 <= avail_out <= room && |written| - |before| == room - avail_out
    requires !corrupt && !done ==> avail_out == 0 && (|written| < |all.bytes| || all == Expansion(written, false))
    requires corrupt ==> avail_out > 0
    ensures Achieved(all, corrupt, done, before, room, false, written, avail_out)
  {
  }

  class DState {
    const smallDecompress: bool
    const tt: array<int>
    const ll16: array<int>
    const ll4: array<Byte>
    const cftab: array<int>
    const blockSize100k: int
    const save_nblock: int
    const blockRandomised: bool
    var rNToGo: int
    var rTPos: int
    var tPos: int
    var k0: Byte
    var nblock_used: int
    var state_out_len: int
    var state_out_ch: Byte
    var calculatedBlockCRC: bv32
    // the caller's buffer
    var avail_out: int
    var written: seq<Byte>
    // what is being decoded
    ghost const col: seq<Byte>
    ghost const origPtr: int
    ghost const cycle: set<int>
    ghost const block: seq<Byte>
    ghost const wrap: Byte

    ghost predicate VectorsValid()
      reads tt, ll16, ll4, cftab
    {
      0 <= origPtr < |col| && block == Content(col, origPtr, blockRandomised) && wrap == Next(col, origPtr, blockRandomised, |col|)
      && save_nblock == |col| <= 100000 * blockSize100k
      && if smallDecompress then SmallVectors(col, ll16[..], ll4[..], cftab[..], origPtr, cycle)
         else FastVectors(col, tt[..])
    }

    /** tPos stands at the row that yields fetch number nblock_used. */
    ghost predicate WalkValid()
      reads `tPos, `nblock_used
    {
      if smallDecompress then SmallAt(col, origPtr, cycle, tPos, nblock_used) else FastAt(col, origPtr, tPos, nblock_used)
    }

    /** The walk is in step with the randomisation, and the checksum is that of the bytes written. */
    ghost predicate RowValid()
      reads `tPos, `nblock_used, `written, `calculatedBlockCRC, `rNToGo, `rTPos
    {
      WalkValid() && calculatedBlockCRC == Running(written)
      && (blockRandomised ==> 0 <= nblock_used && Rand(rNToGo, rTPos) == RandAfter(nblock_used))
    }

    lemma Sizes()
      requires VectorsValid()
      ensures block != [] && save_nblock == |block| == |col| && 0 <= origPtr < |col| && wrap == Next(col, origPtr, blockRandomised, |col|)
    {
      hide Content, Next, SmallVectors, FastVectors;
    }

    /** A fetch inside the block gives its byte, the one after it gives wrap. */
    lemma InBlock(j: nat)
      requires VectorsValid()
      ensures j < |block| ==> Next(col, origPtr, blockRandomised, j) == block[j]
      ensures j == |block| ==> Next(col, origPtr, blockRandomised, j) == wrap
    {
      hide Next;
    }

    /** BZ_GET_FAST and the count. The range check never fires. */
    method FetchFast() returns (corrupt: bool, c: Byte)
      requires VectorsValid() && WalkValid() && !smallDecompress
      modifies this`tPos, this`nblock_used
      ensures 0 <= old(nblock_used) && !corrupt && WalkValid() && nblock_used == old(nblock_used) + 1 && c == Fetch(col, origPtr, old(nblock_used))
    {
      hide FastVectors, FastAt, Fetch, Next, Content;
      FastRead(col, tt[..], origPtr, tPos, nblock_used);
      c := 0;
      if tPos >= 100000 * blockSize100k { return true, c; }
      tPos := tt[tPos];
      c := tPos % 256;
      tPos := tPos / 256;
      nblock_used := nblock_used + 1;
      return false, c;
    }

    /** BZ_GET_SMALL and the count. The range check never fires. */
    method FetchSmall() returns (corrupt: bool, c: Byte)
      requires VectorsValid() && WalkValid() && smallDecompress
      modifies this`tPos, this`nblock_used
      ensures 0 <= old(nblock_used) && !corrupt && WalkValid() && nblock_used == old(nblock_used) + 1 && c == Fetch(col, origPtr, old(nblock_used))
    {
      hide SmallVectors, SmallAt, Fetch, V.Entries, Next, Content;
      SmallRead(col, ll16[..], ll4[..], cftab[..], origPtr, cycle, tPos, nblock_used);
      c := 0;
      if tPos >= 100000 * blockSize100k { return true, c; }
      c := V.IndexIntoF(tPos, cftab);
      tPos := V.GetLL(ll16, ll4, tPos);
      nblock_used := nblock_used + 1;
      return false, c;
    }

    /** The next byte of the block, in any of the forms. */
    method GetByte() returns (corrupt: bool, c: Byte)
      requires VectorsValid() && RowValid()
      modifies this`tPos, this`nblock_used, this`rNToGo, this`rTPos
      ensures 0 <= old(nblock_used) && !corrupt && RowValid() && nblock_used == old(nblock_used) + 1
      ensures c == Next(col, origPtr, blockRandomised, old(nblock_used))
    {
      hide VectorsValid, WalkValid, Fetch, Running;
      Sizes();
      if smallDecompress { corrupt, c := FetchSmall(); } else { corrupt, c := FetchFast(); }
      if corrupt { return; }
      if blockRandomised {
        UpdateMask();
        c := Masked(c, Rand(rNToGo, rTPos));
      }
    }

    /** BZ_RAND_UPD_MASK. */
    method UpdateMask()
      requires 0 <= rTPos < 512
      modifies this`rNToGo, this`rTPos
      ensures Rand(rNToGo, rTPos) == NextRand(old(Rand(rNToGo, rTPos)))
    {
      hide RandTable.RNum;
      if rNToGo == 0 {
        rNToGo := RandTable.RNum(rTPos);
        rTPos := rTPos + 1;
        if rTPos == 512 { rTPos := 0; }
      }
      rNToGo := rNToGo - 1;
    }

    /** Between calls: the bytes written so far, the run in hand and the unread part of the block are in step. */
    ghost predicate Valid()
      reads this, tt, ll16, ll4, cftab
    {
      VectorsValid() && RowValid() && OnTrack(block, wrap, written, state_out_ch, state_out_len, nblock_used)
      && (nblock_used <= |block| ==> k0 == block[nblock_used - 1])
    }

    lemma WrittenSoFar()
      requires Valid()
      ensures written <= Expand(block, wrap).bytes
    {
      Prefix(block, wrap, written, state_out_ch, state_out_len, nblock_used);
      hide OnTrack, Expand;
    }

    /** Room in the caller's buffer. */
    method SetRoom(room: nat)
      requires Valid()
      modifies this`avail_out
      ensures Valid() && avail_out == room
    {
      hide VectorsValid, RowValid, OnTrack;
      avail_out := room;
    }

    /** The first byte has been fetched and nothing has been written. */
    ghost predicate Ready()
      reads this, tt, ll16, ll4, cftab
    {
      VectorsValid() && RowValid() && nblock_used == 0 && written == [] && state_out_len == 0 && state_out_ch == 0
    }

    /** The fast output over a prepared vector. */
    constructor Fast(tt: array<int>, cftab: array<int>, origPtr: int, blockSize100k: int, randomised: bool, ghost col: seq<Byte>)
      requires tt.Length == |col| <= 100000 * blockSize100k && 0 <= origPtr < tt.Length
      requires FastVectors(col, tt[..]) && FastAt(col, origPtr, tt[origPtr] / 256, 0)
      ensures Ready() && written == [] && !smallDecompress && this.tt == tt && fresh(this.ll16) && fresh(this.ll4) && this.cftab == cftab
      ensures this.block == Content(col, origPtr, randomised) && this.wrap == Next(col, origPtr, randomised, |col|) && blockRandomised == randomised
    {
      hide FastVectors, FastAt, Content, Next;
      this.smallDecompress, this.tt, this.cftab, this.blockRandomised := false, tt, cftab, randomised;
      this.ll16, this.ll4 := new int[0], new Byte[0];
      this.blockSize100k, this.save_nblock := blockSize100k, tt.Length;
      this.col, this.origPtr, this.cycle := col, origPtr, {};
      this.block, this.wrap := Content(col, origPtr, randomised), Next(col, origPtr, randomised, |col|);
      state_out_len, state_out_ch, avail_out, written, nblock_used, tPos, k0 := 0, 0, 0, [], 0, tt[origPtr] / 256, 0;
      calculatedBlockCRC, rNToGo, rTPos := 0xffff_ffff, 0, 0;
    }

    /** The low-memory output over prepared vectors. */
    constructor Small(ll16: array<int>, ll4: array<Byte>, cftab: array<int>, origPtr: int, blockSize100k: int, randomised: bool,
                      ghost col: seq<Byte>, ghost cycle: set<int>)
      requires ll16.Length == |col| <= 100000 * blockSize100k && 0 <= origPtr < |col|
      requires SmallVectors(col, ll16[..], ll4[..], cftab[..], origPtr, cycle) && SmallAt(col, origPtr, cycle, origPtr, 0)
      ensures Ready() && written == [] && smallDecompress && fresh(this.tt) && this.ll16 == ll16 && this.ll4 == ll4 && this.cftab == cftab
      ensures this.block == Content(col, origPtr, randomised) && this.wrap == Next(col, origPtr, randomised, |col|) && blockRandomised == randomised
    {
      hide SmallVectors, SmallAt, Content, Next;
      this.smallDecompress, this.ll16, this.ll4, this.cftab, this.blockRandomised := true, ll16, ll4, cftab, randomised;
      this.tt := new int[0];
      this.blockSize100k, this.save_nblock := blockSize100k, ll16.Length;
      this.col, this.origPtr, this.cycle := col, origPtr, cycle;
      this.block, this.wrap := Content(col, origPtr, randomised), Next(col, origPtr, randomised, |col|);
      state_out_len, state_out_ch, avail_out, written, nblock_used, tPos, k0 := 0, 0, 0, [], 0, origPtr, 0;
      calculatedBlockCRC, rNToGo, rTPos := 0xffff_ffff, 0, 0;
    }

    /** Fetches the first byte. */
    method Prime()
      requires Ready()
      modifies this`tPos, this`nblock_used, this`k0, this`rNToGo, this`rTPos
      ensures Valid()
    {
      hide VectorsValid, RowValid, OnTrack, Next, Running;
      Sizes();
      InBlock(0);
      var _, c := GetByte();
      k0 := c;
      StartOnTrack(block, wrap, 0);
    }

    /** Local copies of the fields. */
    constructor Restore(s: DState)
      requires s.Valid()
      ensures Valid() && SameBlock(s) && SameState(s)
    {
      hide *;
      smallDecompress, tt, cftab, blockRandomised, ll16, ll4 := s.smallDecompress, s.tt, s.cftab, s.blockRandomised, s.ll16, s.ll4;
      blockSize100k, save_nblock, col, origPtr, cycle, block, wrap := s.blockSize100k, s.save_nblock, s.col, s.origPtr, s.cycle, s.block, s.wrap;
      state_out_len, state_out_ch, avail_out, written, nblock_used := s.state_out_len, s.state_out_ch, s.avail_out, s.written, s.nblock_used;
      tPos, k0, calculatedBlockCRC, rNToGo, rTPos := s.tPos, s.k0, s.calculatedBlockCRC, s.rNToGo, s.rTPos;
      new;
      BlockIs(s);
      StateIs(s);
      SameIsValid(s);
    }

    lemma BlockIs(s: DState)
      requires smallDecompress == s.smallDecompress && tt == s.tt && cftab == s.cftab && blockRandomised == s.blockRandomised && ll16 == s.ll16 && ll4 == s.ll4
      requires blockSize100k == s.blockSize100k && save_nblock == s.save_nblock && col == s.col && origPtr == s.origPtr && cycle == s.cycle
      requires block == s.block && wrap == s.wrap
      ensures SameBlock(s)
    {
    }

    /** The constant parts agree. */
    ghost predicate SameBlock(s: DState) {
      smallDecompress == s.smallDecompress && tt == s.tt && cftab == s.cftab && blockRandomised == s.blockRandomised && ll16 == s.ll16 && ll4 == s.ll4
      && blockSize100k == s.blockSize100k && save_nblock == s.save_nblock && col == s.col && origPtr == s.origPtr && cycle == s.cycle
      && block == s.block && wrap == s.wrap
    }

    /** And the others. */
    ghost predicate SameState(s: DState)
      reads this, s
    {
      state_out_len == s.state_out_len && state_out_ch == s.state_out_ch && avail_out == s.avail_out && written == s.written && nblock_used == s.nblock_used
      && tPos == s.tPos && k0 == s.k0 && calculatedBlockCRC == s.calculatedBlockCRC && rNToGo == s.rNToGo && rTPos == s.rTPos
    }

    lemma SameIsValid(s: DState)
      requires s.Valid() && SameBlock(s) && SameState(s)
      ensures Valid()
    {
      hide Content, Next, SmallVectors, FastVectors, SmallAt, FastAt, Running, RandAfter, OnTrack;
    }

    // ---- starting the next run ----

    /** A new run may start: none is in hand and a byte of the block is in k0. */
    ghost predicate CanStart()
      reads this, tt, ll16, ll4, cftab
    {
      VectorsValid() && RowValid() && OnTrack(block, wrap, written, state_out_ch, 0, nblock_used)
      && 1 <= nblock_used <= |block| && k0 == block[nblock_used - 1]
    }

    /** A run of len copies of state_out_ch is in hand. */
    ghost predicate InHand(len: int)
      reads `tPos, `nblock_used, `written, `calculatedBlockCRC, `rNToGo, `rTPos, `state_out_ch, `k0, tt, ll16, ll4, cftab
    {
      1 <= len && Held(len)
    }

    /** Perhaps of none. */
    ghost predicate Held(len: int)
      reads `tPos, `nblock_used, `written, `calculatedBlockCRC, `rNToGo, `rTPos, `state_out_ch, `k0, tt, ll16, ll4, cftab
    {
      VectorsValid() && RowValid() && OnTrack(block, wrap, written, state_out_ch, len, nblock_used)
      && (nblock_used <= |block| ==> 1 <= nblock_used && k0 == block[nblock_used - 1])
    }

    lemma HeldIs(len: int)
      requires Held(len)
      ensures VectorsValid() && RowValid() && OnTrack(block, wrap, written, state_out_ch, len, nblock_used)
      ensures nblock_used <= |block| ==> 1 <= nblock_used && k0 == block[nblock_used - 1]
      ensures (1 <= len ==> InHand(len)) && (len == state_out_len ==> Valid())
    {
      hide VectorsValid, RowValid, OnTrack;
    }

    lemma ToHold(len: int)
      requires InHand(len) || (Valid() && len == state_out_len)
      ensures Held(len)
    {
      hide VectorsValid, RowValid;
    }

    /** The run-starting part of unRLE_obuf_to_output_FAST; one: the jump to s_state_out_len_eq_one, where
        state_out_len need not be 1 yet. */
    method NextRunFast() returns (corrupt: bool, one: bool)
      requires CanStart()
      modifies this`tPos, this`nblock_used, this`rNToGo, this`rTPos, this`k0, this`state_out_len, this`state_out_ch
      ensures !corrupt && InHand(if one then 1 else state_out_len) && old(nblock_used) < nblock_used
    {
      hide VectorsValid, RowValid, OnTrack, Next, Expand, Running;
      Sizes();
      ghost var u, w := nblock_used, written;
      NoRun(block, wrap, w, state_out_ch, k0, u);
      state_out_ch := k0;
      var k1;
      corrupt, k1 := GetByte(); if corrupt { return true, false; }
      InBlock(u);
      if k1 != k0 { ShortRun(block, wrap, w, k0, u, 1); k0 := k1; return false, true; }
      if nblock_used == save_nblock + 1 { ShortRun(block, wrap, w, k0, u, 1); return false, true; }
      corrupt := LongerRun(u, w);
      return corrupt, false;
    }

    /** Two equal bytes have been fetched. */
    method LongerRun(ghost u: int, ghost w: seq<Byte>) returns (corrupt: bool)
      requires VectorsValid() && RowValid() && written == w && OnTrack(block, wrap, w, k0, 0, u) && state_out_ch == k0
      requires 1 <= u && nblock_used == u + 1 <= |block| && block[u - 1] == block[u] == k0
      modifies this`tPos, this`nblock_used, this`rNToGo, this`rTPos, this`k0, this`state_out_len
      ensures !corrupt && InHand(state_out_len) && nblock_used > u
    {
      hide VectorsValid, RowValid, OnTrack, Next, Expand, Running;
      Sizes();
      state_out_len := 2;
      var k1;
      corrupt, k1 := GetByte(); if corrupt { return true; }
      InBlock(u + 1);
      if nblock_used == save_nblock + 1 { ShortRun(block, wrap, w, k0, u, 2); return false; }
      if k1 != k0 { ShortRun(block, wrap, w, k0, u, 2); k0 := k1; return false; }
      corrupt := LongestRun(u, w);
    }

    /** Three equal bytes have been fetched. */
    method LongestRun(ghost u: int, ghost w: seq<Byte>) returns (corrupt: bool)
      requires VectorsValid() && RowValid() && written == w && OnTrack(block, wrap, w, k0, 0, u) && state_out_ch == k0
      requires 1 <= u && nblock_used == u + 2 <= |block| && block[u - 1] == block[u] == block[u + 1] == k0
      modifies this`tPos, this`nblock_used, this`rNToGo, this`rTPos, this`k0, this`state_out_len
      ensures !corrupt && InHand(state_out_len) && nblock_used > u
    {
      hide VectorsValid, RowValid, OnTrack, Next, Expand, Running;
      Sizes();
      state_out_len := 3;
      var k1;
      corrupt, k1 := GetByte(); if corrupt { return true; }
      InBlock(u + 2);
      if nblock_used == save_nblock + 1 { ShortRun(block, wrap, w, k0, u, 3); return false; }
      if k1 != k0 { ShortRun(block, wrap, w, k0, u, 3); k0 := k1; return false; }
      corrupt, k1 := GetByte(); if corrupt { return true; }
      InBlock(u + 3);
      LongRun(block, wrap, w, k0, u, k1);
      state_out_len := k1 as int + 4;
      corrupt, k0 := GetByte(); if corrupt { return true; }
      InBlock(u + 4);
      return false;
    }

    /** The run-starting part of the other three loops. */
    method NextRun() returns (corrupt: bool)
      requires CanStart()
      modifies this`tPos, this`nblock_used, this`rNToGo, this`rTPos, this`k0, this`state_out_len, this`state_out_ch
      ensures !corrupt && InHand(state_out_len) && old(nblock_used) < nblock_used
    {
      hide VectorsValid, RowValid, OnTrack, Next, Expand, Running;
      Sizes();
      ghost var u, w := nblock_used, written;
      NoRun(block, wrap, w, state_out_ch, k0, u);
      state_out_len := 1;
      state_out_ch := k0;
      var k1;
      corrupt, k1 := GetByte(); if corrupt { return true; }
      InBlock(u);
      if nblock_used == save_nblock + 1 { ShortRun(block, wrap, w, k0, u, 1); return false; }
      if k1 != k0 { ShortRun(block, wrap, w, k0, u, 1); k0 := k1; return false; }
      corrupt := LongerRun(u, w);
    }

    // ---- writing ----

    /** Writes one byte of the run in hand; len is the length of that run. */
    method Write(ghost len: int)
      requires OnTrack(block, wrap, written, state_out_ch, len, nblock_used) && len > 0 && avail_out > 0 && RowValid()
      modifies this`written, this`avail_out, this`calculatedBlockCRC
      ensures OnTrack(block, wrap, written, state_out_ch, len - 1, nblock_used) && RowValid()
      ensures written == old(written) + [state_out_ch] && avail_out == old(avail_out) - 1
    {
      WriteOne(block, wrap, written, state_out_ch, len, nblock_used);
      RunningMore(written, state_out_ch);
      calculatedBlockCRC := Update(calculatedBlockCRC, state_out_ch);
      written := written + [state_out_ch];
      avail_out := avail_out - 1;
    }

    /** The caller's room was used for exactly the bytes appended. */
    ghost predicate Filled(before: seq<Byte>, room: int)
      reads `avail_out, `written
    {
      0 <= avail_out <= room && before <= written && |written| - |before| == room - avail_out
    }

    /** The block is complete. */
    predicate Done()
      reads `nblock_used, `state_out_len
    {
      nblock_used == save_nblock + 1 && state_out_len == 0
    }

    /** The fast form of a block that is not randomised works on copies of the fields. */
    predicate Unsaving() {
      !smallDecompress && !blockRandomised
    }

    /** What a call with this much room achieves; see Achieved. */
    ghost predicate Outcome(corrupt: bool, before: seq<Byte>, room: int, unsaved: bool)
      reads this, tt, ll16, ll4, cftab
    {
      Valid() && Achieved(Expand(block, wrap), corrupt, Done(), before, room, unsaved, written, avail_out)
    }

    /** unRLE_obuf_to_output_FAST. */
    method UnRleFast() returns (corrupt: bool)
      requires Valid() && !smallDecompress && avail_out >= 0
      modifies this
      ensures Outcome(corrupt, old(written), old(avail_out), Unsaving())
    {
      hide Outcome, Valid, SameBlock, SameState, Achieved, Expand, Done;
      if blockRandomised {
        corrupt := EachRun();
      } else {
        var c := new DState.Restore(this);
        StatesAgree(c);
        corrupt := c.FastRuns(); // on the local copies
        if !corrupt { Save(c); }
        SavedOutcome(c, corrupt, old(written), old(avail_out));
      }
    }

    lemma StatesAgree(c: DState)
      requires c.SameBlock(this) && c.SameState(this)
      ensures c.written == written && c.avail_out == avail_out && c.smallDecompress == smallDecompress && c.blockRandomised == blockRandomised
    {
    }

    /** return_notr: the local copies become the fields. */
    method Save(c: DState)
      requires c.Valid() && c.SameBlock(this) && c != this
      modifies this
      ensures Valid() && SameState(c)
    {
      hide *;
      state_out_len, state_out_ch, avail_out, written, nblock_used := c.state_out_len, c.state_out_ch, c.avail_out, c.written, c.nblock_used;
      tPos, k0, calculatedBlockCRC, rNToGo, rTPos := c.tPos, c.k0, c.calculatedBlockCRC, c.rNToGo, c.rTPos;
      BlockBack(c);
      StateIs(c);
      SameIsValid(c);
    }

    lemma StateIs(s: DState)
      requires state_out_len == s.state_out_len && state_out_ch == s.state_out_ch && avail_out == s.avail_out && written == s.written && nblock_used == s.nblock_used
      requires tPos == s.tPos && k0 == s.k0 && calculatedBlockCRC == s.calculatedBlockCRC && rNToGo == s.rNToGo && rTPos == s.rTPos
      ensures SameState(s)
    {
    }

    lemma BlockBack(c: DState)
      requires c.SameBlock(this)
      ensures SameBlock(c)
    {
    }

    /** What the local copies come to is what the fields come to, unless nothing is saved. */
    lemma SavedOutcome(c: DState, corrupt: bool, before: seq<Byte>, room: int)
      requires c.SameBlock(this) && Valid()
      requires if corrupt then written == before && avail_out == room && 0 <= room && !Expand(c.block, c.wrap).ok && |before| + room >= |Expand(c.block, c.wrap).bytes|
               else SameState(c) && Achieved(Expand(c.block, c.wrap), corrupt, c.Done(), before, room, true, c.written, c.avail_out)
      ensures Outcome(corrupt, before, room, true)
    {
      hide VectorsValid, RowValid;
      Sizes();
      if corrupt {
        Prefix(block, wrap, written, state_out_ch, state_out_len, nblock_used);
        hide OnTrack, Expand;
      } else {
        hide OnTrack, Expand;
      }
    }

    /** The loop of the fast form on the local copies. */
    method FastRuns() returns (corrupt: bool)
      requires Valid() && !smallDecompress && !blockRandomised && avail_out >= 0
      modifies this
      ensures Valid() && (corrupt ==> !Expand(block, wrap).ok && |old(written)| + old(avail_out) >= |Expand(block, wrap).bytes|)
      ensures !corrupt ==> Achieved(Expand(block, wrap), corrupt, Done(), old(written), old(avail_out), true, written, avail_out)
    {
      hide VectorsValid, RowValid, OnTrack, Next, Expand, Running, Achieved;
      Sizes();
      ghost var before, room := written, avail_out;
      Prefix(block, wrap, written, state_out_ch, state_out_len, nblock_used);
      var one := false; // true: we jumped to s_state_out_len_eq_one
      while true
        invariant VectorsValid() && 1 <= nblock_used <= |block| + 2 && Filled(before, room)
        invariant if one then InHand(1) else Valid() && 0 <= state_out_len
        decreases |block| + 2 - nblock_used
      {
        if one || state_out_len > 0 {
          var full := FinishRun(one, before, room);
          if full {
            Prefix(block, wrap, written, state_out_ch, state_out_len, nblock_used);
            AchievedFast(Expand(block, wrap), false, Done(), before, room, written, avail_out);
            return false;
          }
        }
        Prefix(block, wrap, written, state_out_ch, 0, nblock_used);
        if nblock_used >= save_nblock + 1 {
          state_out_len := 0;
          AchievedFast(Expand(block, wrap), nblock_used > save_nblock + 1, Done(), before, room, written, avail_out);
        }
        if nblock_used > save_nblock + 1 { return true; }
        if nblock_used == save_nblock + 1 { return false; }
        corrupt, one := NextRunFast();
        if corrupt { return true; }
        Prefix(block, wrap, written, state_out_ch, if one then 1 else state_out_len, nblock_used);
      }
    }

    /** Tries to finish the existing run: one byte of it, or state_out_len. */
    method FinishRun(one: bool, ghost before: seq<Byte>, ghost room: int) returns (full: bool)
      requires (if one then InHand(1) else Valid() && 0 < state_out_len) && Filled(before, room)
      modifies this`state_out_len, this`written, this`avail_out, this`calculatedBlockCRC
      ensures Filled(before, room) && VectorsValid() && RowValid() && (nblock_used <= |block| ==> k0 == block[nblock_used - 1])
      ensures if full then avail_out == 0 && Valid() && 0 < state_out_len else OnTrack(block, wrap, written, state_out_ch, 0, nblock_used)
    {
      hide *;
      ToHold(if one then 1 else state_out_len);
      if !one {
        while avail_out != 0 && state_out_len != 1
          invariant Held(state_out_len) && 1 <= state_out_len && Filled(before, room)
          decreases state_out_len
        {
          WriteHeld(state_out_len, before, room);
          state_out_len := state_out_len - 1;
        }
      }
      if avail_out == 0 {
        if one { state_out_len := 1; }
        HeldIs(state_out_len);
        return true;
      }
      WriteHeld(1, before, room);
      HeldIs(0);
      return false;
    }

    /** One byte of the run in hand. */
    method WriteHeld(ghost len: int, ghost before: seq<Byte>, ghost room: int)
      requires Held(len) && len > 0 && avail_out != 0 && Filled(before, room)
      modifies this`written, this`avail_out, this`calculatedBlockCRC
      ensures Held(len - 1) && Filled(before, room)
    {
      hide VectorsValid, RowValid, OnTrack;
      Write(len);
    }

    /** unRLE_obuf_to_output_SMALL. */
    method UnRleSmall() returns (corrupt: bool)
      requires Valid() && smallDecompress && avail_out >= 0
      modifies this
      ensures Outcome(corrupt, old(written), old(avail_out), Unsaving())
    {
      hide Outcome, Valid;
      corrupt := EachRun();
    }

    /** The loop that the source has three times: low memory, and both forms of a randomised block. */
    method EachRun() returns (corrupt: bool)
      requires Valid() && avail_out >= 0
      modifies this
      ensures Outcome(corrupt, old(written), old(avail_out), false)
    {
      hide VectorsValid, RowValid, OnTrack, Next, Expand, Running, Achieved;
      Sizes();
      ghost var before, room := written, avail_out;
      Prefix(block, wrap, written, state_out_ch, state_out_len, nblock_used);
      while true
        invariant Valid() && 0 <= state_out_len && 1 <= nblock_used <= |block| + 2 && Filled(before, room)
        decreases |block| + 2 - nblock_used
      {
        while avail_out != 0 && state_out_len != 0
          invariant Valid() && 0 <= state_out_len && Filled(before, room)
          modifies this`state_out_len, this`written, this`avail_out, this`calculatedBlockCRC
          decreases state_out_len
        {
          Write(state_out_len);
          state_out_len := state_out_len - 1;
        }
        Prefix(block, wrap, written, state_out_ch, state_out_len, nblock_used);
        if avail_out == 0 {
          AchievedSlow(Expand(block, wrap), false, Done(), before, room, written, avail_out);
          return false;
        }
        if nblock_used >= save_nblock + 1 {
          AchievedSlow(Expand(block, wrap), nblock_used > save_nblock + 1, Done(), before, room, written, avail_out);
        }
        if nblock_used == save_nblock + 1 { return false; }
        if nblock_used > save_nblock + 1 { return true; }
        corrupt := NextRun();
        if corrupt { return true; }
        Prefix(block, wrap, written, state_out_ch, state_out_len, nblock_used);
      }
    }
  }

  /** What has been written is the beginning of the expansion; with a run in hand or bytes unread it is not all of it. */
  lemma Prefix(block: seq<Byte>, wrap: Byte, written: seq<Byte>, ch: Byte, len: int, used: int)
    requires OnTrack(block, wrap, written, ch, len, used)
    ensures block != [] && 1 <= used <= |block| + 2 && 0 <= len && written <= Expand(block, wrap).bytes
    ensures len > 0 || used <= |block| ==> |written| < |Expand(block, wrap).bytes|
    ensures used == |block| + 1 && len == 0 ==> Expand(block, wrap) == Expansion(written, true)
    ensures used == |block| + 2 && len == 0 ==> Expand(block, wrap) == Expansion(written, false)
  {
    var all, r := Expand(block, wrap), Repeat(ch, len);
    if used <= |block| + 1 {
      var e := Expand(block[used - 1..], wrap);
      if used <= |block| { SomeText(block[used - 1..], wrap); } else { assert block[used - 1..] == [] && e == Expansion([], true); }
      assert After(written + r, e) == all;
      hide Expand;
      JoinText(written, r, e.bytes);
    } else {
      assert Expansion(written + r, false) == all;
      hide Expand;
    }
    if len == 0 { assert written + r == written; }
  }

  lemma JoinText(a: seq<Byte>, b: seq<Byte>, c: seq<Byte>)
    ensures a + (b + c) == a + b + c
  {
  }

  /** A block gives at least one byte. */
  lemma SomeText(b: seq<Byte>, wrap: Byte)
    requires b != []
    ensures Expand(b, wrap).bytes != []
  {
  }

  lemma NoRun(block: seq<Byte>, wrap: Byte, written: seq<Byte>, ch: Byte, ch': Byte, used: int)
    requires OnTrack(block, wrap, written, ch, 0, used)
    ensures OnTrack(block, wrap, written, ch', 0, used)
  {
    assert Repeat(ch, 0) == Repeat(ch', 0);
  }

  /** Starting the fast output: link tt, whose entries hold the column, and fetch the first byte. */
  method StartFast(tt: array<int>, cftab: array<int>, origPtr: int, blockSize100k: int, randomised: bool, ghost col: seq<Byte>) returns (s: DState)
    requires tt != cftab && tt[..] == col && |col| <= 100000 * blockSize100k && cftab.Length == 257 && 0 <= origPtr < |col|
    requires forall c :: 0 <= c < 257 ==> cftab[c] == Below(col, c)
    modifies tt, cftab
    ensures s.Valid() && s.block == Content(col, origPtr, randomised) && s.written == [] && !s.smallDecompress && s.blockRandomised == randomised
    ensures s.tt == tt && s.cftab == cftab && fresh(s) && fresh(s.ll16) && fresh(s.ll4)
  {
    hide *;
    PrepareFast(tt, cftab, origPtr, col);
    s := new DState.Fast(tt, cftab, origPtr, blockSize100k, randomised, col);
    s.Prime();
  }

  /** Links the vector; the walk starts at the row after origPtr. */
  method PrepareFast(tt: array<int>, cftab: array<int>, origPtr: int, ghost col: seq<Byte>)
    requires tt != cftab && tt[..] == col && cftab.Length == 257 && 0 <= origPtr < |col|
    requires forall c :: 0 <= c < 257 ==> cftab[c] == Below(col, c)
    modifies tt, cftab
    ensures FastVectors(col, tt[..]) && tt.Length == |col| && FastAt(col, origPtr, tt[origPtr] / 256, 0)
  {
    hide Below, V.Links, FastVectors, FastAt;
    assert forall k :: 0 <= k < |col| ==> tt[k] == tt[..][k];
    V.LinkFast(tt, cftab, tt.Length, col);
    FastVectorsAre(col, tt[..]);
    FastStart(col, tt[..], origPtr);
  }

  /** Starting the low-memory output from ll16 holding the column: link, reverse the cycle of origPtr, begin. */
  method StartSmall(ll16: array<int>, ll4: array<Byte>, cftab: array<int>, cftabCopy: array<int>, origPtr: int, blockSize100k: int, randomised: bool,
                    ghost col: seq<Byte>) returns (s: DState)
    requires ll16 != cftab && ll16 != cftabCopy && cftab != cftabCopy && cftab.Length == cftabCopy.Length == 257
    requires ll16[..] == col && |col| <= 100000 * blockSize100k && blockSize100k <= 9 && ll4.Length == (1 + |col|) / 2 && 0 <= origPtr < |col|
    requires forall c :: 0 <= c < 257 ==> cftab[c] == Below(col, c)
    modifies ll16, ll4, cftabCopy
    ensures s.Valid() && s.block == Content(col, origPtr, randomised) && s.written == [] && s.smallDecompress && s.blockRandomised == randomised
    ensures s.ll16 == ll16 && s.ll4 == ll4 && s.cftab == cftab && fresh(s) && fresh(s.tt)
  {
    hide *;
    ghost var cycle := PrepareSmall(ll16, ll4, cftab, cftabCopy, origPtr, col);
    s := new DState.Small(ll16, ll4, cftab, origPtr, blockSize100k, randomised, col, cycle);
    s.Prime();
  }

  /** Links forward, then reverses the cycle through origPtr. */
  method PrepareSmall(ll16: array<int>, ll4: array<Byte>, cftab: array<int>, cftabCopy: array<int>, origPtr: int, ghost col: seq<Byte>)
    returns (ghost cycle: set<int>)
    requires ll16 != cftab && ll16 != cftabCopy && cftab != cftabCopy && cftab.Length == cftabCopy.Length == 257
    requires ll16[..] == col && |col| <= 0x10_0000 && ll4.Length == (1 + |col|) / 2 && 0 <= origPtr < |col|
    requires forall c :: 0 <= c < 257 ==> cftab[c] == Below(col, c)
    modifies ll16, ll4, cftabCopy
    ensures SmallVectors(col, ll16[..], ll4[..], cftab[..], origPtr, cycle) && SmallAt(col, origPtr, cycle, origPtr, 0)
  {
    hide *;
    assert forall k :: 0 <= k < |col| ==> ll16[k] == ll16[..][k];
    V.LinkSmall(ll16, ll4, cftab, cftabCopy, ll16.Length, col);
    cycle := V.ReversePointers(ll16, ll4, origPtr, col);
    SmallVectorsAre(col, ll16[..], ll4[..], cftab[..], origPtr, cycle);
  }

  lemma SmallVectorsAre(col: seq<Byte>, ll16: seq<int>, ll4: seq<Byte>, cf: seq<int>, origPtr: int, cycle: set<int>)
    requires |ll16| == |col| && |ll4| == (1 + |col|) / 2 && |cf| == 257 && forall c :: 0 <= c < 257 ==> cf[c] == Below(col, c)
    requires V.Reversed(V.Links(col), V.Entries(ll16, ll4), origPtr, cycle) && 0 <= origPtr < |col|
    ensures SmallVectors(col, ll16, ll4, cf, origPtr, cycle) && SmallAt(col, origPtr, cycle, origPtr, 0)
  {
  }

  lemma FastVectorsAre(col: seq<Byte>, tt: seq<int>)
    requires |tt| == |col| && forall k :: 0 <= k < |col| ==> tt[k] == col[k] + 256 * V.Links(col)[k]
    ensures FastVectors(col, tt)
  {
  }

  lemma FastStart(col: seq<Byte>, tt: seq<int>, origPtr: int)
    requires FastVectors(col, tt) && 0 <= origPtr < |col|
    ensures FastAt(col, origPtr, tt[origPtr] / 256, 0)
  {
    V.LinksStable(col);
    DivModUnique(tt[origPtr], 256, V.Links(col)[origPtr], col[origPtr]);
    assert Visit(col, origPtr, 0) == origPtr;
  }

  /** Any two states on the same block that have written equally much have written the same bytes: the fast and the
      low-memory form agree, however the caller splits the room. */
  lemma SameBytes(block: seq<Byte>, wrap: Byte, w1: seq<Byte>, c1: Byte, l1: int, u1: int, w2: seq<Byte>, c2: Byte, l2: int, u2: int)
    requires OnTrack(block, wrap, w1, c1, l1, u1) && OnTrack(block, wrap, w2, c2, l2, u2) && |w1| == |w2|
    ensures w1 == w2
  {
    var all := Expand(block, wrap).bytes;
    Prefix(block, wrap, w1, c1, l1, u1);
    Prefix(block, wrap, w2, c2, l2, u2);
    assert w1 == all[..|w1|] && w2 == all[..|w2|];
  }

  // ---- undoing the randomisation ----

  lemma MaskedTwice(b: Byte, r: Rand)
    ensures Masked(Masked(b, r), r) == b
  {
  }

  /** A block whose bytes were changed as the table says before it was sorted is given back as it was. */
  lemma RandomisedRestored(plain: seq<Byte>, block: seq<Byte>, order: seq<int>, origPtr: int)
    requires R.SortedRotations(block, order) && 0 <= origPtr < |block| && order[origPtr] == 0
    requires |plain| == |block| && forall j :: 0 <= j < |block| ==> block[j] == Masked(plain[j], RandAfter(j + 1))
    ensures Content(BW.LastColumn(block, order), origPtr, true) == plain
  {
    var col := BW.LastColumn(block, order);
    ContentOfSort(block, order, origPtr);
    hide RandAfter, Masked, Fetch, R.SortedRotations;
    forall j | 0 <= j < |block| ensures Content(col, origPtr, true)[j] == plain[j] {
      assert Content(col, origPtr, false)[j] == block[j];
      MaskedTwice(plain[j], RandAfter(j + 1));
    }
  }

  // ---- where the fast form and the low-memory form differ ----

  /** From the same bytes and with the same room the two forms report the same and record the same bytes if and only if the
      block is whole, or its text still exceeds the room, or all of it was recorded before and there is room left. */
  lemma FormsAgreeWhen(all: Expansion, before: seq<Byte>, room: nat, corrupt: bool, done: bool, written: seq<Byte>, left: int,
                       corrupt': bool, done': bool, written': seq<Byte>, left': int)
    requires before <= all.bytes
    requires Achieved(all, corrupt, done, before, room, true, written, left) && Achieved(all, corrupt', done', before, room, false, written', left')
    ensures corrupt == corrupt' && written == written' <==> all.ok || |before| + room < |all.bytes| || (before == all.bytes && room > 0)
  {
  }

  /** A block of four equal bytes, given all the room it could want: the fast form records nothing, the other everything. */
  lemma FormsDiffer(wrap: Byte, room: nat, corrupt: bool, done: bool, written: seq<Byte>, left: int, corrupt': bool, done': bool, written': seq<Byte>, left': int)
    requires room > wrap as int + 4
    requires Achieved(Expand([7, 7, 7, 7], wrap), corrupt, done, [], room, true, written, left)
    requires Achieved(Expand([7, 7, 7, 7], wrap), corrupt', done', [], room, false, written', left')
    ensures corrupt && corrupt' && written == [] && |written'| == wrap as int + 4
  {
    assert Expand([7, 7, 7, 7], wrap) == Expansion(Repeat(7, wrap as nat + 4), false);
  }
}
