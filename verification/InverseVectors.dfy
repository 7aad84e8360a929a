/** The vectors decompress.c builds to undo the Burrows-Wheeler transform: the packed tt array of the fast decoder,
    and the ll16/ll4 arrays of the low-memory decoder with their in-place pointer reversal. */
module InverseVectors {
  import opened Common
  import opened Counting
  import BW = BurrowsWheeler

  // ---- the two link orders of a column ----

  ghost function Forward(col: seq<Byte>): (pos: seq<int>)
    ensures |pos| == |col|
  {
    seq(|col|, x requires 0 <= x < |col| => Pos(col, x))
  }

  lemma ForwardPerm(col: seq<Byte>)
    ensures IsPerm(Forward(col), |col|)
  {
    forall x | 0 <= x < |col| ensures 0 <= Forward(col)[x] < |col| { PosRange(col, x); }
    forall x, y | 0 <= x < y < |col| ensures Forward(col)[x] != Forward(col)[y] {
      if col[x] <= col[y] { PosOrder(col, x, y); } else { PosOrder(col, y, x); }
    }
  }

  /** The inverse links: position k of the sorted column comes from position Links(col)[k] of the column. */
  ghost function Links(col: seq<Byte>): (T: seq<int>)
    ensures |T| == |col|
  {
    ForwardPerm(col);
    seq(|col|, k requires 0 <= k < |col| => BW.IndexIn(Forward(col), |col|, k))
  }

  /** Forward and Links are inverse to each other and Links is the stable order of the column. */
  lemma LinksStable(col: seq<Byte>)
    ensures BW.StableOrder(col, Links(col))
    ensures forall x :: 0 <= x < |col| ==> 0 <= Pos(col, x) < |col| && Links(col)[Pos(col, x)] == x
    ensures forall k :: 0 <= k < |col| ==> 0 <= Links(col)[k] < |col| && Pos(col, Links(col)[k]) == k
  {
    var pos, T, n := Forward(col), Links(col), |col|;
    ForwardPerm(col);
    forall x | 0 <= x < n ensures 0 <= Pos(col, x) < n && T[Pos(col, x)] == x {
      assert pos[T[pos[x]]] == pos[x];
    }
    assert forall k :: 0 <= k < n ==> pos[T[k]] == k;
    forall j, k | 0 <= j < k < n
      ensures T[j] != T[k] && (col[T[j]] < col[T[k]] || (col[T[j]] == col[T[k]] && T[j] < T[k]))
    {
      assert pos[T[j]] == j && pos[T[k]] == k;
      if !(col[T[j]] < col[T[k]] || (col[T[j]] == col[T[k]] && T[j] <= T[k])) { PosOrder(col, T[k], T[j]); }
    }
  }

  // ---- cftab ----

  /** Turns the character counts into group starts, with the range and order checks of the source. */
  method BuildCftab(unzftab: array<int>, cftab: array<int>, nblock: int, ghost col: seq<Byte>) returns (ok: bool)
    requires unzftab.Length == 256 && cftab.Length == 257 && unzftab != cftab && nblock == |col|
    requires forall c :: 0 <= c < 256 ==> unzftab[c] == Count(col, c)
    modifies cftab
    ensures ok && forall c :: 0 <= c < 257 ==> cftab[c] == Below(col, c)
  {
    forall c ensures 0 <= Count(col, c) <= nblock && Below(col, c) <= Below(col, c + 1) {
      BelowMonotone(col, c, c + 1);
    }
    BelowExtremes(col, 0);
    var i := 0;
    while i <= 255
      invariant 0 <= i <= 256
    {
      if unzftab[i] < 0 || unzftab[i] > nblock { return false; }
      i := i + 1;
    }
    cftab[0] := 0;
    i := 1;
    while i <= 256
      invariant 1 <= i <= 257 && cftab[0] == 0 && forall c :: 1 <= c < i ==> cftab[c] == unzftab[c - 1]
    {
      cftab[i] := unzftab[i - 1];
      i := i + 1;
    }
    i := 1;
    while i <= 256
      invariant 1 <= i <= 257 && forall c :: i <= c < 257 ==> cftab[c] == unzftab[c - 1]
      invariant forall c :: 0 <= c < i ==> cftab[c] == Below(col, c)
    {
      assert unzftab[i - 1] == Count(col, i - 1);
      cftab[i] := cftab[i] + cftab[i - 1];
      i := i + 1;
    }
    i := 0;
    while i <= 256
      invariant 0 <= i <= 257
    {
      if cftab[i] < 0 || cftab[i] > nblock { return false; }
      i := i + 1;
    }
    i := 1;
    while i <= 256
      invariant 1 <= i <= 257
    {
      assert cftab[i - 1] == Below(col, i - 1);
      if cftab[i - 1] > cftab[i] { return false; }
      i := i + 1;
    }
    return true;
  }

  // ---- the fast decoder ----

  /** The linking pass after i positions: their numbers stand above the bytes of the slots they were sent to. */
  ghost predicate Linking(col: seq<Byte>, tt: seq<int>, cf: seq<int>, i: int) {
    0 <= i <= |col| == |tt| && |cf| == 257
    && (forall c :: 0 <= c < 256 ==> cf[c] == Below(col, c) + Count(col[..i], c))
    && (forall k :: 0 <= k < |col| ==> tt[k] % 256 == col[k] && 0 <= tt[k] / 256)
    && (forall x :: 0 <= x < i ==> 0 <= Pos(col, x) < |col| && tt[Pos(col, x)] / 256 == x)
    && forall k :: 0 <= k < |col| ==> tt[k] == col[k] || (tt[k] / 256 < i && Pos(col, tt[k] / 256) == k)
  }

  lemma RoomInColumn(col: seq<Byte>, i: int)
    requires 0 <= i < |col|
    ensures 0 <= Pos(col, i) < |col|
  {
    PosRange(col, i);
  }

  lemma PosDiffers(col: seq<Byte>, x: int, y: int)
    requires 0 <= x < y < |col|
    ensures Pos(col, x) != Pos(col, y)
  {
    if col[x] <= col[y] { PosOrder(col, x, y); } else { PosOrder(col, y, x); }
  }

  lemma LinkingSizes(col: seq<Byte>, tt: seq<int>, cf: seq<int>, i: int)
    requires Linking(col, tt, cf, i)
    ensures 0 <= i <= |col| == |tt| && |cf| == 257
  {
  }

  lemma LinkingJoin(col: seq<Byte>, tt: seq<int>, cf: seq<int>, i: int)
    requires 0 <= i <= |col| == |tt| && |cf| == 257
    requires forall c :: 0 <= c < 256 ==> cf[c] == Below(col, c) + Count(col[..i], c)
    requires forall k :: 0 <= k < |col| ==> tt[k] % 256 == col[k] && 0 <= tt[k] / 256
    requires forall x :: 0 <= x < i ==> 0 <= Pos(col, x) < |col| && tt[Pos(col, x)] / 256 == x
    requires forall k :: 0 <= k < |col| ==> tt[k] == col[k] || (tt[k] / 256 < i && Pos(col, tt[k] / 256) == k)
    ensures Linking(col, tt, cf, i)
  {
    hide Pos, Below, Count;
  }

  /** The slot that position i is sent to is the next of its byte's bucket, and nothing has been sent there yet. */
  lemma SlotFree(col: seq<Byte>, tt: seq<int>, cf: seq<int>, i: int)
    requires Linking(col, tt, cf, i) && i < |col|
    ensures cf[col[i]] == Pos(col, i) && 0 <= Pos(col, i) < |col| && tt[Pos(col, i)] == col[Pos(col, i)]
  {
    RoomInColumn(col, i);
    assert cf[col[i]] == Pos(col, i);
    hide Pos, Below, Count;
    var k := Pos(col, i);
    if tt[k] != col[k] {
      PosDiffers(col, tt[k] / 256, i);
    }
  }

  lemma FinishedAfter(col: seq<Byte>, tt: seq<int>, cf: seq<int>, i: int)
    requires Linking(col, tt, cf, i) && i < |col| && cf[col[i]] == Pos(col, i)
    ensures forall c :: 0 <= c < 256 ==> cf[col[i] := Pos(col, i) + 1][c] == Below(col, c) + Count(col[..i + 1], c)
  {
    hide Pos, Below, Count;
    forall c | 0 <= c < 256
      ensures cf[col[i] := Pos(col, i) + 1][c] == Below(col, c) + Count(col[..i + 1], c)
    {
      BelowStep(col, i, c);
    }
  }

  /** Adding 256 * i to a bare byte leaves the byte and puts i above it. */
  lemma StoredAbove(b: Byte, i: int)
    requires 0 <= i
    ensures (b + 256 * i) % 256 == b && (b + 256 * i) / 256 == i
  {
    DivModUnique(b + 256 * i, 256, i, b);
  }

  lemma LinkedAfter(col: seq<Byte>, tt: seq<int>, cf: seq<int>, i: int)
    requires Linking(col, tt, cf, i) && i < |col| == |tt| && 0 <= Pos(col, i) < |col| && tt[Pos(col, i)] == col[Pos(col, i)]
    ensures var t' := tt[Pos(col, i) := tt[Pos(col, i)] + 256 * i];
            forall x :: 0 <= x < i + 1 ==> 0 <= Pos(col, x) < |col| && t'[Pos(col, x)] / 256 == x
  {
    hide Pos, Below, Count;
    StoredAbove(col[Pos(col, i)], i);
    forall x | 0 <= x < i ensures Pos(col, x) != Pos(col, i) { PosDiffers(col, x, i); }
  }

  lemma LowBytesAfter(col: seq<Byte>, tt: seq<int>, cf: seq<int>, i: int)
    requires Linking(col, tt, cf, i) && i < |col| == |tt| && 0 <= Pos(col, i) < |col| && tt[Pos(col, i)] == col[Pos(col, i)]
    ensures var t' := tt[Pos(col, i) := tt[Pos(col, i)] + 256 * i];
            forall k :: 0 <= k < |col| ==> t'[k] % 256 == col[k] && 0 <= t'[k] / 256
  {
    hide Pos, Below, Count;
    StoredAbove(col[Pos(col, i)], i);
  }

  lemma UnlinkedAfter(col: seq<Byte>, tt: seq<int>, cf: seq<int>, i: int)
    requires Linking(col, tt, cf, i) && i < |col| == |tt| && 0 <= Pos(col, i) < |col| && tt[Pos(col, i)] == col[Pos(col, i)]
    ensures var t' := tt[Pos(col, i) := tt[Pos(col, i)] + 256 * i];
            forall k :: 0 <= k < |col| ==> t'[k] == col[k] || (t'[k] / 256 < i + 1 && Pos(col, t'[k] / 256) == k)
  {
    hide Pos, Below, Count;
    StoredAbove(col[Pos(col, i)], i);
  }

  lemma LinkStep(col: seq<Byte>, tt: seq<int>, cf: seq<int>, i: int)
    requires Linking(col, tt, cf, i) && i < |col|
    ensures var k := cf[col[i]];
            k == Pos(col, i) && 0 <= k < |col| && tt[k] == col[k]
            && Linking(col, tt[k := tt[k] + 256 * i], cf[col[i] := k + 1], i + 1)
  {
    hide *;
    LinkingSizes(col, tt, cf, i);
    RoomInColumn(col, i);
    SlotFree(col, tt, cf, i);
    var k := Pos(col, i);
    var t' := tt[k := tt[k] + 256 * i];
    FinishedAfter(col, tt, cf, i);
    LinkedAfter(col, tt, cf, i);
    LowBytesAfter(col, tt, cf, i);
    UnlinkedAfter(col, tt, cf, i);
    LinkingJoin(col, t', cf[col[i] := k + 1], i + 1);
  }

  /** Builds tt in place: each entry keeps its byte in the low eight bits and gets its link above them. */
  method LinkFast(tt: array<int>, cftab: array<int>, nblock: int, ghost col: seq<Byte>)
    requires tt != cftab && cftab.Length == 257 && tt.Length == nblock == |col|
    requires (forall k :: 0 <= k < nblock ==> tt[k] == col[k]) && forall c :: 0 <= c < 257 ==> cftab[c] == Below(col, c)
    modifies tt, cftab
    ensures forall k :: 0 <= k < nblock ==> tt[k] == col[k] + 256 * Links(col)[k]
  {
    hide *;
    var i := 0;
    LinkStart(col, tt[..], cftab[..]);
    while i < nblock
      invariant 0 <= i <= nblock && Linking(col, tt[..], cftab[..], i)
    {
      LinkOne(tt, cftab, i, col);
      i := i + 1;
    }
    LinkDone(col, tt[..], cftab[..]);
  }

  method LinkOne(tt: array<int>, cftab: array<int>, i: int, ghost col: seq<Byte>)
    requires tt != cftab && cftab.Length == 257 && 0 <= i < tt.Length == |col| && Linking(col, tt[..], cftab[..], i)
    modifies tt, cftab
    ensures Linking(col, tt[..], cftab[..], i + 1)
  {
    hide *;
    LinkStep(col, tt[..], cftab[..], i);
    LinkByte(col, tt[..], cftab[..], i);
    var uc := tt[i] % 256;
    var k := cftab[uc];
    tt[k] := tt[k] + 256 * i; // the upper bits of this entry are still clear, so the |= of the source is an addition
    cftab[uc] := k + 1;
  }

  lemma LinkStart(col: seq<Byte>, tt: seq<int>, cf: seq<int>)
    requires |tt| == |col| && |cf| == 257
    requires (forall k :: 0 <= k < |tt| ==> tt[k] == col[k]) && forall c :: 0 <= c < 257 ==> cf[c] == Below(col, c)
    ensures Linking(col, tt, cf, 0)
  {
    assert col[..0] == [];
  }

  lemma LinkByte(col: seq<Byte>, tt: seq<int>, cf: seq<int>, i: int)
    requires Linking(col, tt, cf, i) && i < |col| == |tt|
    ensures tt[i] % 256 == col[i]
  {
  }

  lemma LinkDone(col: seq<Byte>, tt: seq<int>, cf: seq<int>)
    requires Linking(col, tt, cf, |col|)
    ensures forall k :: 0 <= k < |col| ==> tt[k] == col[k] + 256 * Links(col)[k]
  {
    LinksStable(col);
    forall k | 0 <= k < |col| ensures tt[k] == col[k] + 256 * Links(col)[k] {
      assert tt[Pos(col, Links(col)[k])] / 256 == Links(col)[k];
    }
  }

  // ---- the low-memory decoder ----

  /** GET_LL4: the low nibble serves even positions, the high nibble odd ones. */
  function Nibble(ll4: seq<Byte>, i: int): (v: int)
    requires 0 <= i / 2 < |ll4|
    ensures 0 <= v < 16
  {
    if i % 2 == 0 then ll4[i / 2] % 16 else ll4[i / 2] / 16
  }

  /** The 20-bit numbers kept in ll16 and ll4. */
  ghost function Entries(ll16: seq<int>, ll4: seq<Byte>): (e: seq<int>)
    requires |ll4| == (1 + |ll16|) / 2
    ensures |e| == |ll16|
  {
    seq(|ll16|, i requires 0 <= i < |ll16| => ll16[i] + 65536 * Nibble(ll4, i))
  }

  /** SET_LL: sixteen bits to ll16, four to the right half of a byte of ll4. */
  method SetLL(ll16: array<int>, ll4: array<Byte>, i: int, n: int)
    requires ll4.Length == (1 + ll16.Length) / 2 && 0 <= i < ll16.Length && 0 <= n < 0x10_0000
    modifies ll16, ll4
    ensures Entries(ll16[..], ll4[..]) == Entries(old(ll16[..]), old(ll4[..]))[i := n]
    ensures forall k :: 0 <= k < ll16.Length && k != i ==> ll16[k] == old(ll16[k])
  {
    ghost var was16, was4 := ll16[..], ll4[..];
    ll16[i] := n % 65536;
    var hi := n / 65536;
    NibbleSet(was4, i, hi);
    hide Nibble;
    if i % 2 == 0 {
      ll4[i / 2] := ll4[i / 2] / 16 * 16 + hi;
    } else {
      ll4[i / 2] := ll4[i / 2] % 16 + 16 * hi;
    }
    EntrySet(was16, was4, ll16[..], ll4[..], i, n);
  }

  /** A nibble stored, and the other nibble of its byte kept. */
  lemma NibbleSet(ll4: seq<Byte>, i: int, hi: int)
    requires 0 <= i / 2 < |ll4| && 0 <= hi < 16
    ensures var v := if i % 2 == 0 then ll4[i / 2] / 16 * 16 + hi else ll4[i / 2] % 16 + 16 * hi;
            0 <= v < 256 && forall k :: 0 <= k / 2 < |ll4| ==> Nibble(ll4[i / 2 := v], k) == if k == i then hi else Nibble(ll4, k)
  {
  }

  lemma EntrySet(ll16: seq<int>, ll4: seq<Byte>, to16: seq<int>, to4: seq<Byte>, i: int, n: int)
    requires |to16| == |ll16| && |to4| == |ll4| == (1 + |ll16|) / 2 && 0 <= i < |ll16| && to16 == ll16[i := n % 65536]
    requires forall k :: 0 <= k / 2 < |ll4| ==> Nibble(to4, k) == if k == i then n / 65536 else Nibble(ll4, k)
    ensures Entries(to16, to4) == Entries(ll16, ll4)[i := n]
  {
    hide Nibble;
    assert n % 65536 + 65536 * (n / 65536) == n;
  }

  /** GET_LL. */
  method GetLL(ll16: array<int>, ll4: array<Byte>, i: int) returns (n: int)
    requires ll4.Length == (1 + ll16.Length) / 2 && 0 <= i < ll16.Length
    ensures n == Entries(ll16[..], ll4[..])[i]
  {
    n := ll16[i] + 65536 * Nibble(ll4[..], i);
  }

  /** The forward linking pass after i positions. */
  ghost predicate Pointing(col: seq<Byte>, ll16: seq<int>, e: seq<int>, cf: seq<int>, i: int) {
    0 <= i <= |col| == |ll16| == |e| && |cf| == 257
    && (forall c :: 0 <= c < 256 ==> cf[c] == Below(col, c) + Count(col[..i], c))
    && (forall k :: i <= k < |col| ==> ll16[k] == col[k])
    && forall x :: 0 <= x < i ==> e[x] == Pos(col, x)
  }

  lemma PointStep(col: seq<Byte>, ll16: seq<int>, e: seq<int>, cf: seq<int>, ll16': seq<int>, i: int)
    requires Pointing(col, ll16, e, cf, i) && i < |col| && |ll16'| == |ll16|
    requires forall k :: 0 <= k < |ll16| && k != i ==> ll16'[k] == ll16[k]
    ensures var k := cf[col[i]];
            0 <= k < |col| && k == Pos(col, i) && Pointing(col, ll16', e[i := k], cf[col[i] := k + 1], i + 1)
  {
    PosRange(col, i);
    forall c ensures Count(col[..i + 1], c) == Count(col[..i], c) + if col[i] == c then 1 else 0 { BelowStep(col, i, c); }
  }

  /** Replaces each byte by the forward link of its position. */
  method LinkSmall(ll16: array<int>, ll4: array<Byte>, cftab: array<int>, cftabCopy: array<int>, nblock: int, ghost col: seq<Byte>)
    requires ll16 != cftab && ll16 != cftabCopy && cftab != cftabCopy && cftab.Length == cftabCopy.Length == 257
    requires ll16.Length == nblock == |col| <= 0x10_0000 && ll4.Length == (1 + nblock) / 2
    requires (forall k :: 0 <= k < nblock ==> ll16[k] == col[k]) && forall c :: 0 <= c < 257 ==> cftab[c] == Below(col, c)
    modifies ll16, ll4, cftabCopy
    ensures Entries(ll16[..], ll4[..]) == Forward(col)
  {
    var i := 0;
    while i <= 256
      invariant 0 <= i <= 257 && forall c :: 0 <= c < i ==> cftabCopy[c] == cftab[c]
      invariant ll16[..] == old(ll16[..])
    {
      cftabCopy[i] := cftab[i];
      i := i + 1;
    }
    i := 0;
    assert col[..0] == [];
    assert Pointing(col, ll16[..], Entries(ll16[..], ll4[..]), cftabCopy[..], 0);
    while i < nblock
      invariant 0 <= i <= nblock && Pointing(col, ll16[..], Entries(ll16[..], ll4[..]), cftabCopy[..], i)
    {
      ghost var was, e := ll16[..], Entries(ll16[..], ll4[..]);
      assert ll16[i] == col[i];
      PointStep(col, was, e, cftabCopy[..], was, i);
      hide Pointing, Pos, Entries, Below, Count;
      var uc := ll16[i];
      SetLL(ll16, ll4, i, cftabCopy[uc]);
      PointStep(col, was, e, cftabCopy[..], ll16[..], i);
      cftabCopy[uc] := cftabCopy[uc] + 1;
      i := i + 1;
    }
  }

  /** done is the part of the cycle through origPtr already reversed; i is its newest member. */
  ghost predicate Reversing(pos: seq<int>, T: seq<int>, e: seq<int>, origPtr: int, i: int, done: set<int>) {
    |T| == |pos| == |e| && IsPerm(pos, |pos|) && (forall x :: 0 <= x < |pos| ==> 0 <= T[x] < |T| && pos[T[x]] == x && T[pos[x]] == x)
    && 0 <= origPtr < |pos| && 0 <= i < |pos| && (forall y :: y in done ==> 0 <= y < |pos|)
    && (if i == origPtr then done == {} else i in done && origPtr !in done)
    && (forall y :: 0 <= y < |pos| ==> e[y] == if y in done then T[y] else pos[y])
    && forall y :: y in done ==> (T[y] in done || T[y] == origPtr) && T[y] != i
  }

  /** The cycle through origPtr has been reversed: inside a set closed under the inverse links, the entries are those links. */
  ghost predicate Reversed(T: seq<int>, e: seq<int>, origPtr: int, done: set<int>) {
    |e| == |T| && origPtr in done && forall y :: y in done ==> 0 <= y < |T| && e[y] == T[y] && T[y] in done
  }

  lemma ReverseStart(col: seq<Byte>, origPtr: int)
    requires 0 <= origPtr < |col|
    ensures Reversing(Forward(col), Links(col), Forward(col), origPtr, origPtr, {})
  {
    ForwardPerm(col);
    LinksStable(col);
  }

  lemma ReverseStep(pos: seq<int>, T: seq<int>, e: seq<int>, origPtr: int, i: int, done: set<int>)
    requires Reversing(pos, T, e, origPtr, i, done)
    ensures 0 <= i < |pos| == |T| == |e|
    ensures var j := pos[i];
            0 <= j < |pos| && j !in done && e[j] == pos[j]
            && (j != origPtr ==> Reversing(pos, T, e[j := i], origPtr, j, done + {j}))
            && (j == origPtr ==> Reversed(T, e[j := i], origPtr, done + {j}))
  {
    var j := pos[i];
    assert T[j] == i && j !in done;
    if j == origPtr { LastReversed(pos, T, e, origPtr, i, done); } else { OneReversed(pos, T, e, origPtr, i, done); }
  }

  lemma OneReversed(pos: seq<int>, T: seq<int>, e: seq<int>, origPtr: int, i: int, done: set<int>)
    requires Reversing(pos, T, e, origPtr, i, done) && 0 <= pos[i] < |pos| && pos[i] != origPtr && pos[i] !in done && T[pos[i]] == i
    ensures Reversing(pos, T, e[pos[i] := i], origPtr, pos[i], done + {pos[i]})
  {
    hide IsPerm;
    var j, e', done' := pos[i], e[pos[i] := i], done + {pos[i]};
    assert forall y :: 0 <= y < |pos| ==> e'[y] == if y in done' then T[y] else pos[y];
    forall y | y in done' ensures (T[y] in done' || T[y] == origPtr) && T[y] != j {}
  }

  lemma LastReversed(pos: seq<int>, T: seq<int>, e: seq<int>, origPtr: int, i: int, done: set<int>)
    requires Reversing(pos, T, e, origPtr, i, done) && pos[i] == origPtr && T[origPtr] == i
    ensures 0 <= origPtr < |e| && Reversed(T, e[origPtr := i], origPtr, done + {origPtr})
  {
    hide IsPerm;
    var e', done' := e[origPtr := i], done + {origPtr};
    forall y | y in done' ensures 0 <= y < |T| && e'[y] == T[y] && T[y] in done' {}
  }

  ghost function Positions(n: nat): (s: set<int>)
    ensures forall x :: x in s <==> 0 <= x < n
  {
    if n == 0 then {} else Positions(n - 1) + {n - 1}
  }

  /** Reverses the cycle of links through origPtr in place; it ends because the links are a permutation. */
  method ReversePointers(ll16: array<int>, ll4: array<Byte>, origPtr: int, ghost col: seq<Byte>) returns (ghost done: set<int>)
    requires ll16.Length == |col| <= 0x10_0000 && ll4.Length == (1 + ll16.Length) / 2 && 0 <= origPtr < |col|
    requires Entries(ll16[..], ll4[..]) == Forward(col)
    modifies ll16, ll4
    ensures Reversed(Links(col), Entries(ll16[..], ll4[..]), origPtr, done)
  {
    hide *;
    ghost var pos, T := Forward(col), Links(col);
    ReverseStart(col, origPtr);
    done := {};
    var i := origPtr;
    var j := GetLL(ll16, ll4, i);
    var more := true;
    while more // do .. while (i != origPtr)
      invariant more ==> 0 <= i < |pos| && Reversing(pos, T, Entries(ll16[..], ll4[..]), origPtr, i, done) && j == pos[i]
      invariant !more ==> Reversed(T, Entries(ll16[..], ll4[..]), origPtr, done)
      decreases Positions(|col|) - done, more
    {
      ghost var e := Entries(ll16[..], ll4[..]);
      ReverseStep(pos, T, e, origPtr, i, done);
      assert j in Positions(|col|);
      var tmp := GetLL(ll16, ll4, j);
      SetLL(ll16, ll4, j, i);
      done := done + {j};
      i := j;
      j := tmp;
      more := i != origPtr;
    }
  }

  /** BZ2_indexIntoF: the character group that row indx of the sorted column falls into. */
  method IndexIntoF(indx: int, cftab: array<int>) returns (nb: int)
    requires cftab.Length == 257 && cftab[0] <= indx < cftab[256]
    ensures 0 <= nb < 256 && cftab[nb] <= indx < cftab[nb + 1]
  {
    nb := 0;
    var na := 256;
    while na - nb != 1 // the source tests after the first halving; both ends start 256 apart
      invariant 0 <= nb < na <= 256 && cftab[nb] <= indx < cftab[na]
    {
      var mid := (nb + na) / 2;
      if indx >= cftab[mid] { nb := mid; } else { na := mid; }
    }
  }

  /** The group a row falls into is the byte at the end of its link. */
  lemma GroupIsByte(col: seq<Byte>, k: int, c: int)
    requires 0 <= k < |col| && Below(col, c) <= k < Below(col, c + 1)
    ensures 0 <= Links(col)[k] < |col| && col[Links(col)[k]] == c
  {
    LinksStable(col);
    var x := Links(col)[k];
    PosRange(col, x);
    var d: int := col[x];
    if d < c { BelowMonotone(col, d + 1, c); }
    if c < d { BelowMonotone(col, c + 1, d); }
  }
}
