/** The selectors, moved to front and sent in unary, and the code lengths, sent as steps up and down. */
module CodingTables {
  import opened Common
  import opened BitStream
  import opened MtfTable
  import opened HuffmanCodes
  import opened BlockHeader

  const BZ_N_GROUPS := 6
  const BZ_MAX_SELECTORS := 2 + 900000 / 50

  // ---- selectors as places in a moving list ----

  ghost predicate Places(n: int, moves: seq<int>) {
    forall k :: 0 <= k < |moves| ==> 0 <= moves[k] < n
  }

  /** The list of n tables after the places in moves have been moved to the front, one after the other. */
  ghost function ListAfter(n: nat, moves: seq<int>): (list: seq<int>)
    requires Places(n, moves)
    ensures |list| == n
  {
    if moves == [] then seq(n, i => i) else MoveFront(ListAfter(n, moves[..|moves| - 1]), moves[|moves| - 1])
  }

  /** Each selector is the table at its place in the list as it stands then. */
  ghost predicate Selected(n: nat, moves: seq<int>, selector: seq<int>) {
    |moves| == |selector| && Places(n, moves)
    && forall i :: 0 <= i < |moves| ==> selector[i] == ListAfter(n, moves[..i])[moves[i]]
  }

  lemma {:induction false} ListHolds(n: nat, moves: seq<int>, v: int)
    requires Places(n, moves) && 0 <= v < n
    ensures v in ListAfter(n, moves)
  {
    if moves == [] {
      assert ListAfter(n, moves)[v] == v;
    } else {
      var k := |moves| - 1;
      ListHolds(n, moves[..k], v);
      var list := ListAfter(n, moves[..k]);
      assert list == list[..moves[k]] + [list[moves[k]]] + list[moves[k] + 1..];
    }
  }

  lemma SelectOne(n: nat, moves: seq<int>, selector: seq<int>, j: int, t: int)
    requires Selected(n, moves, selector) && 0 <= j < n && t == ListAfter(n, moves)[j]
    ensures Selected(n, moves + [j], selector + [t]) && Places(n, moves + [j]) && ListAfter(n, moves + [j]) == MoveFront(ListAfter(n, moves), j)
  {
    assert (moves + [j])[..|moves|] == moves;
    forall i | 0 <= i <= |moves| ensures (selector + [t])[i] == ListAfter(n, (moves + [j])[..i])[(moves + [j])[i]] {
      assert i < |moves| ==> (moves + [j])[..i] == moves[..i];
    }
  }

  /** The places determine the selectors. */
  lemma SelectorsRestored(n: nat, moves: seq<int>, sent: seq<int>, received: seq<int>)
    requires Selected(n, moves, sent) && Selected(n, moves, received)
    ensures sent == received
  {
  }

  /** Finds table t in the list, moving the entries before it up on the way, and puts it in front. */
  method FindTable(pos: array<Byte>, t: Byte, ghost n: nat) returns (j: nat)
    requires n <= pos.Length && t in pos[..n]
    modifies pos
    ensures j < n && old(pos[j]) == t && pos[..n] == MoveFront(old(pos[..n]), j)
  {
    ghost var was := pos[..n];
    ghost var at: int :| 0 <= at < n && was[at] == t;
    j := 0;
    var tmp := pos[j];
    while t != tmp
      invariant 0 <= j <= at && tmp == was[j] && pos[0] == was[0]
      invariant (forall x, y :: 1 <= x <= j && y == x - 1 ==> pos[x] == was[y]) && (forall x :: j < x < n ==> pos[x] == was[x])
      decreases at - j
    {
      j := j + 1;
      var tmp2 := tmp;
      tmp := pos[j];
      pos[j] := tmp2;
    }
    pos[0] := tmp;
    Rotated(was, pos[..n], j);
  }

  lemma Rotated(was: seq<int>, now: seq<int>, j: int)
    requires |was| == |now| && 0 <= j < |was| && now[0] == was[j]
    requires (forall x, y :: 1 <= x <= j && y == x - 1 ==> now[x] == was[y]) && (forall x :: j < x < |was| ==> now[x] == was[x])
    ensures now == MoveFront(was, j)
  {
    forall x | 0 <= x < |was| ensures now[x] == MoveFront(was, j)[x] {
      MovedAt(was, j, x);
      if 1 <= x <= j { var y := x - 1; assert now[x] == was[y]; }
    }
  }

  method FirstTables(pos: array<Byte>, nGroups: nat)
    requires nGroups <= pos.Length && nGroups <= 6
    modifies pos
    ensures pos[..nGroups] == ListAfter(nGroups, [])
  {
    var i := 0;
    while i < nGroups
      invariant 0 <= i <= nGroups && forall k :: 0 <= k < i ==> pos[k] == k
    {
      pos[i] := i;
      i := i + 1;
    }
  }

  /** One selector's place. */
  method MoveSelector(selector: array<Byte>, selectorMtf: array<Byte>, i: nat, nGroups: nat, pos: array<Byte>)
    requires selector != selectorMtf && selectorMtf != pos && selector != pos && i < selector.Length && i < selectorMtf.Length
    requires nGroups <= pos.Length && nGroups <= BZ_N_GROUPS && selector[i] < nGroups
    requires Selected(nGroups, selectorMtf[..i], selector[..i]) && pos[..nGroups] == ListAfter(nGroups, selectorMtf[..i])
    modifies selectorMtf, pos
    ensures Selected(nGroups, selectorMtf[..i + 1], selector[..i + 1]) && pos[..nGroups] == ListAfter(nGroups, selectorMtf[..i + 1])
  {
    ghost var moves, sel, t: seq<int> := selectorMtf[..i], selector[..i], [];
    ListHolds(nGroups, moves, selector[i]);
    var j := FindTable(pos, selector[i], nGroups);
    SelectOne(nGroups, moves, sel, j, selector[i]);
    hide Selected, ListAfter;
    selectorMtf[i] := j;
    assert selectorMtf[..i + 1] == moves + [j];
    assert selector[..i + 1] == sel + [selector[i]];
  }

  /** Computes the selectors' places for sending. */
  method MoveSelectors(selector: array<Byte>, selectorMtf: array<Byte>, nSelectors: nat, nGroups: nat)
    requires selector != selectorMtf && nSelectors <= selector.Length && nSelectors <= selectorMtf.Length && nGroups <= BZ_N_GROUPS
    requires forall i :: 0 <= i < nSelectors ==> selector[i] < nGroups
    modifies selectorMtf
    ensures Selected(nGroups, selectorMtf[..nSelectors], selector[..nSelectors])
  {
    var pos := new Byte[BZ_N_GROUPS](_ => 0);
    FirstTables(pos, nGroups);
    var i := 0;
    while i < nSelectors
      invariant 0 <= i <= nSelectors && Selected(nGroups, selectorMtf[..i], selector[..i])
      invariant pos[..nGroups] == ListAfter(nGroups, selectorMtf[..i])
      modifies selectorMtf, pos
    {
      MoveSelector(selector, selectorMtf, i, nGroups, pos);
      i := i + 1;
    }
  }

  lemma SixGroups()
    ensures BZ_N_GROUPS == 6
  {
  }

  lemma NoneSelected(n: nat)
    ensures Selected(n, [], []) && Places(n, [])
  {
  }

  /** Turns received places back into selectors. */
  method UndoSelectors(selector: array<Byte>, selectorMtf: array<Byte>, nSelectors: nat, nGroups: nat)
    requires selector != selectorMtf && nSelectors <= selector.Length && nSelectors <= selectorMtf.Length && nGroups <= BZ_N_GROUPS
    requires forall i :: 0 <= i < nSelectors ==> selectorMtf[i] < nGroups
    modifies selector
    ensures Selected(nGroups, selectorMtf[..nSelectors], selector[..nSelectors])
  {
    hide Selected, ListAfter;
    SixGroups();
    var pos := new Byte[BZ_N_GROUPS](_ => 0);
    FirstTables(pos, nGroups);
    NoneSelected(nGroups);
    assert selectorMtf[..0] == selector[..0] == [];
    var i := 0;
    while i < nSelectors
      invariant 0 <= i <= nSelectors && Selected(nGroups, selectorMtf[..i], selector[..i])
      invariant pos[..nGroups] == ListAfter(nGroups, selectorMtf[..i])
      modifies selector, pos
    {
      ghost var moves, sel := selectorMtf[..i], selector[..i];
      var v := selectorMtf[i];
      var tmp := pos[v];
      SelectOne(nGroups, moves, sel, v, tmp);
      PutInFront(pos, v, nGroups);
      ghost var list := pos[..nGroups];
      selector[i] := tmp;
      assert pos[..nGroups] == list;
      assert list == ListAfter(nGroups, moves + [v]);
      assert selectorMtf[..i + 1] == moves + [v];
      assert selector[..i + 1] == sel + [tmp];
      i := i + 1;
    }
  }

  method PutInFront(pos: array<Byte>, j: nat, ghost n: nat)
    requires j < n <= pos.Length
    modifies pos
    ensures pos[..n] == MoveFront(old(pos[..n]), j)
  {
    ghost var was := pos[..n];
    var v, tmp := j, pos[j];
    while v > 0
      invariant 0 <= v <= j
      invariant (forall x, y :: v < x <= j && y == x - 1 ==> pos[x] == was[y]) && (forall x :: 0 <= x <= v ==> pos[x] == was[x])
      invariant forall x :: j < x < n ==> pos[x] == was[x]
    {
      pos[v] := pos[v - 1];
      v := v - 1;
    }
    pos[0] := tmp;
    Rotated(was, pos[..n], j);
  }

  // ---- selectors on the wire ----

  function Unary(j: nat): seq<bool> {
    if j == 0 then [false] else [true] + Unary(j - 1)
  }

  ghost function UnaryFrom(moves: seq<int>, i: nat): seq<bool>
    requires Places(BZ_N_GROUPS, moves) && i <= |moves|
    decreases |moves| - i
  {
    if i == |moves| then [] else Unary(moves[i]) + UnaryFrom(moves, i + 1)
  }

  /** The number of tables, the number of selectors, and the selectors' places. */
  ghost function SelectorBits(nGroups: nat, moves: seq<int>): seq<bool>
    requires Places(BZ_N_GROUPS, moves)
  {
    BitsOf(nGroups, 3) + (BitsOf(|moves|, 15) + UnaryFrom(moves, 0))
  }

  method SendUnary(w: BitWriter, n: nat)
    requires w.Valid()
    modifies w
    ensures w.Valid() && w.Bits() == old(w.Bits()) + Unary(n)
  {
    hide BitWriter.Bits, Aligned;
    ghost var all := w.Bits() + Unary(n);
    var j := 0;
    while j < n
      invariant 0 <= j <= n && w.Valid() && w.Bits() + Unary(n - j) == all
    {
      Assoc(w.Bits(), [true], Unary(n - j - 1));
      PutBit(w, true);
      j := j + 1;
    }
    PutBit(w, false);
  }

  method SendSelectors(w: BitWriter, nGroups: nat, nSelectors: nat, selectorMtf: array<Byte>)
    requires w.Valid() && nGroups <= BZ_N_GROUPS && nSelectors <= selectorMtf.Length && nSelectors < 0x8000 && Places(nGroups, selectorMtf[..nSelectors])
    modifies w
    ensures w.Valid() && w.Bits() == old(w.Bits()) + SelectorBits(nGroups, selectorMtf[..nSelectors])
  {
    hide BitWriter.Bits, Aligned, BitsOf;
    ghost var moves: seq<int> := selectorMtf[..nSelectors];
    Widths();
    ghost var start := w.Bits();
    w.W(3, nGroups);
    w.W(15, nSelectors);
    ghost var all := w.Bits() + UnaryFrom(moves, 0);
    var i := 0;
    while i < nSelectors
      invariant 0 <= i <= nSelectors && w.Valid() && w.Bits() + UnaryFrom(moves, i) == all
    {
      Assoc(w.Bits(), Unary(moves[i]), UnaryFrom(moves, i + 1));
      SendUnary(w, selectorMtf[i]);
      i := i + 1;
    }
    assert w.Bits() + [] == w.Bits();
    Assoc(start, BitsOf(nGroups, 3), BitsOf(nSelectors, 15));
    Assoc(start, BitsOf(nGroups, 3), BitsOf(nSelectors, 15) + UnaryFrom(moves, 0));
    Assoc(start + BitsOf(nGroups, 3), BitsOf(nSelectors, 15), UnaryFrom(moves, 0));
  }

  lemma Widths()
    ensures Pow2(3) == 8 && Pow2(5) == 32 && Pow2(15) == 0x8000 && Pow2(2) == 4
  {
    assert Pow2(5) == 32;
    Pow2Add(5, 5);
    Pow2Add(10, 5);
  }

  /** Set bits before the first clear one. */
  function Ones(bits: seq<bool>): (j: nat)
    ensures j <= |bits|
  {
    if bits == [] || !bits[0] then 0 else 1 + Ones(bits[1..])
  }

  /** The bits begin with k places of a list of n. */
  ghost predicate Readable(bits: seq<bool>, n: nat, k: nat)
    decreases k
  {
    k == 0 || (Ones(bits) < |bits| && Ones(bits) < n && Readable(bits[Ones(bits) + 1..], n, k - 1))
  }

  lemma {:induction false} OnesOfUnary(m: nat, after: seq<bool>)
    ensures Ones(Unary(m) + after) == m && |Unary(m)| == m + 1
  {
    if m > 0 {
      OnesOfUnary(m - 1, after);
      assert (Unary(m) + after)[1..] == Unary(m - 1) + after;
    }
  }

  /** Places that were sent can be read, as many as there are. */
  lemma {:induction false} SentReadable(n: nat, moves: seq<int>, i: nat, k: nat, rest: seq<bool>)
    requires n <= BZ_N_GROUPS && Places(n, moves) && i + k <= |moves|
    ensures Readable(UnaryFrom(moves, i) + rest, n, k)
    decreases k
  {
    hide UnaryFrom, Ones;
    if k > 0 {
      NextPlace(moves, i, rest);
      SentReadable(n, moves, i + 1, k - 1, rest);
    }
  }

  /** Reading selectors from these bits stores one more than the table holds: there is a legal number of tables, the
      fifteen bits name too many selectors, and the first one beyond the table is still there to be read. */
  ghost predicate Overruns(bits: seq<bool>) {
    |bits| >= 18 && 2 <= Value(bits[..3]) <= BZ_N_GROUPS && Value(bits[3..18]) > BZ_MAX_SELECTORS
    && Readable(bits[18..], Value(bits[..3]), BZ_MAX_SELECTORS + 1)
  }

  /** Selectors that were sent overrun the table if and only if there are more of them than it holds. */
  lemma OverrunsWhen(n: nat, moves: seq<int>, rest: seq<bool>)
    requires 2 <= n <= BZ_N_GROUPS && |moves| < 0x8000 && Places(n, moves)
    ensures Overruns(SelectorBits(n, moves) + rest) <==> |moves| > BZ_MAX_SELECTORS
  {
    Widths();
    var bits, a, b, c := SelectorBits(n, moves) + rest, BitsOf(n, 3), BitsOf(|moves|, 15), UnaryFrom(moves, 0) + rest;
    ValueOfBits(n, 3);
    ValueOfBits(|moves|, 15);
    hide BitsOf, Pow2, Value, UnaryFrom, Readable;
    Assoc(a, b + UnaryFrom(moves, 0), rest);
    Assoc(b, UnaryFrom(moves, 0), rest);
    ThreeFields(a, b, c);
    if |moves| > BZ_MAX_SELECTORS { SentReadable(n, moves, 0, BZ_MAX_SELECTORS + 1, rest); }
  }

  /** Reads the number of tables and the selectors' places; for every input it says whether the table is overrun. */
  method ReceiveSelectors(reader: BitReader, selectorMtf: array<Byte>, ghost x: nat, ghost moves: seq<int>, ghost rest: seq<bool>)
    returns (r: Status, nGroups: nat, nSelectors: nat)
    requires reader.Valid() && selectorMtf.Length == BZ_MAX_SELECTORS
    modifies reader, selectorMtf
    ensures reader.Valid()
    ensures r == Overrun <==> Overruns(old(reader.Bits()))
    ensures r == Good ==> 2 <= nGroups <= BZ_N_GROUPS && 1 <= nSelectors <= BZ_MAX_SELECTORS && Places(nGroups, selectorMtf[..nSelectors])
    ensures 2 <= x <= BZ_N_GROUPS && 1 <= |moves| < 0x8000 && Places(x, moves) && old(reader.Bits()) == SelectorBits(x, moves) + rest ==>
              if |moves| > BZ_MAX_SELECTORS then r == Overrun
              else r == Good && nGroups == x && selectorMtf[..nSelectors] == moves && reader.Bits() == rest
  {
    hide BitReader.Bits, LowBits, BitsOf, Pow2, Value, Readable;
    Widths();
    ghost var expected := 2 <= x <= BZ_N_GROUPS && 1 <= |moves| < 0x8000 && Places(x, moves) && reader.Bits() == SelectorBits(x, moves) + rest;
    ghost var all := reader.Bits();
    nGroups, nSelectors := 0, 0;
    var v := reader.Get(3);
    if expected {
      OverrunsWhen(x, moves, rest);
      Assoc(BitsOf(x, 3), BitsOf(|moves|, 15) + UnaryFrom(moves, 0), rest);
      Assoc(BitsOf(|moves|, 15), UnaryFrom(moves, 0), rest);
      TakeNumber(all, x, 3, BitsOf(|moves|, 15) + (UnaryFrom(moves, 0) + rest), v, reader.Bits());
    }
    if v.None? { return NoInput, nGroups, nSelectors; }
    nGroups := v.value;
    if nGroups < 2 || nGroups > 6 { return DataError, nGroups, nSelectors; }
    ghost var bits := reader.Bits();
    v := reader.Get(15);
    if expected { TakeNumber(bits, |moves|, 15, UnaryFrom(moves, 0) + rest, v, reader.Bits()); }
    if v.None? { return NoInput, nGroups, nSelectors; }
    Fields(all);
    nSelectors := v.value;
    if nSelectors < 1 { return DataError, nGroups, nSelectors; }
    r := ReceivePlaces(reader, selectorMtf, nGroups, nSelectors, moves, rest, expected);
  }

  lemma ThreeFields(a: seq<bool>, b: seq<bool>, c: seq<bool>)
    requires |a| == 3 && |b| == 15
    ensures var bits := a + (b + c); |bits| >= 18 && bits[..3] == a && bits[3..18] == b && bits[18..] == c
  {
  }

  /** Three bits, then fifteen, then the others. */
  lemma Fields(all: seq<bool>)
    requires |all| >= 18
    ensures all[3..][..15] == all[3..18] && all[3..][15..] == all[18..]
  {
  }

  method ReceivePlaces(reader: BitReader, selectorMtf: array<Byte>, nGroups: nat, nSelectors: nat, ghost moves: seq<int>, ghost rest: seq<bool>, ghost expected: bool)
    returns (r: Status)
    requires reader.Valid() && 1 <= nGroups <= BZ_N_GROUPS
    requires expected ==> |moves| == nSelectors && Places(nGroups, moves) && reader.Bits() == UnaryFrom(moves, 0) + rest
    modifies reader, selectorMtf
    ensures reader.Valid()
    ensures r == Overrun <==> nSelectors > selectorMtf.Length && Readable(old(reader.Bits()), nGroups, selectorMtf.Length + 1)
    ensures r == Good ==> nSelectors <= selectorMtf.Length && Places(nGroups, selectorMtf[..nSelectors])
    ensures expected && nSelectors <= selectorMtf.Length ==> r == Good && selectorMtf[..nSelectors] == moves && reader.Bits() == rest
  {
    hide BitReader.Bits, LowBits, Ones, Unary;
    var i := 0;
    ghost var all, most := reader.Bits(), selectorMtf.Length + 1;
    while i < nSelectors
      invariant 0 <= i <= nSelectors && i < most && reader.Valid() && Places(nGroups, selectorMtf[..i])
      invariant Readable(all, nGroups, most) <==> Readable(reader.Bits(), nGroups, most - i)
      invariant expected ==> selectorMtf[..i] == moves[..i] && reader.Bits() == UnaryFrom(moves, i) + rest
    {
      if expected { NextPlace(moves, i, rest); }
      var j;
      r, j := ReceiveUnary(reader, nGroups);
      if r != Good { return; }
      if i == selectorMtf.Length { return Overrun; }
      ghost var was := selectorMtf[..i];
      selectorMtf[i] := j;
      assert selectorMtf[..i + 1] == was + [j];
      assert expected ==> moves[..i + 1] == moves[..i] + [moves[i]];
      i := i + 1;
    }
    assert expected ==> moves[..nSelectors] == moves && [] + rest == rest;
    return Good;
  }

  /** The next place that was sent is the next one read. */
  lemma NextPlace(moves: seq<int>, i: nat, rest: seq<bool>)
    requires Places(BZ_N_GROUPS, moves) && i < |moves|
    ensures var bits := UnaryFrom(moves, i) + rest;
            Ones(bits) == moves[i] < |bits| && bits[moves[i] + 1..] == UnaryFrom(moves, i + 1) + rest
  {
    var after := UnaryFrom(moves, i + 1) + rest;
    OnesOfUnary(moves[i], after);
    Assoc(Unary(moves[i]), UnaryFrom(moves, i + 1), rest);
    hide Unary, Ones;
    assert (Unary(moves[i]) + after)[moves[i] + 1..] == after;
  }

  /** One place: set bits up to a clear one, fewer than there are tables. */
  method ReceiveUnary(reader: BitReader, nGroups: nat) returns (r: Status, j: nat)
    requires reader.Valid() && nGroups >= 1
    modifies reader
    ensures reader.Valid() && r != Overrun
    ensures r == Good <==> Ones(old(reader.Bits())) < |old(reader.Bits())| && Ones(old(reader.Bits())) < nGroups
    ensures r == Good ==> j == Ones(old(reader.Bits())) && reader.Bits() == old(reader.Bits())[j + 1..]
  {
    hide BitReader.Bits, LowBits;
    ghost var all := reader.Bits();
    j := 0;
    while true
      invariant 0 <= j < nGroups && j <= |all| && reader.Valid() && reader.Bits() == all[j..] && Ones(all) == j + Ones(all[j..])
      decreases nGroups - j
    {
      var ok, b := GetBit(reader);
      if !ok { return NoInput, j; }
      assert all[j..][1..] == all[j + 1..];
      if !b { break; }
      j := j + 1;
      if j >= nGroups { return DataError, j; }
    }
    return Good, j;
  }

  // ---- code lengths ----

  /** Steps from the current length to the next: 10 goes up, 11 goes down. */
  function Steps(curr: int, l: int): seq<bool>
    decreases if curr < l then l - curr else curr - l
  {
    if curr < l then [true, false] + Steps(curr + 1, l) else if curr > l then [true, true] + Steps(curr - 1, l) else []
  }

  ghost function LengthsFrom(len: seq<int>, i: nat, curr: int): seq<bool>
    requires i <= |len|
    decreases |len| - i
  {
    if i == |len| then [] else Steps(curr, len[i]) + ([false] + LengthsFrom(len, i + 1, len[i]))
  }

  /** The first length in five bits, then every length as steps from the one before it. */
  ghost function LengthBits(len: seq<int>): seq<bool>
    requires Lengths(len) && len != []
  {
    BitsOf(len[0], 5) + LengthsFrom(len, 0, len[0])
  }

  lemma StepBits()
    ensures BitsOf(2, 2) == [true, false] && BitsOf(3, 2) == [true, true]
  {
    assert BitsOf(1, 1) == [true];
  }

  method SendLengths(w: BitWriter, length: array<Byte>, alphaSize: nat)
    requires w.Valid() && 1 <= alphaSize <= length.Length && Lengths(length[..alphaSize])
    modifies w
    ensures w.Valid() && w.Bits() == old(w.Bits()) + LengthBits(length[..alphaSize])
  {
    hide BitWriter.Bits, Aligned, BitsOf;
    ghost var len: seq<int>, start := length[..alphaSize], w.Bits();
    Widths();
    assert 1 <= len[0] <= 20;
    var curr: int := length[0];
    w.W(5, curr);
    ghost var all := w.Bits() + LengthsFrom(len, 0, curr);
    Assoc(start, BitsOf(len[0], 5), LengthsFrom(len, 0, curr));
    var i := 0;
    while i < alphaSize
      invariant 0 <= i <= alphaSize && w.Valid() && 1 <= curr <= 20 && w.Bits() + LengthsFrom(len, i, curr) == all
    {
      ghost var more := [false] + LengthsFrom(len, i + 1, len[i]);
      Assoc(w.Bits(), Steps(curr, len[i]), more);
      curr := SendSteps(w, curr, length[i]);
      Assoc(w.Bits(), [false], LengthsFrom(len, i + 1, len[i]));
      PutBit(w, false);
      i := i + 1;
    }
    assert w.Bits() + [] == w.Bits();
  }

  method SendSteps(w: BitWriter, from: int, l: Byte) returns (curr: int)
    requires w.Valid()
    modifies w
    ensures w.Valid() && curr == l && w.Bits() == old(w.Bits()) + Steps(from, l)
  {
    hide BitWriter.Bits, Aligned, BitsOf;
    Widths();
    StepBits();
    ghost var all := w.Bits() + Steps(from, l);
    curr := from;
    while curr < l
      invariant w.Valid() && w.Bits() + Steps(curr, l) == all && (curr <= l || curr == from)
    {
      Assoc(w.Bits(), [true, false], Steps(curr + 1, l));
      w.W(2, 2);
      curr := curr + 1;
    }
    while curr > l
      invariant w.Valid() && w.Bits() + Steps(curr, l) == all && curr >= l
    {
      Assoc(w.Bits(), [true, true], Steps(curr - 1, l));
      w.W(2, 3);
      curr := curr - 1;
    }
    assert w.Bits() + [] == w.Bits();
  }

  method ReceiveLengths(reader: BitReader, length: array<Byte>, alphaSize: nat, ghost x: seq<int>, ghost rest: seq<bool>) returns (r: Status)
    requires reader.Valid() && 1 <= alphaSize <= length.Length && alphaSize <= BZ_MAX_ALPHA_SIZE
    modifies reader, length
    ensures reader.Valid() && (r == Good ==> Lengths(length[..alphaSize]))
    ensures Lengths(x) && |x| == alphaSize && old(reader.Bits()) == LengthBits(x) + rest ==> r == Good && length[..alphaSize] == x && reader.Bits() == rest
  {
    hide BitReader.Bits, LowBits, BitsOf, Pow2;
    Widths();
    ghost var expected := Lengths(x) && |x| == alphaSize && reader.Bits() == LengthBits(x) + rest;
    ghost var bits := reader.Bits();
    var v := reader.Get(5);
    if expected {
      Assoc(BitsOf(x[0], 5), LengthsFrom(x, 0, x[0]), rest);
      TakeNumber(bits, x[0], 5, LengthsFrom(x, 0, x[0]) + rest, v, reader.Bits());
    }
    if v.None? { return NoInput; }
    var curr := v.value;
    var i := 0;
    while i < alphaSize
      invariant 0 <= i <= alphaSize && reader.Valid() && Lengths(length[..i])
      invariant expected ==> length[..i] == x[..i] && 1 <= curr <= 20 && reader.Bits() == LengthsFrom(x, i, curr) + rest
    {
      ghost var l, after := if expected then x[i] else 1, if expected then LengthsFrom(x, i + 1, x[i]) + rest else [];
      if expected {
        Assoc(Steps(curr, l), [false] + LengthsFrom(x, i + 1, x[i]), rest);
        Assoc([false], LengthsFrom(x, i + 1, x[i]), rest);
      }
      r, curr := ReceiveSteps(reader, curr, l, after, expected);
      if r != Good { return; }
      ghost var was := length[..i];
      length[i] := curr;
      assert length[..i + 1] == was + [curr];
      assert expected ==> x[..i + 1] == x[..i] + [x[i]];
      i := i + 1;
    }
    assert expected ==> x[..alphaSize] == x && [] + rest == rest;
    return Good;
  }

  /** The bit that tells whether there is a further step. */
  lemma NextStep(bits: seq<bool>, curr: int, l: int, after: seq<bool>, ok: bool, got: bool, left: seq<bool>)
    requires bits == Steps(curr, l) + ([false] + after) && (ok ==> bits == [got] + left) && (!ok ==> bits == [])
    ensures ok && got == (curr != l) && (curr == l ==> left == after)
    ensures curr != l ==> left == [curr > l] + Steps(if curr < l then curr + 1 else curr - 1, l) + ([false] + after)
  {
    if curr == l {
      TakeBit(bits, false, [], after, ok, got, left);
    } else {
      var more := [curr > l] + Steps(if curr < l then curr + 1 else curr - 1, l);
      assert Steps(curr, l) == [true] + more;
      TakeBit(bits, true, more, [false] + after, ok, got, left);
    }
  }

  method ReceiveSteps(reader: BitReader, from: int, ghost l: int, ghost after: seq<bool>, ghost expected: bool) returns (r: Status, curr: int)
    requires reader.Valid() && (expected ==> 1 <= l <= 20 && 1 <= from <= 20 && reader.Bits() == Steps(from, l) + ([false] + after))
    modifies reader
    ensures reader.Valid() && (r == Good ==> 1 <= curr <= 20) && (expected ==> r == Good && curr == l && reader.Bits() == after)
  {
    hide BitReader.Bits, LowBits;
    curr := from;
    while true
      invariant reader.Valid() && (expected ==> 1 <= curr <= 20 && reader.Bits() == Steps(curr, l) + ([false] + after))
      decreases |reader.Bits()|
    {
      if curr < 1 || curr > 20 { return DataError, curr; }
      ghost var was := reader.Bits();
      var ok, b := GetBit(reader);
      if expected { NextStep(was, curr, l, after, ok, b, reader.Bits()); }
      if !ok { return NoInput, curr; }
      if !b { break; }
      ghost var half := reader.Bits();
      ok, b := GetBit(reader);
      if expected { TakeBit(half, curr > l, Steps(if curr < l then curr + 1 else curr - 1, l), [false] + after, ok, b, reader.Bits()); }
      if !ok { return NoInput, curr; }
      if !b { curr := curr + 1; } else { curr := curr - 1; }
    }
    return Good, curr;
  }
}
