/** BZ2_blockSort: the main sort within its budget, the fallback sort for small or too repetitive blocks, and the search for origPtr. */
module BlockSort {
  import opened Common
  import opened Rotations
  import BW = BurrowsWheeler
  import Fallback = FallbackSort
  import Main = MainSort
  import O = MainOrder

  const MAIN_MINIMUM := 10000

  /** Whichever sort ran, and however it left equal rotations, the last column is the same. */
  lemma ColumnsAgree(s: seq<Byte>, a: seq<int>, b: seq<int>)
    requires SortedRotations(s, a) && SortedRotations(s, b)
    ensures BW.LastColumn(s, a) == BW.LastColumn(s, b)
  {
    var x, y := BW.LastColumn(s, a), BW.LastColumn(s, b);
    forall k | 0 <= k < |s| ensures x[k] == y[k] {
      BW.SortedOrdersAgree(s, a, b, k);
      EqualForEver(s, a[k], b[k], |s| - 1);
      LetterBefore(s, a[k]);
      LetterBefore(s, b[k]);
    }
  }

  lemma LetterBefore(s: seq<Byte>, v: int)
    requires 0 <= v < |s|
    ensures Ch(s, v, |s| - 1) == s[BW.Prev(v, |s|)]
  {
    var n := |s|;
    if v == 0 { DivModUnique(n - 1, n, 0, n - 1); } else { DivModUnique(v + (n - 1), n, 1, v - 1); }
  }

  /** A block of one byte value. */
  function Copies(v: Byte, n: nat): (s: seq<Byte>)
    ensures |s| == n && AllSame(s)
  {
    seq(n, _ => v)
  }

  /** The order itself, and with it origPtr, is not unique: here are two orders, with the block itself in the first row and in
      the last. */
  lemma OrderNotUnique(v: Byte, n: nat)
    requires n >= 2
    ensures SortedRotations(Copies(v, n), seq(n, k => k)) && SortedRotations(Copies(v, n), seq(n, k => n - 1 - k))
  {
    var s := Copies(v, n);
    forall i: nat, j: nat ensures Cmp(s, i, j, n) == 0 { CmpIsLexicographic(s, i, j, n); }
    hide Cmp;
    var p, q := seq(n, k => k), seq(n, k => n - 1 - k);
    assert IsPerm(p, n) && IsPerm(q, n);
  }

  /** Exchanging two equal rotations leaves the order sorted. */
  lemma SwapEqual(s: seq<int>, p: seq<int>, i: int, j: int)
    requires SortedRotations(s, p) && 0 <= i < |s| && 0 <= j < |s| && Cmp(s, p[i], p[j], |s|) == 0
    ensures SortedRotations(s, p[i := p[j]][j := p[i]])
  {
    var n, q := |s|, p[i := p[j]][j := p[i]];
    SwapPerm(p, n, i, j);
    hide IsPerm, Cmp;
    forall x, y | 0 <= x <= y < n ensures Cmp(s, q[x], q[y], n) <= 0 {
      SameRow(s, p, q, i, j, x);
      SameRow(s, p, q, i, j, y);
      CmpTransitive(s, q[x], p[x], p[y], n);
      CmpTransitive(s, q[x], p[y], q[y], n);
    }
  }

  lemma SwapPerm(p: seq<int>, n: nat, i: int, j: int)
    requires IsPerm(p, n) && 0 <= i < n && 0 <= j < n
    ensures IsPerm(p[i := p[j]][j := p[i]], n)
  {
  }

  /** After the exchange every row holds a rotation equal to the one before. */
  lemma SameRow(s: seq<int>, p: seq<int>, q: seq<int>, i: int, j: int, x: int)
    requires SortedRotations(s, p) && 0 <= i < |s| && 0 <= j < |s| && Cmp(s, p[i], p[j], |s|) == 0 && q == p[i := p[j]][j := p[i]] && 0 <= x < |s|
    ensures Cmp(s, q[x], p[x], |s|) == 0 && Cmp(s, p[x], q[x], |s|) == 0
  {
    CmpAntisymmetric(s, p[i], p[j], |s|);
    CmpAntisymmetric(s, p[x], p[x], |s|);
  }

  /** The row of the block itself is the same in every sorted order exactly when no other rotation equals the block. */
  lemma OriginUnique(s: seq<Byte>, a: seq<int>, origPtr: int)
    requires SortedRotations(s, a) && 0 <= origPtr < |s| && a[origPtr] == 0
    ensures (forall b: seq<int>, j :: SortedRotations(s, b) && 0 <= j < |s| && b[j] == 0 ==> j == origPtr)
            <==> (forall v :: 0 < v < |s| ==> Cmp(s, 0, v, |s|) != 0)
  {
    var n := |s|;
    if v :| 0 < v < n && Cmp(s, 0, v, n) == 0 {
      var j := BW.IndexIn(a, n, v);
      SwapEqual(s, a, origPtr, j);
      var b := a[origPtr := v][j := 0];
      assert SortedRotations(s, b) && b[j] == 0 && j != origPtr;
    } else {
      forall b: seq<int>, j | SortedRotations(s, b) && 0 <= j < n && b[j] == 0 ensures j == origPtr {
        BW.SortedOrdersAgree(s, a, b, origPtr);
        assert b[origPtr] == 0;
      }
    }
  }

  /** fallbackSort on the memory of arr1 and arr2; here the block is cut to its length. */
  method SortSlowly(ptr: array<int>, block: array<int>, nblock: int, ghost s: seq<Byte>)
    requires 0 < nblock == |s| == ptr.Length <= O.MAX_BLOCK && nblock <= block.Length && block[..nblock] == s && ptr != block
    modifies ptr
    ensures SortedRotations(s, ptr[..]) && (AllSame(s) ==> Fallback.Falling(ptr[..]))
  {
    assert forall i :: 0 <= i < nblock ==> block[i] == block[..nblock][i] == s[i];
    var bytes := new Byte[nblock](i requires 0 <= i < nblock <= block.Length && 0 <= block[i] < 256 reads block => block[i]);
    assert bytes[..] == s;
    var eclass, bhtab := new int[nblock], new bool[nblock + 96];
    Fallback.Sort(bytes, ptr, eclass, bhtab);
  }

  /** BZ2_blockSort. */
  method BlockSort(ptr: array<int>, block: array<int>, quadrant: array<int>, ftab: array<int>, nblock: int, workFactor: int, ghost s: seq<Byte>)
    returns (origPtr: int)
    requires ptr != block && ptr != quadrant && ptr != ftab && ftab != block && ftab != quadrant && quadrant != block
    requires block.Length >= nblock + O.N_OVERSHOOT && quadrant.Length >= nblock + O.N_OVERSHOOT
    requires 0 < nblock == |s| == ptr.Length <= O.MAX_BLOCK && ftab.Length == 65537 && block[..nblock] == s
    modifies ptr, block, quadrant, ftab
    ensures block[..nblock] == s && SortedRotations(s, ptr[..])
    ensures 0 <= origPtr < nblock && ptr[origPtr] == 0
    ensures AllSame(s) ==> origPtr == if nblock < MAIN_MINIMUM then nblock - 1 else 0
  {
    if nblock < MAIN_MINIMUM {
      SortSlowly(ptr, block, nblock, s);
    } else {
      var wfact := if workFactor < 1 then 1 else if workFactor > 100 then 100 else workFactor;
      var budgetInit := nblock * ((wfact - 1) / 3);
      var budget := Main.Sort(ptr, block, quadrant, ftab, nblock, budgetInit, s);
      if budget < 0 { SortSlowly(ptr, block, nblock, s); }
    }
    hide Cmp;
    PermOnto(ptr[..], nblock, 0);
    origPtr := -1;
    var i := 0;
    while i < nblock
      invariant 0 <= i <= nblock && origPtr == -1 && forall k :: 0 <= k < i ==> ptr[k] != 0
    {
      if ptr[i] == 0 {
        origPtr := i;
        break;
      }
      i := i + 1;
    }
    assert origPtr != -1; // assertion 1003
  }

  /** Both sorts on one block: the main sort puts the block itself in the first row, the fallback sort in the last. */
  method SortsDiffer(v: Byte, nblock: int, budget0: nat) returns (first: seq<int>, second: seq<int>)
    requires MAIN_MINIMUM <= nblock <= O.MAX_BLOCK
    ensures SortedRotations(Copies(v, nblock), first) && first[0] == 0
    ensures SortedRotations(Copies(v, nblock), second) && second[nblock - 1] == 0
  {
    ghost var s := Copies(v, nblock);
    var block := new int[nblock + O.N_OVERSHOOT](_ => v);
    assert block[..nblock] == s;
    var ptr, quadrant, ftab := new int[nblock], new int[nblock + O.N_OVERSHOOT], new int[65537];
    hide Copies, SortedRotations;
    var budget := Main.Sort(ptr, block, quadrant, ftab, nblock, budget0, s);
    first := ptr[..];
    SortSlowly(ptr, block, nblock, s);
    second := ptr[..];
  }
}
