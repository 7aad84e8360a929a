/** The binary heap of huffman.c, with its sentinel at entry 0: UPHEAP and DOWNHEAP. */
module HuffmanHeap {

  const HEAP_SIZE: nat := 260
  const NODES: nat := 516

  /** Entries 1 .. n name nodes; entry and node 0 are the sentinel, lighter than or as light as anything. */
  ghost predicate Entries(heap: seq<int>, weight: seq<int>, n: int) {
    |heap| == HEAP_SIZE && |weight| == NODES && 0 <= n < HEAP_SIZE && heap[0] == 0 && weight[0] == 0
    && forall i :: 1 <= i <= n ==> 0 <= heap[i] < NODES && weight[heap[i]] >= 0
  }

  /** No entry is lighter than its parent, except possibly the entries that skip names. */
  ghost predicate Ordered(heap: seq<int>, weight: seq<int>, n: int) {
    Entries(heap, weight, n)
    && forall p, c :: 1 <= p && 2 <= c <= n && p == c / 2 ==> weight[heap[p]] <= weight[heap[c]]
  }

  /** Ordered but for entry z and its parent; z's children are no lighter than z's parent. */
  ghost predicate Rising(heap: seq<int>, weight: seq<int>, n: int, z: int) {
    Entries(heap, weight, n) && 1 <= z <= n
    && (forall p, c :: 1 <= p && 2 <= c <= n && p == c / 2 && c != z ==> weight[heap[p]] <= weight[heap[c]])
    && (z >= 2 ==> forall c :: 2 <= c <= n && z == c / 2 ==> weight[heap[z / 2]] <= weight[heap[c]])
  }

  /** Ordered but for entry z and its children, which are no lighter than z's parent. */
  ghost predicate Sinking(heap: seq<int>, weight: seq<int>, n: int, z: int) {
    Entries(heap, weight, n) && 1 <= z && z <= n
    && (forall p, c :: 1 <= p && 2 <= c <= n && p == c / 2 && p != z ==> weight[heap[p]] <= weight[heap[c]])
    && (z >= 2 ==> forall c :: 2 <= c <= n && z == c / 2 ==> weight[heap[z / 2]] <= weight[heap[c]])
  }

  function Contents(heap: seq<int>, n: int): multiset<int>
    requires 0 <= n < |heap|
  {
    multiset(heap[1..n + 1])
  }

  function Swapped(heap: seq<int>, i: int, j: int): seq<int>
    requires 0 <= i < |heap| && 0 <= j < |heap|
  {
    heap[i := heap[j]][j := heap[i]]
  }

  lemma SwapKeeps(heap: seq<int>, n: int, i: int, j: int)
    requires 1 <= i <= n < |heap| && 1 <= j <= n
    ensures Contents(Swapped(heap, i, j), n) == Contents(heap, n)
  {
    var s := heap[1..n + 1];
    assert Swapped(heap, i, j)[1..n + 1] == s[i - 1 := s[j - 1]][j - 1 := s[i - 1]];
  }

  /** Moving an entry into the hole and the hole to where it was is swapping. */
  lemma SwapStore(store: seq<int>, h: seq<int>, i: int, j: int, tmp: int)
    requires 0 <= i < |store| && 0 <= j < |store| && i != j && h == store[i := tmp]
    ensures store[i := store[j]][j := tmp] == Swapped(h, i, j)
  {
  }

  lemma RiseStep(heap: seq<int>, weight: seq<int>, n: int, z: int)
    requires Rising(heap, weight, n, z) && weight[heap[z]] < weight[heap[z / 2]]
    ensures 1 <= z / 2 < z && Rising(Swapped(heap, z, z / 2), weight, n, z / 2)
    ensures Contents(Swapped(heap, z, z / 2), n) == Contents(heap, n)
  {
    assert z >= 2 by { if z == 1 { assert weight[heap[0]] == 0; } }
    var y := z / 2;
    var h := Swapped(heap, z, y);
    SwapKeeps(heap, n, z, y);
    forall p, c | 1 <= p && 2 <= c <= n && p == c / 2 && c != y ensures weight[h[p]] <= weight[h[c]] {}
    if y >= 2 {
      forall c | 2 <= c <= n && y == c / 2 ensures weight[h[y / 2]] <= weight[h[c]] {
        var g := y / 2;
        assert weight[heap[g]] <= weight[heap[y]];
      }
    }
  }

  lemma RiseDone(heap: seq<int>, weight: seq<int>, n: int, z: int)
    requires Rising(heap, weight, n, z) && weight[heap[z]] >= weight[heap[z / 2]]
    ensures Ordered(heap, weight, n)
  {
  }

  lemma SinkStep(heap: seq<int>, weight: seq<int>, n: int, z: int, y: int)
    requires Sinking(heap, weight, n, z) && z == y / 2 && 2 <= y <= n && weight[heap[y]] <= weight[heap[z]]
    requires forall c :: 2 <= c <= n && z == c / 2 ==> weight[heap[y]] <= weight[heap[c]]
    ensures Sinking(Swapped(heap, z, y), weight, n, y)
    ensures Contents(Swapped(heap, z, y), n) == Contents(heap, n)
  {
    var h := Swapped(heap, z, y);
    SwapKeeps(heap, n, z, y);
    forall p, c | 1 <= p && 2 <= c <= n && p == c / 2 && p != y ensures weight[h[p]] <= weight[h[c]] {}
    forall c | 2 <= c <= n && y == c / 2 ensures weight[h[y / 2]] <= weight[h[c]] {
      assert weight[heap[y]] <= weight[heap[c]];
    }
  }

  lemma Children(heap: seq<int>, weight: seq<int>, n: int, z: int)
    requires Sinking(heap, weight, n, z) && 2 * z <= n
    ensures 0 <= heap[2 * z] < NODES && (2 * z < n ==> 0 <= heap[2 * z + 1] < NODES) && 0 <= heap[z] < NODES
  {
  }

  lemma SinkDone(heap: seq<int>, weight: seq<int>, n: int, z: int)
    requires Sinking(heap, weight, n, z) && forall c :: 2 <= c <= n && z == c / 2 ==> weight[heap[z]] <= weight[heap[c]]
    ensures Ordered(heap, weight, n)
  {
  }

  /** The first entry is a lightest one. */
  lemma {:induction false} LightestFirst(heap: seq<int>, weight: seq<int>, n: int, i: int)
    requires Ordered(heap, weight, n) && 1 <= i <= n
    ensures weight[heap[1]] <= weight[heap[i]]
    decreases i
  {
    if i > 1 {
      LightestFirst(heap, weight, n, i / 2);
      var p := i / 2;
      assert weight[heap[p]] <= weight[heap[i]];
    }
  }

  method UpHeap(heap: array<int>, weight: array<int>, z: nat, ghost n: int)
    requires heap != weight && Rising(heap[..], weight[..], n, z)
    modifies heap
    ensures Ordered(heap[..], weight[..], n) && Contents(heap[..], n) == old(Contents(heap[..], n))
  {
    var zz, tmp := z, heap[z];
    ghost var h, w := heap[..], weight[..];
    hide Contents, Swapped;
    while weight[tmp] < weight[heap[zz / 2]]
      invariant Rising(h, w, n, zz) && h[zz] == tmp && Contents(h, n) == old(Contents(heap[..], n))
      invariant heap.Length == HEAP_SIZE && h == heap[..][zz := tmp]
      decreases zz
    {
      RiseStep(h, w, n, zz);
      SwapStore(heap[..], h, zz, zz / 2, tmp);
      h := Swapped(h, zz, zz / 2);
      heap[zz] := heap[zz / 2];
      zz := zz / 2;
    }
    heap[zz] := tmp;
    assert heap[..] == h;
    RiseDone(h, w, n, zz);
  }

  method DownHeap(heap: array<int>, weight: array<int>, n: nat)
    requires heap != weight && (n >= 1 ==> Sinking(heap[..], weight[..], n, 1)) && (n == 0 ==> Entries(heap[..], weight[..], 0))
    modifies heap
    ensures Ordered(heap[..], weight[..], n) && Contents(heap[..], n) == old(Contents(heap[..], n))
  {
    if n == 0 { return; }
    var zz, tmp := 1, heap[1];
    ghost var h, w := heap[..], weight[..];
    assert heap.Length == HEAP_SIZE;
    hide *;
    while true
      invariant Sinking(h, w, n, zz) && h[zz] == tmp && Contents(h, n) == old(Contents(heap[..], n))
      invariant heap.Length == HEAP_SIZE && h == heap[..][zz := tmp]
      decreases n - zz
    {
      var yy := zz * 2;
      if yy > n {
        NoChild(h, w, n, zz);
        break;
      }
      var lighter;
      yy, lighter := Child(heap, weight, n, zz, tmp, h);
      if lighter { break; }
      SinkStep(h, w, n, zz, yy);
      SwapStore(heap[..], h, zz, yy, tmp);
      h := Swapped(h, zz, yy);
      heap[zz] := heap[yy];
      zz := yy;
    }
    heap[zz] := tmp;
    assert heap[..] == h;
  }

  lemma NoChild(heap: seq<int>, weight: seq<int>, n: int, z: int)
    requires Sinking(heap, weight, n, z) && 2 * z > n
    ensures Ordered(heap, weight, n)
  {
  }

  /** The lighter child of the hole, and whether tmp is lighter still. */
  method Child(heap: array<int>, weight: array<int>, n: nat, zz: nat, tmp: int, ghost h: seq<int>) returns (yy: nat, lighter: bool)
    requires heap.Length == HEAP_SIZE && Sinking(h, weight[..], n, zz) && h[zz] == tmp && h == heap[..][zz := tmp] && 2 * zz <= n
    ensures zz == yy / 2 && 2 <= yy <= n && zz < yy
    ensures lighter ==> Ordered(h, weight[..], n)
    ensures !lighter ==> weight.Length == NODES && 0 <= h[yy] < NODES && 0 <= h[zz] < NODES && weight[h[yy]] <= weight[h[zz]]
    ensures !lighter ==> forall c :: 2 <= c <= n && zz == c / 2 ==> 0 <= h[c] < NODES && weight[h[yy]] <= weight[h[c]]
  {
    yy := zz * 2;
    Children(h, weight[..], n, zz);
    assert heap[yy] == h[yy] && (yy < n ==> heap[yy + 1] == h[yy + 1]);
    if yy < n && weight[heap[yy + 1]] < weight[heap[yy]] { yy := yy + 1; }
    assert forall c :: 2 <= c <= n && zz == c / 2 ==> c == 2 * zz || c == 2 * zz + 1;
    lighter := weight[tmp] < weight[heap[yy]];
    if lighter { SinkDone(h, weight[..], n, zz); }
  }

  lemma FirstIsLeast(heap: seq<int>, weight: seq<int>, n: int, x: int)
    requires Ordered(heap, weight, n) && x in Contents(heap, n)
    ensures 0 <= x < NODES && weight[heap[1]] <= weight[x]
  {
    var i :| 0 <= i < n && heap[1..n + 1][i] == x;
    LightestFirst(heap, weight, n, i + 1);
  }

  lemma AllHeavier(heap: seq<int>, weight: seq<int>, n: int)
    requires Ordered(heap, weight, n) && n >= 1
    ensures 0 <= heap[1] < NODES && forall x :: x in Contents(heap, n) ==> 0 <= x < NODES && weight[heap[1]] <= weight[x]
  {
    forall x | x in Contents(heap, n) ensures 0 <= x < NODES && weight[heap[1]] <= weight[x] { FirstIsLeast(heap, weight, n, x); }
  }

  lemma Popped(heap: seq<int>, weight: seq<int>, n: int)
    requires Ordered(heap, weight, n) && n >= 1
    ensures n > 1 ==> Sinking(heap[1 := heap[n]], weight, n - 1, 1)
    ensures Entries(heap[1 := heap[n]], weight, n - 1)
    ensures Contents(heap[1 := heap[n]], n - 1) == Contents(heap, n) - multiset{heap[1]}
  {
    PoppedContents(heap, n);
    hide Contents;
    PoppedOrder(heap, weight, n);
  }

  lemma PoppedOrder(heap: seq<int>, weight: seq<int>, n: int)
    requires Ordered(heap, weight, n) && n >= 1
    ensures Entries(heap[1 := heap[n]], weight, n - 1)
    ensures n > 1 ==> Sinking(heap[1 := heap[n]], weight, n - 1, 1)
  {
    var h := heap[1 := heap[n]];
    assert h[0] == heap[0] && h[1] == heap[n] && forall i :: 2 <= i < |heap| ==> h[i] == heap[i];
  }

  lemma PoppedContents(heap: seq<int>, n: int)
    requires 1 <= n < |heap|
    ensures Contents(heap[1 := heap[n]], n - 1) == Contents(heap, n) - multiset{heap[1]}
  {
    var h := heap[1 := heap[n]];
    if n == 1 {
      assert heap[1..2] == [heap[1]] && h[1..1] == [];
    } else {
      assert heap[1..n + 1] == [heap[1]] + heap[2..n] + [heap[n]];
      assert h[1..n] == [heap[n]] + heap[2..n];
    }
  }

  /** Takes a lightest node off the heap. */
  method Pop(heap: array<int>, weight: array<int>, nHeap: nat) returns (r: int, n: nat)
    requires heap != weight && Ordered(heap[..], weight[..], nHeap) && nHeap >= 1
    modifies heap
    ensures n == nHeap - 1 && Ordered(heap[..], weight[..], n)
    ensures r in old(Contents(heap[..], nHeap)) && Contents(heap[..], n) == old(Contents(heap[..], nHeap)) - multiset{r}
    ensures 0 <= r < NODES && forall x :: x in old(Contents(heap[..], nHeap)) ==> 0 <= x < NODES && weight[r] <= weight[x]
  {
    ghost var h, w := heap[..], weight[..];
    n := nHeap;
    r := heap[1];
    assert heap[1..nHeap + 1][0] == r;
    AllHeavier(h, w, nHeap);
    assert heap.Length == HEAP_SIZE && r in Contents(h, nHeap) && nHeap < HEAP_SIZE && weight.Length == NODES;
    Popped(h, w, nHeap);
    hide *;
    heap[1] := heap[n];
    assert heap[..] == h[1 := h[n]];
    n := n - 1;
    DownHeap(heap, weight, n);
  }

  /** Puts a node on the heap. */
  method Push(heap: array<int>, weight: array<int>, nHeap: nat, x: int) returns (n: nat)
    requires heap != weight && Ordered(heap[..], weight[..], nHeap) && nHeap < HEAP_SIZE - 1 && 0 <= x < NODES && weight[x] >= 0
    modifies heap
    ensures n == nHeap + 1 && Ordered(heap[..], weight[..], n) && Contents(heap[..], n) == old(Contents(heap[..], nHeap)) + multiset{x}
  {
    ghost var h, w := heap[..], weight[..];
    n := nHeap + 1;
    heap[n] := x;
    assert heap[..] == h[n := x];
    assert heap[..][1..n + 1] == h[1..n] + [x];
    assert Rising(heap[..], w, n, n);
    UpHeap(heap, weight, n, n);
  }

  /** A node that is not on the heap may get a new weight. */
  lemma OtherWeight(heap: seq<int>, weight: seq<int>, n: int, x: int, v: int)
    requires Ordered(heap, weight, n) && 0 < x < NODES && x !in Contents(heap, n)
    ensures Ordered(heap, weight[x := v], n)
  {
    forall i | 1 <= i <= n ensures heap[i] != x { assert heap[1..n + 1][i - 1] == heap[i]; }
  }

  /** Takes the two lightest of a set of nodes off the heap. */
  method PopTwo(heap: array<int>, weight: array<int>, nHeap: nat, ghost roots: set<int>) returns (n1: int, n2: int, n: nat)
    requires heap != weight && Ordered(heap[..], weight[..], nHeap) && nHeap >= 2 && Contents(heap[..], nHeap) == multiset(roots)
    modifies heap
    ensures n == nHeap - 2 && Ordered(heap[..], weight[..], n) && Contents(heap[..], n) == multiset(roots) - multiset{n1} - multiset{n2}
    ensures n1 in roots && n2 in roots && n1 != n2 && 0 <= n1 < NODES && 0 <= n2 < NODES && weight[n1] <= weight[n2]
    ensures forall k :: k in roots && k != n1 ==> 0 <= k < NODES && weight[n2] <= weight[k]
  {
    assert weight.Length == NODES;
    hide *;
    n1, n := Pop(heap, weight, nHeap);
    n2, n := Pop(heap, weight, n);
    assert multiset(roots)[n1] == 1;
    forall k | k in roots && k != n1 ensures 0 <= k < NODES && weight[n2] <= weight[k] {
      assert k in multiset(roots) - multiset{n1};
    }
  }
}
