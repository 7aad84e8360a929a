/** The chains through head and prev: head leads to the newest string with a hash, every link to the newest one older than its
    own, across inserts and slides. */
module HashChains {
  import opened Lz77
  import opened DeflateHash
  import Common

  /** The index as it stands: window positions are counted from base, ins are the absolute positions inserted, all below top. */
  datatype Chains = Chains(head: seq<int>, prev: seq<int>, w: nat, bits: nat, base: nat, top: int, ins: set<int>) {
    ghost predicate Shape() {
      w > 0 && Bits(bits) && |head| == HashSize(bits) && |prev| == w
    }

    ghost predicate Inserted(log: seq<byte>) {
      forall p :: p in ins ==> 0 <= p < top && p + 3 <= |log|
    }

    /** A string on record at window position q. */
    ghost predicate At(q: int) {
      0 < q && base + q in ins
    }

    /** q is the newest string on record before x with the hash h, or there is none. */
    ghost predicate Newest(log: seq<byte>, h: int, x: int, q: int)
      requires Shape() && Inserted(log)
    {
      (q == NIL || (q < x && At(q) && HashAt(log, base + q, bits) == h))
      && forall p :: At(p) && q < p < x ==> HashAt(log, base + p, bits) != h
    }

    ghost predicate HeadsOk(log: seq<byte>)
      requires Shape() && Inserted(log)
    {
      forall h :: 0 <= h < |head| ==> Newest(log, h, top - base, head[h])
    }

    /** A link that has not been overwritten leads to the newest older string with the same hash, or nowhere. */
    ghost predicate LinksOk(log: seq<byte>)
      requires Shape() && Inserted(log)
    {
      forall p, i :: At(p) && base + p + w >= top && i == p % w ==> Newest(log, HashAt(log, base + p, bits), p, prev[i])
    }

    ghost predicate Sound(log: seq<byte>) {
      Shape() && Inserted(log) && HeadsOk(log) && LinksOk(log)
    }
  }

  /** INSERT_STRING at window position str with hash h. */
  function Insert(c: Chains, str: nat, h: int): Chains
    requires c.Shape() && 0 <= h < |c.head|
  {
    c.(head := c.head[h := str], prev := c.prev[str % c.w := c.head[h]], top := c.base + str + 1, ins := c.ins + {c.base + str})
  }

  /** The string at str goes on record. */
  ghost function Entering(c: Chains, log: seq<byte>, str: nat): Chains
    requires c.Shape() && 0 <= c.base + str && c.base + str + 3 <= |log|
  {
    HashInTable(log, c.base + str, c.bits);
    Insert(c, str, HashAt(log, c.base + str, c.bits))
  }

  /** Positions less than w apart have different places in prev. */
  lemma PlacesDiffer(p: nat, q: nat, w: nat)
    requires 0 < w && p < q < p + w
    ensures p % w != q % w
  {
    if p % w == q % w {
      var d := q / w - p / w;
      assert q - p == d * w by { assert p == p / w * w + p % w; assert q == q / w * w + q % w; assert (q / w - p / w) * w == q / w * w - p / w * w; }
      Common.SmallMultiple(d, w);
    }
  }

  lemma InsertHeads(c: Chains, log: seq<byte>, str: nat, h: int)
    requires c.Sound(log) && c.top <= c.base + str && c.base + str + 3 <= |log| && h == HashAt(log, c.base + str, c.bits) && 0 <= h < |c.head|
    ensures Insert(c, str, h).Shape() && Insert(c, str, h).Inserted(log) && Insert(c, str, h).HeadsOk(log)
  {
    var d := Insert(c, str, h);
    hide HashAt;
    assert d.Inserted(log);
    forall g | 0 <= g < |d.head| ensures d.Newest(log, g, d.top - d.base, d.head[g]) {
      assert c.Newest(log, g, c.top - c.base, c.head[g]);
      forall p | d.At(p) && d.head[g] < p < d.top - d.base ensures HashAt(log, d.base + p, d.bits) != g {
        assert p != str ==> c.At(p);
      }
    }
  }

  lemma InsertLinks(c: Chains, log: seq<byte>, str: nat, h: int)
    requires c.Sound(log) && c.top <= c.base + str && c.base + str + 3 <= |log| && h == HashAt(log, c.base + str, c.bits) && 0 <= h < |c.head|
    requires Insert(c, str, h).Shape() && Insert(c, str, h).Inserted(log)
    ensures Insert(c, str, h).LinksOk(log)
  {
    var d := Insert(c, str, h);
    hide HashAt, Bits;
    assert c.Newest(log, h, c.top - c.base, c.head[h]);
    forall p, i | d.At(p) && d.base + p + d.w >= d.top && i == p % d.w ensures d.Newest(log, HashAt(log, d.base + p, d.bits), p, d.prev[i]) {
      if p != str {
        assert c.At(p);
        PlacesDiffer(p, str, d.w);
        assert c.prev[i] == d.prev[i];
        assert c.Newest(log, HashAt(log, c.base + p, c.bits), p, c.prev[i]);
      }
      NewestKept(c, d, log, HashAt(log, d.base + p, d.bits), p, d.prev[i], str);
    }
  }

  /** A string put on record at the end changes nothing for those before it. */
  lemma NewestKept(c: Chains, d: Chains, log: seq<byte>, h: int, x: int, q: int, str: nat)
    requires c.Shape() && d.Shape() && c.Inserted(log) && d.Inserted(log) && d.base == c.base && d.bits == c.bits && d.ins == c.ins + {c.base + str}
    requires x <= str && if x == str then c.Newest(log, h, c.top - c.base, q) && c.top <= c.base + str else c.Newest(log, h, x, q)
    ensures d.Newest(log, h, x, q)
  {
    hide HashAt;
    forall p | d.At(p) && q < p < x ensures HashAt(log, d.base + p, d.bits) != h { assert c.At(p); }
  }

  lemma HeadIs(c: Chains, log: seq<byte>, h: int)
    requires c.Sound(log) && 0 <= h < |c.head|
    ensures c.Newest(log, h, c.top - c.base, c.head[h])
  {
    hide HashAt, Chains.Newest;
  }

  /** What head holds for the hash of the string at str. */
  lemma HeadEntry(c: Chains, log: seq<byte>, str: nat, h: int)
    requires c.Sound(log) && c.top <= c.base + str && c.base + str + 3 <= |log| && h == HashAt(log, c.base + str, c.bits)
    ensures 0 <= h < |c.head|
    ensures c.head[h] == NIL || (0 < c.head[h] < str && c.base + c.head[h] in c.ins && HashAt(log, c.base + c.head[h], c.bits) == h)
  {
    HashInTable(log, c.base + str, c.bits);
    hide HashAt, Chains.HeadsOk, Chains.LinksOk;
    HeadIs(c, log, h);
  }

  lemma InsertSound(c: Chains, log: seq<byte>, str: nat, h: int)
    requires c.Sound(log) && c.top <= c.base + str && c.base + str + 3 <= |log| && h == HashAt(log, c.base + str, c.bits)
    ensures 0 <= h < |c.head| && Insert(c, str, h).Sound(log)
  {
    HeadEntry(c, log, str, h);
    hide HashAt, Insert;
    InsertHeads(c, log, str, h);
    InsertLinks(c, log, str, h);
  }

  /** Following a link from a string at hand. */
  lemma Follow(c: Chains, log: seq<byte>, p: nat)
    requires c.Sound(log) && c.At(p) && c.base + p + c.w >= c.top
    ensures var q := c.prev[p % c.w]; q == NIL || (0 < q < p && c.At(q) && HashAt(log, c.base + q, c.bits) == HashAt(log, c.base + p, c.bits))
    ensures c.Newest(log, HashAt(log, c.base + p, c.bits), p, c.prev[p % c.w])
  {
    var i := p % c.w;
    hide HashAt;
    assert c.Newest(log, HashAt(log, c.base + p, c.bits), p, c.prev[i]);
  }

  /** What slide_hash makes of an entry. */
  function Slid(m: int, w: nat): int {
    if m >= w then m - w else NIL
  }

  /** The index after the window has moved down by w. */
  function Slide(c: Chains): Chains {
    c.(head := seq(|c.head|, i requires 0 <= i < |c.head| => Slid(c.head[i], c.w)),
       prev := seq(|c.prev|, i requires 0 <= i < |c.prev| => Slid(c.prev[i], c.w)), base := c.base + c.w)
  }

  lemma SamePlace(p: int, w: nat)
    requires w > 0
    ensures (p + w) % w == p % w
  {
    var q := p / w;
    assert p == q * w + p % w;
    assert (q + 1) * w == q * w + w;
    Common.DivModUnique(p + w, w, q + 1, p % w);
  }

  lemma SlideSound(c: Chains, log: seq<byte>)
    requires c.Sound(log)
    ensures Slide(c).Sound(log)
  {
    var d := Slide(c);
    hide HashAt;
    forall h | 0 <= h < |d.head| ensures d.Newest(log, h, d.top - d.base, d.head[h]) {
      assert c.Newest(log, h, c.top - c.base, c.head[h]);
      SlideNewest(c, d, log, h, c.top - c.base, c.head[h]);
    }
    forall p, i | d.At(p) && d.base + p + d.w >= d.top && i == p % d.w ensures d.Newest(log, HashAt(log, d.base + p, d.bits), p, d.prev[i]) {
      SamePlace(p, d.w);
      var p0 := p + d.w;
      assert c.At(p0) && i == p0 % c.w;
      assert c.Newest(log, HashAt(log, c.base + p0, c.bits), p0, c.prev[i]);
      SlideNewest(c, d, log, HashAt(log, d.base + p, d.bits), p0, c.prev[i]);
    }
  }

  lemma SlideNewest(c: Chains, d: Chains, log: seq<byte>, h: int, x: int, q: int)
    requires c.Shape() && d.Shape() && c.Inserted(log) && d.Inserted(log) && d.base == c.base + c.w && d.bits == c.bits && d.ins == c.ins && d.w == c.w
    requires c.Newest(log, h, x, q) && q >= 0
    ensures d.Newest(log, h, x - c.w, Slid(q, c.w))
  {
    hide HashAt;
    forall p | d.At(p) && Slid(q, c.w) < p < x - c.w ensures HashAt(log, d.base + p, d.bits) != h { assert c.At(p + c.w); }
  }

  /** More input changes no hash. */
  lemma MoreInput(c: Chains, log: seq<byte>, more: seq<byte>)
    requires c.Sound(log)
    ensures c.Sound(log + more)
  {
    var all := log + more;
    forall p | 0 <= p && p + 3 <= |log| ensures HashAt(all, p, c.bits) == HashAt(log, p, c.bits) {}
    hide HashAt;
    forall h | 0 <= h < |c.head| ensures c.Newest(all, h, c.top - c.base, c.head[h]) {
      assert c.Newest(log, h, c.top - c.base, c.head[h]);
      NewestIn(c, log, all, h, c.top - c.base, c.head[h]);
    }
    forall p, i | c.At(p) && c.base + p + c.w >= c.top && i == p % c.w ensures c.Newest(all, HashAt(all, c.base + p, c.bits), p, c.prev[i]) {
      assert c.Newest(log, HashAt(log, c.base + p, c.bits), p, c.prev[i]);
      NewestIn(c, log, all, HashAt(log, c.base + p, c.bits), p, c.prev[i]);
    }
  }

  lemma NewestIn(c: Chains, log: seq<byte>, all: seq<byte>, h: int, x: int, q: int)
    requires c.Shape() && c.Inserted(log) && c.Inserted(all) && c.Newest(log, h, x, q)
    requires |log| <= |all| && forall p :: 0 <= p && p + 3 <= |log| ==> HashAt(all, p, c.bits) == HashAt(log, p, c.bits)
    ensures c.Newest(all, h, x, q)
  {
    hide HashAt;
  }

  /** An empty index. */
  lemma EmptySound(c: Chains, log: seq<byte>)
    requires c.Shape() && c.ins == {} && forall h :: 0 <= h < |c.head| ==> c.head[h] == NIL
    ensures c.Sound(log)
  {
  }
}
