/** Decoding tables laid out for a book of codes, entry by entry with the op values of inftrees.h, and what decoding with them gives
    back. */
module InflateTables {
  import opened Common
  import opened Lz77
  import opened InflateCodes
  import opened DeflateCodes

  /** The op values of entries that are no links. */
  const LITERAL: nat := 0
  const BASE: nat := 16
  const END_OF_BLOCK: nat := 96
  const INVALID: nat := 64

  /** Every entry of the table of 2^n entries at base whose low bits are the code has this content. */
  ghost predicate Filled(t: seq<Code>, base: nat, n: nat, code: seq<bool>, op: nat, val: nat) {
    |code| <= n && base + Pow2(n) <= |t| && forall i :: 0 <= i < Pow2(n) && i % Pow2(|code|) == Number(code) ==> t[base + i] == Code(op, |code|, val)
  }

  /** A code stands in the first level, or in the table that its first n bits lead to. */
  ghost predicate LaidOut(t: seq<Code>, n: nat, code: seq<bool>, op: nat, val: nat) {
    if |code| <= n then Filled(t, 0, n, code, op, val) else
      Number(code[..n]) < |t| &&
      var e := t[Number(code[..n])];
      1 <= n && 1 <= e.op <= 15 && e.bits == n && Filled(t, e.val, e.op, code[n..], op, val)
  }

  /** What an entry says for a symbol of the literals and lengths; two of the 288 are not valid. */
  function LengthOp(sym: nat): nat
    requires sym < 288
  {
    if sym < END then LITERAL else if sym == END then END_OF_BLOCK else if sym < 286 then BASE + LENGTH_EXTRA[sym - 257] else INVALID
  }

  function LengthVal(sym: nat): nat
    requires sym < 288
  {
    if sym < END then sym else if sym == END then 0 else if sym < 286 then LENGTHS[sym - 257] else 0
  }

  function DistanceOp(sym: nat): nat {
    if sym < 30 then BASE + DISTANCE_EXTRA[sym] else INVALID
  }

  function DistanceVal(sym: nat): nat {
    if sym < 30 then DISTANCES[sym] else 0
  }

  /** The tables are those of the book. */
  ghost predicate Built(c: Tables, book: Book) {
    c.Valid() && book.Valid()
    && (forall i :: 0 <= i < 288 && book.l[i] != [] ==> LaidOut(c.lcode, c.lenbits, book.l[i], LengthOp(i), LengthVal(i)))
    && (forall i :: 0 <= i < 32 && book.d[i] != [] ==> LaidOut(c.dcode, c.distbits, book.d[i], DistanceOp(i), DistanceVal(i)))
  }

  /** An op value of an entry that is no link. */
  predicate Final(op: nat) {
    op == LITERAL || 16 <= op <= 31 || op == END_OF_BLOCK || op == INVALID
  }

  lemma FilledAt(t: seq<Code>, base: nat, n: nat, code: seq<bool>, op: nat, val: nat, s: seq<bool>, k: nat)
    requires Filled(t, base, n, code, op, val) && k + n <= |s| && s[k..k + |code|] == code
    ensures base + Number(s[k..k + n]) < |t| && t[base + Number(s[k..k + n])] == Code(op, |code|, val)
  {
    NumberBound(s[k..k + n]);
    MaskAndShift(s, k, |code|, n);
  }

  lemma FinalIsNoLink(e: Code)
    requires Final(e.op)
    ensures !e.Link()
  {
  }

  lemma LinkIs(e: Code)
    requires 1 <= e.op <= 15
    ensures e.Link()
  {
  }

  /** Following a table reads a code that is laid out in it. */
  lemma WalkReads(t: seq<Code>, n: nat, code: seq<bool>, op: nat, val: nat, s: seq<bool>, k: nat)
    requires Table(t, 0, n, 15) && LaidOut(t, n, code, op, val) && Final(op) && |code| <= 15 && k + 15 <= |s| && s[k..k + |code|] == code
    ensures Walk(t, 0, n, 15, s, k).0.op == op && Walk(t, 0, n, 15, s, k).0.val == val && Walk(t, 0, n, 15, s, k).1 == k + |code|
  {
    hide Number, Pow2, Walk, Table, Code.Link;
    WalkStep(t, 0, n, 15, s, k);
    if |code| <= n {
      FilledAt(t, 0, n, code, op, val, s, k);
      FinalIsNoLink(Code(op, |code|, val));
    } else {
      var first, second := code[..n], code[n..];
      assert s[k..k + n] == first by { assert s[k..k + n] == s[k..k + |code|][..n]; }
      var e := t[Number(first)];
      LinkIs(e);
      WalkStep(t, e.val, e.op, 15 - n, s, k + n);
      assert s[k + n..k + n + |second|] == second by { assert s[k + n..k + |code|] == s[k..k + |code|][n..]; }
      FilledAt(t, e.val, e.op, second, op, val, s, k + n);
      FinalIsNoLink(Code(op, |second|, val));
    }
  }

  lemma ByteBack(b: byte)
    ensures 0 <= b as int < 256 && ToByte(b as int) == b
  {
    ByteInt(b);
    SmallMod(b as int);
  }

  lemma SmallMod(v: int)
    requires 0 <= v < 256
    ensures v % 256 == v
  {
  }

  lemma ByteInt(b: byte)
    ensures 0 <= b as int < 256 && (b as int) as byte == b
  {
  }

  /** A literal is decoded to the literal. */
  lemma LiteralBack(c: Tables, book: Book, b: byte, s: seq<bool>, k: nat)
    requires Built(c, book) && k + 48 <= |s| && book.l[b as int] != [] && s[k..k + |book.l[b as int]|] == book.l[b as int]
    ensures Decode(c, s, k) == (Symbol(Lit(b)), k + |book.l[b as int]|)
  {
    hide Walk, Table, LaidOut;
    WalkReads(c.lcode, c.lenbits, book.l[b as int], LengthOp(b as int), LengthVal(b as int), s, k);
    ByteBack(b);
  }

  /** The end of a block is decoded to the end of the block. */
  lemma EndBack(c: Tables, book: Book, s: seq<bool>, k: nat)
    requires Built(c, book) && k + 48 <= |s| && book.l[END] != [] && s[k..k + |book.l[END]|] == book.l[END]
    ensures Decode(c, s, k) == (EndOfBlock, k + |book.l[END]|)
  {
    hide Walk, Table, LaidOut;
    WalkReads(c.lcode, c.lenbits, book.l[END], LengthOp(END), LengthVal(END), s, k);
  }

  /** The two symbols that stand for nothing are invalid. */
  lemma InvalidBack(c: Tables, book: Book, sym: nat, s: seq<bool>, k: nat)
    requires Built(c, book) && k + 48 <= |s| && 286 <= sym < 288 && book.l[sym] != [] && s[k..k + |book.l[sym]|] == book.l[sym]
    ensures Decode(c, s, k) == (Invalid, k + |book.l[sym]|)
  {
    hide Walk, Table, LaidOut;
    WalkReads(c.lcode, c.lenbits, book.l[sym], LengthOp(sym), LengthVal(sym), s, k);
  }

  lemma BaseOp(e: Code, x: nat)
    requires e.op == BASE + x && x <= 15
    ensures e.Base() && e.Extra() == x
  {
  }

  lemma LengthEntry(i: nat)
    requires i < 29
    ensures LENGTH_EXTRA[i] <= 5 && LengthOp(257 + i) == BASE + LENGTH_EXTRA[i] && LengthVal(257 + i) == LENGTHS[i] && Final(LengthOp(257 + i))
  {
  }

  lemma DistanceEntry(i: nat)
    requires i < 30
    ensures DISTANCE_EXTRA[i] <= 13 && DistanceOp(i) == BASE + DISTANCE_EXTRA[i] && DistanceVal(i) == DISTANCES[i] && Final(DistanceOp(i))
  {
  }

  lemma BookFacts(c: Tables, book: Book)
    requires Built(c, book)
    ensures c.Valid() && book.Valid() && Table(c.lcode, 0, c.lenbits, 15) && Table(c.dcode, 0, c.distbits, 15) && |book.l| == 288 && |book.d| == 32
    ensures forall i :: 0 <= i < 288 && book.l[i] != [] ==> |book.l[i]| <= 15 && LaidOut(c.lcode, c.lenbits, book.l[i], LengthOp(i), LengthVal(i))
    ensures forall i :: 0 <= i < 32 && book.d[i] != [] ==> |book.d[i]| <= 15 && LaidOut(c.dcode, c.distbits, book.d[i], DistanceOp(i), DistanceVal(i))
  {
    hide Table, LaidOut, LengthOp, LengthVal, DistanceOp, DistanceVal;
  }

  /** A length is followed by its extra bits and a distance. */
  lemma DecodeBase(c: Tables, s: seq<bool>, k: nat, x: nat)
    requires c.Valid() && k + 48 <= |s| && x <= 5 && Walk(c.lcode, 0, c.lenbits, 15, s, k).0.op == BASE + x
    ensures var (e, k1) := Walk(c.lcode, 0, c.lenbits, 15, s, k);
            k1 + x + 28 <= |s| && Decode(c, s, k) == DecodeDistance(c, s, k1 + x, e.val + Number(s[k1..k1 + x]))
  {
    BaseOp(Walk(c.lcode, 0, c.lenbits, 15, s, k).0, x);
    hide Walk, Table, Number, DecodeDistance, Code.Base, Code.Extra;
  }

  lemma DecodeDistanceBase(c: Tables, s: seq<bool>, k: nat, x: nat, len: nat)
    requires c.Valid() && k + 28 <= |s| && x <= 13 && Walk(c.dcode, 0, c.distbits, 15, s, k).0.op == BASE + x
    ensures var (e, k1) := Walk(c.dcode, 0, c.distbits, 15, s, k);
            k1 + x <= |s| && DecodeDistance(c, s, k, len) == (Symbol(Match(e.val + Number(s[k1..k1 + x]), len)), k1 + x)
  {
    BaseOp(Walk(c.dcode, 0, c.distbits, 15, s, k).0, x);
    hide Walk, Table, Number, Code.Base, Code.Extra;
  }

  /** The bits w stand at k. */
  ghost predicate At(s: seq<bool>, k: nat, w: seq<bool>) {
    k + |w| <= |s| && s[k..k + |w|] == w
  }

  lemma AtIs(s: seq<bool>, k: nat, w: seq<bool>)
    requires At(s, k, w)
    ensures k + |w| <= |s| && s[k..k + |w|] == w
  {
  }

  lemma Pieces(s: seq<bool>, k: nat, a: seq<bool>, b: seq<bool>)
    requires At(s, k, a + b)
    ensures At(s, k, a) && At(s, k + |a|, b)
  {
    assert s[k..k + |a|] == s[k..k + |a + b|][..|a|];
    assert s[k + |a|..k + |a| + |b|] == s[k..k + |a + b|][|a|..];
  }

  /** A length's code and extra bits, with a distance to follow. */
  lemma LengthBack(c: Tables, code: seq<bool>, x: nat, base: nat, lx: nat, tail: seq<bool>, s: seq<bool>, k: nat)
    requires c.Valid() && Table(c.lcode, 0, c.lenbits, 15) && LaidOut(c.lcode, c.lenbits, code, BASE + x, base) && Final(BASE + x)
    requires |code| <= 15 && x <= 5 && lx < Pow2(x) && k + 48 <= |s| && At(s, k, code + BitsOf(lx, x) + tail)
    ensures k + |code| + x + 28 <= |s| && At(s, k + |code| + x, tail) && Decode(c, s, k) == DecodeDistance(c, s, k + |code| + x, base + lx)
  {
    hide *;
    Pieces(s, k, code + BitsOf(lx, x), tail);
    Pieces(s, k, code, BitsOf(lx, x));
    AtIs(s, k, code);
    AtIs(s, k + |code|, BitsOf(lx, x));
    WalkReads(c.lcode, c.lenbits, code, BASE + x, base, s, k);
    DecodeBase(c, s, k, x);
    NumberOfBits(lx, x);
  }

  lemma DistanceBack(c: Tables, code: seq<bool>, x: nat, base: nat, dx: nat, s: seq<bool>, k: nat, len: nat)
    requires c.Valid() && Table(c.dcode, 0, c.distbits, 15) && LaidOut(c.dcode, c.distbits, code, BASE + x, base) && Final(BASE + x)
    requires |code| <= 15 && x <= 13 && dx < Pow2(x) && k + 28 <= |s| && At(s, k, code + BitsOf(dx, x))
    ensures DecodeDistance(c, s, k, len) == (Symbol(Match(base + dx, len)), k + |code| + x)
  {
    hide *;
    Pieces(s, k, code, BitsOf(dx, x));
    AtIs(s, k, code);
    AtIs(s, k + |code|, BitsOf(dx, x));
    WalkReads(c.dcode, c.distbits, code, BASE + x, base, s, k);
    DecodeDistanceBase(c, s, k, x, len);
    NumberOfBits(dx, x);
  }

  /** A length and a distance are decoded to the match they mean. */
  lemma CopyBack(c: Tables, book: Book, w: Word, s: seq<bool>, k: nat)
    requires Built(c, book) && k + 48 <= |s| && w.Copy? && w.Ok(book) && At(s, k, w.Bits(book))
    ensures Decode(c, s, k) == (Symbol(w.Means(book)), k + |w.Bits(book)|)
  {
    hide *;
    BookFacts(c, book);
    WordIs(book, w);
    LengthCode(c, book, w.ls);
    DistanceCode(c, book, w.ds);
    var l, d := book.l[257 + w.ls], book.d[w.ds];
    var lx, dx := LENGTH_EXTRA[w.ls], DISTANCE_EXTRA[w.ds];
    var tail := d + BitsOf(w.dx, dx);
    LengthBack(c, l, lx, LENGTHS[w.ls], w.lx, tail, s, k);
    DistanceBack(c, d, dx, DISTANCES[w.ds], w.dx, s, k + |l| + lx, LENGTHS[w.ls] + w.lx);
  }

  lemma WordIs(book: Book, w: Word)
    requires book.Valid() && w.Copy? && w.Ok(book)
    ensures w.ls < 29 && w.ds < 30 && |LENGTHS| == |LENGTH_EXTRA| == 29 && |DISTANCES| == |DISTANCE_EXTRA| == 30 && |book.l| == 288 && |book.d| == 32
    ensures book.l[257 + w.ls] != [] && book.d[w.ds] != [] && w.lx < Pow2(LENGTH_EXTRA[w.ls]) && w.dx < Pow2(DISTANCE_EXTRA[w.ds])
    ensures w.Bits(book) == book.l[257 + w.ls] + BitsOf(w.lx, LENGTH_EXTRA[w.ls]) + (book.d[w.ds] + BitsOf(w.dx, DISTANCE_EXTRA[w.ds]))
    ensures |w.Bits(book)| == |book.l[257 + w.ls]| + LENGTH_EXTRA[w.ls] + |book.d[w.ds]| + DISTANCE_EXTRA[w.ds]
    ensures w.Means(book) == Match(DISTANCES[w.ds] + w.dx, LENGTHS[w.ls] + w.lx)
  {
    hide Pow2, BitsOf;
  }

  lemma LengthCode(c: Tables, book: Book, i: nat)
    requires Built(c, book) && i < 29 && book.l[257 + i] != []
    ensures c.Valid() && Table(c.lcode, 0, c.lenbits, 15) && |book.l| == 288 && |LENGTHS| == |LENGTH_EXTRA| == 29 && |book.l[257 + i]| <= 15 && LENGTH_EXTRA[i] <= 5
    ensures LaidOut(c.lcode, c.lenbits, book.l[257 + i], BASE + LENGTH_EXTRA[i], LENGTHS[i]) && Final(BASE + LENGTH_EXTRA[i])
  {
    BookFacts(c, book);
    LengthEntry(i);
    hide Built, LaidOut, Table;
  }

  lemma DistanceCode(c: Tables, book: Book, i: nat)
    requires Built(c, book) && i < 30 && book.d[i] != []
    ensures c.Valid() && Table(c.dcode, 0, c.distbits, 15) && |book.d| == 32 && |DISTANCES| == |DISTANCE_EXTRA| == 30 && |book.d[i]| <= 15 && DISTANCE_EXTRA[i] <= 13
    ensures LaidOut(c.dcode, c.distbits, book.d[i], BASE + DISTANCE_EXTRA[i], DISTANCES[i]) && Final(BASE + DISTANCE_EXTRA[i])
  {
    BookFacts(c, book);
    DistanceEntry(i);
    hide Built, LaidOut, Table;
  }

  /** A word has at most 48 bits. */
  lemma WordSize(book: Book, w: Word)
    requires book.Valid() && w.Ok(book)
    ensures |w.Bits(book)| <= 48
  {
    match w
    case Literal(b) =>
    case Copy(ls, lx, ds, dx) =>
      WordIs(book, w);
      LengthEntry(ls);
      DistanceEntry(ds);
      hide *;
      ShortCode(book, 257 + ls, ds);
  }

  lemma ShortCode(book: Book, i: nat, j: nat)
    requires book.Valid() && i < 288 && j < 32
    ensures |book.l| == 288 && |book.d| == 32 && |book.l[i]| <= 15 && |book.d[j]| <= 15
  {
  }

  /** At the beginning of a word the word is decoded, and behind the last word the end of the block. */
  lemma DecodeBack(c: Tables, m: Message, s: seq<bool>, n: nat)
    requires m.Valid() && Built(c, m.book) && s <= m.Bits() && n <= |m.words| && |m.Written(n)| + 48 <= |s|
    ensures m.book.Valid() && c.Valid() && (n < |m.words| ==> m.words[n].Ok(m.book))
    ensures Decode(c, s, |m.Written(n)|) == if n < |m.words| then (Symbol(m.words[n].Means(m.book)), |m.Written(n + 1)|)
                                            else (EndOfBlock, |m.Written(n)| + |m.book.l[END]|)
  {
    hide Built, Decode, Message.Written, Message.Bits, Word.Bits, Word.Means, Word.Ok;
    var j := |m.Written(n)|;
    BookFacts(c, m.book);
    if n < |m.words| {
      var w := m.words[n];
      WordAt(m, n, s);
      WordSize(m.book, w);
      if w.Literal? {
        WordLiteral(m.book, w);
        LiteralBack(c, m.book, w.b, s, j);
      } else {
        CopyBack(c, m.book, w, s, j);
      }
    } else {
      EndAt(m, s);
      EndBack(c, m.book, s, j);
    }
  }

  lemma WordLiteral(book: Book, w: Word)
    requires book.Valid() && w.Ok(book) && w.Literal?
    ensures 0 <= w.b as int < |book.l| && book.l[w.b as int] != [] && w.Bits(book) == book.l[w.b as int] && w.Means(book) == Lit(w.b)
  {
  }

  /** Whatever is decoded from the bits of a message, as far as they have arrived, are its first tokens, in place. */
  lemma {:induction false} CodesBack(c: Tables, m: Message, s: seq<bool>, ts: seq<Token>, j: nat)
    requires m.Valid() && Built(c, m.book) && s <= m.Bits() && c.Valid() && Codes(c, s, 0, ts, j)
    ensures |ts| <= |m.words| && ts == m.Means(|ts|) && j == |m.Written(|ts|)|
    decreases |ts|
  {
    if ts == [] {
      hide Built;
    } else {
      hide *;
      BookFacts(c, m.book);
      var i := CodesFront(c, s, ts, j);
      CodesBack(c, m, s, ts[..|ts| - 1], i);
      NextBack(c, m, s, ts[..|ts| - 1], ts[|ts| - 1], i, j);
      assert ts == ts[..|ts| - 1] + [ts[|ts| - 1]];
    }
  }

  lemma CodesFront(c: Tables, s: seq<bool>, ts: seq<Token>, j: nat) returns (i: nat)
    requires c.Valid() && Codes(c, s, 0, ts, j) && ts != []
    ensures Codes(c, s, 0, ts[..|ts| - 1], i) && CodesNext(c, s, i, ts[|ts| - 1], j)
  {
    hide CodesNext;
    assert CodesVia(c, s, 0, ts[..|ts| - 1], ts[|ts| - 1], j);
    i :| Codes(c, s, 0, ts[..|ts| - 1], i) && CodesNext(c, s, i, ts[|ts| - 1], j);
  }

  lemma NextBack(c: Tables, m: Message, s: seq<bool>, front: seq<Token>, t: Token, i: nat, j: nat)
    requires m.Valid() && Built(c, m.book) && s <= m.Bits() && c.Valid() && |front| <= |m.words| && front == m.Means(|front|)
    requires i == |m.Written(|front|)| && CodesNext(c, s, i, t, j)
    ensures |front| < |m.words| && front + [t] == m.Means(|front| + 1) && j == |m.Written(|front| + 1)|
  {
    hide Built, Decode, Message.Written, Message.Bits, Message.Valid, Word.Means, Word.Ok;
    DecodeBack(c, m, s, |front|);
  }
}
