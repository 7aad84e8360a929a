/** What a compressed block says: literals, lengths and distances as symbols and extra bits (section 3.2.5 of RFC 1951), and the bits
    of a whole message for any book of codes. */
module DeflateCodes {
  import opened Common
  import opened Lz77
  import opened InflateCodes

  /** Lengths: the least length of symbols 257 to 285 and how many extra bits follow. */
  const LENGTHS: seq<nat> := [3, 4, 5, 6, 7, 8, 9, 10, 11, 13, 15, 17, 19, 23, 27, 31, 35, 43, 51, 59, 67, 83, 99, 115, 131, 163, 195, 227, 258]
  const LENGTH_EXTRA: seq<nat> := [0, 0, 0, 0, 0, 0, 0, 0, 1, 1, 1, 1, 2, 2, 2, 2, 3, 3, 3, 3, 4, 4, 4, 4, 5, 5, 5, 5, 0]

  /** Distances: the same for symbols 0 to 29. */
  const DISTANCES: seq<nat> := [1, 2, 3, 4, 5, 7, 9, 13, 17, 25, 33, 49, 65, 97, 129, 193, 257, 385, 513, 769, 1025, 1537, 2049, 3073, 4097, 6145,
                                8193, 12289, 16385, 24577]
  const DISTANCE_EXTRA: seq<nat> := [0, 0, 0, 0, 1, 1, 2, 2, 3, 3, 4, 4, 5, 5, 6, 6, 7, 7, 8, 8, 9, 9, 10, 10, 11, 11, 12, 12, 13, 13]

  const END := 256

  /** The codes of the symbols for literals and lengths, and of those for distances; a symbol that is not used has none. */
  datatype Book = Book(l: seq<seq<bool>>, d: seq<seq<bool>>) {
    predicate Valid() {
      |l| == 288 && |d| == 32 && (forall i :: 0 <= i < 288 ==> |l[i]| <= 15) && (forall i :: 0 <= i < 32 ==> |d[i]| <= 15)
    }
  }

  /** A literal, or the symbols and extra bits of a length and a distance. */
  datatype Word = Literal(b: byte) | Copy(ls: nat, lx: nat, ds: nat, dx: nat) {
    /** The symbols exist and have codes, and the extra bits are as many as they should be. */
    predicate Ok(book: Book)
      requires book.Valid()
    {
      match this
      case Literal(b) => book.l[b as int] != []
      case Copy(ls, lx, ds, dx) => ls < 29 && ds < 30 && lx < Pow2(LENGTH_EXTRA[ls]) && dx < Pow2(DISTANCE_EXTRA[ds]) && book.l[257 + ls] != [] && book.d[ds] != []
    }

    function Means(book: Book): Token
      requires book.Valid() && Ok(book)
    {
      match this
      case Literal(b) => Lit(b)
      case Copy(ls, lx, ds, dx) => Match(DISTANCES[ds] + dx, LENGTHS[ls] + lx)
    }

    function Bits(book: Book): seq<bool>
      requires book.Valid() && Ok(book)
    {
      match this
      case Literal(b) => book.l[b as int]
      case Copy(ls, lx, ds, dx) => book.l[257 + ls] + BitsOf(lx, LENGTH_EXTRA[ls]) + (book.d[ds] + BitsOf(dx, DISTANCE_EXTRA[ds]))
    }
  }

  /** A block's words, an end of block, and whatever comes after. */
  datatype Message = Message(book: Book, words: seq<Word>, rest: seq<bool>) {
    ghost predicate Valid() {
      book.Valid() && book.l[END] != [] && forall i :: 0 <= i < |words| ==> words[i].Ok(book)
    }

    /** Where word n begins. */
    ghost function Written(n: nat): (s: seq<bool>)
      requires Valid() && n <= |words|
    {
      if n == 0 then [] else Written(n - 1) + words[n - 1].Bits(book)
    }

    ghost function Bits(): seq<bool>
      requires Valid()
    {
      Written(|words|) + book.l[END] + rest
    }

    ghost function Means(n: nat): (ts: seq<Token>)
      requires Valid() && n <= |words|
      ensures |ts| == n
    {
      seq(n, i requires 0 <= i < n => words[i].Means(book))
    }
  }

  /** Word n stands where it begins. */
  lemma WordAt(m: Message, n: nat, s: seq<bool>)
    requires m.Valid() && n < |m.words| && s <= m.Bits()
    ensures |m.Written(n + 1)| == |m.Written(n)| + |m.words[n].Bits(m.book)|
    ensures var j := |m.Written(n)|; j + |m.words[n].Bits(m.book)| <= |s| ==> s[j..j + |m.words[n].Bits(m.book)|] == m.words[n].Bits(m.book)
  {
    var j, w := |m.Written(n)|, m.words[n].Bits(m.book);
    hide Word.Bits, Word.Ok, Word.Means;
    WrittenGrows(m, n + 1, |m.words|);
    if j + |w| <= |s| {
      assert s[j..j + |w|] == m.Bits()[j..j + |w|];
      assert m.Bits()[j..j + |w|] == m.Written(n + 1)[j..j + |w|];
    }
  }

  lemma {:induction false} WrittenGrows(m: Message, a: nat, b: nat)
    requires m.Valid() && a <= b <= |m.words|
    ensures m.Written(a) <= m.Written(b)
  {
    hide Word.Bits, Word.Ok;
    if a < b { WrittenGrows(m, a, b - 1); }
  }

  lemma EndAt(m: Message, s: seq<bool>)
    requires m.Valid() && s <= m.Bits()
    ensures var j := |m.Written(|m.words|)|; j + |m.book.l[END]| <= |s| ==> s[j..j + |m.book.l[END]|] == m.book.l[END]
  {
    var j, e := |m.Written(|m.words|)|, m.book.l[END];
    if j + |e| <= |s| { assert s[j..j + |e|] == m.Bits()[j..j + |e|]; }
  }

  // ---- every token can be said ----

  /** The last of the bases that is not above v. */
  function Last(bases: seq<nat>, v: nat, i: nat): (k: nat)
    requires i < |bases| && bases[0] <= v
    ensures k <= i && bases[k] <= v && (k < i ==> v < bases[k + 1])
  {
    if i == 0 || bases[i] <= v then i else Last(bases, v, i - 1)
  }

  /** The word for a token: the symbol of the greatest base. */
  function WordOf(t: Token): Word
    requires t.Match? ==> 3 <= t.len <= 258 && 1 <= t.dist <= 32768
  {
    match t
    case Lit(b) => Literal(b)
    case Match(dist, len) =>
      var l, d := Last(LENGTHS, len, 28), Last(DISTANCES, dist, 29);
      Copy(l, len - LENGTHS[l], d, dist - DISTANCES[d])
  }

  /** A book with a code for every symbol that may be used. */
  predicate Full(book: Book) {
    book.Valid() && (forall i :: 0 <= i < 286 ==> book.l[i] != []) && forall i :: 0 <= i < 30 ==> book.d[i] != []
  }

  /** The extra bits of a symbol reach up to the next symbol's base. */
  lemma LengthsGapless(i: nat, v: nat)
    requires i < 29 && LENGTHS[i] <= v <= 258 && (i < 28 ==> v < LENGTHS[i + 1])
    ensures v - LENGTHS[i] < Pow2(LENGTH_EXTRA[i])
  {
  }

  lemma DistancesGapless(i: nat, v: nat)
    requires i < 30 && DISTANCES[i] <= v <= 32768 && (i < 29 ==> v < DISTANCES[i + 1])
    ensures v - DISTANCES[i] < Pow2(DISTANCE_EXTRA[i])
  {
  }

  /** Every literal, and every length and distance the format allows, has a word. */
  lemma WordFor(t: Token, book: Book)
    requires Full(book) && (t.Match? ==> 3 <= t.len <= 258 && 1 <= t.dist <= 32768)
    ensures WordOf(t).Ok(book) && WordOf(t).Means(book) == t
  {
    match t
    case Lit(b) =>
    case Match(dist, len) =>
      LengthsGapless(Last(LENGTHS, len, 28), len);
      DistancesGapless(Last(DISTANCES, dist, 29), dist);
  }
}
