/** Powers x^(2^k) modulo the CRC polynomial: the table of crc32.h, and why its index may wrap. */
module CrcPowers {
  import opened Gf2
  import opened Common

  /** Entry k of x2n_table in crc32.h. */
  function X2n(k: nat): bv32
    requires k < 32
  {
    match k
    case 0 => 0x40000000
    case 1 => 0x20000000
    case 2 => 0x08000000
    case 3 => 0x00800000
    case 4 => 0x00008000
    case 5 => 0xedb88320
    case 6 => 0xb1e6b092
    case 7 => 0xa06a2517
    case 8 => 0xed627dae
    case 9 => 0x88d14467
    case 10 => 0xd7bbfe6a
    case 11 => 0xec447f11
    case 12 => 0x8e7ea170
    case 13 => 0x6427800e
    case 14 => 0x4d47bae0
    case 15 => 0x09fe548f
    case 16 => 0x83852d0f
    case 17 => 0x30362f1a
    case 18 => 0x7b5a9cc3
    case 19 => 0x31fec169
    case 20 => 0x9fec022a
    case 21 => 0x6c8dedc4
    case 22 => 0x15d6874d
    case 23 => 0x5fde7a4e
    case 24 => 0xbad90e37
    case 25 => 0x2e4e5eef
    case 26 => 0x4eaba214
    case 27 => 0xa8a472c0
    case 28 => 0x429a969e
    case 29 => 0x148d302a
    case 30 => 0xc40ba6d0
    case _ => 0xc4e22c3c
  }

  // ---- products of constants, by doubling the number of terms ----

  function X2(b: bv32): bv32 { X(X(b)) }

  function X4(b: bv32): bv32 { X2(X2(b)) }

  function XX8(b: bv32): bv32 { X4(X4(b)) }

  function X16(b: bv32): bv32 { XX8(XX8(b)) }

  function Term(a: bv32, b: bv32): bv32 { if a & ONE != 0 then b else 0 }

  function P2(a: bv32, b: bv32): bv32 { Plus(Term(a, b), Term(a << 1, X(b))) }

  function P4(a: bv32, b: bv32): bv32 { Plus(P2(a, b), P2(a << 2, X2(b))) }

  function P8(a: bv32, b: bv32): bv32 { Plus(P4(a, b), P4(a << 4, X4(b))) }

  function P16(a: bv32, b: bv32): bv32 { Plus(P8(a, b), P8(a << 8, XX8(b))) }

  function P32(a: bv32, b: bv32): bv32 { Plus(P16(a, b), P16(a << 16, X16(b))) }

  /** The rest of a product after its first terms. */
  function Rest(a: bv32, b: bv32, n: nat): bv32 {
    Times(CoeffsN(a, n), b)
  }

  lemma Rest2(a: bv32, b: bv32, n: nat)
    requires n >= 2
    ensures Rest(a, b, n) == Plus(P2(a, b), Rest(a << 2, X2(b), n - 2))
  {
    hide X, Plus, P1, Times, CoeffsN, Term, Twice;
    TimesStep(a, b, n);
    TimesStep(Twice(a), X(b), n - 1);
    ShiftTwice(a);
    SameTerm(a, b);
    SameTerm(Twice(a), X(b));
    PlusAssociates(P1(a, b), P1(Twice(a), X(b)), Rest(a << 2, X2(b), n - 2));
  }

  lemma SameTerm(a: bv32, b: bv32)
    ensures Term(a, b) == P1(a, b) && Twice(a) == a << 1
  {
  }

  lemma ShiftTwice(a: bv32)
    ensures Twice(Twice(a)) == a << 2 && (a << 2) << 2 == a << 4 && (a << 4) << 4 == a << 8 && (a << 8) << 8 == a << 16
  {
  }

  lemma Rest4(a: bv32, b: bv32, n: nat)
    requires n >= 4
    ensures Rest(a, b, n) == Plus(P4(a, b), Rest(a << 4, X4(b), n - 4))
  {
    hide X2, Plus, P2, Rest;
    Rest2(a, b, n);
    Rest2(a << 2, X2(b), n - 2);
    ShiftTwice(a);
    PlusAssociates(P2(a, b), P2(a << 2, X2(b)), Rest(a << 4, X4(b), n - 4));
  }

  lemma Rest8(a: bv32, b: bv32, n: nat)
    requires n >= 8
    ensures Rest(a, b, n) == Plus(P8(a, b), Rest(a << 8, XX8(b), n - 8))
  {
    hide X4, Plus, P4, Rest;
    Rest4(a, b, n);
    Rest4(a << 4, X4(b), n - 4);
    ShiftTwice(a);
    PlusAssociates(P4(a, b), P4(a << 4, X4(b)), Rest(a << 8, XX8(b), n - 8));
  }

  lemma Rest16(a: bv32, b: bv32, n: nat)
    requires n >= 16
    ensures Rest(a, b, n) == Plus(P16(a, b), Rest(a << 16, X16(b), n - 16))
  {
    hide XX8, Plus, P8, Rest;
    Rest8(a, b, n);
    Rest8(a << 8, XX8(b), n - 8);
    ShiftTwice(a);
    PlusAssociates(P8(a, b), P8(a << 8, XX8(b)), Rest(a << 16, X16(b), n - 16));
  }

  lemma AllTerms(a: bv32, b: bv32)
    ensures Mul(a, b) == P32(a, b)
  {
    var c, d := a << 16, X16(b);
    hide X16, Plus, P16, Times, CoeffsN;
    Rest16(a, b, 32);
    Rest16(c, d, 16);
    NoTerms(c << 16, X16(d));
    PlusZero(P16(c, d));
  }

  lemma NoTerms(a: bv32, b: bv32)
    ensures Rest(a, b, 0) == 0
  {
  }

  // ---- each entry is the square of the one before, and the first the square of the last ----

  /** A square from its quarters. */
  lemma Quarters(a: bv32, b: bv32, c: bv32, d: bv32, p: bv32, q: bv32, r: bv32, t: bv32)
    requires XX8(a) == b && XX8(b) == c && XX8(c) == d
    requires P8(a, a) == p && P8(a << 8, b) == q && P8(a << 16, c) == r && P8(a << 24, d) == t
    ensures P32(a, a) == Plus(Plus(p, q), Plus(r, t))
  {
    assert (a << 16) << 8 == a << 24;
    hide P8, XX8, Plus;
  }

  lemma Square0()
    ensures P32(0x40000000, 0x40000000) == 0x20000000
  {
    hide P32;
    Quarters(0x40000000, 0x00400000, 0x00004000, 0x00000040, 0x20000000, 0x00000000, 0x00000000, 0x00000000);
  }

  lemma Square1()
    ensures P32(0x20000000, 0x20000000) == 0x08000000
  {
    hide P32;
    Quarters(0x20000000, 0x00200000, 0x00002000, 0x00000020, 0x08000000, 0x00000000, 0x00000000, 0x00000000);
  }

  lemma Square2()
    ensures P32(0x08000000, 0x08000000) == 0x00800000
  {
    hide P32;
    Quarters(0x08000000, 0x00080000, 0x00000800, 0x00000008, 0x00800000, 0x00000000, 0x00000000, 0x00000000);
  }

  lemma Square3()
    ensures P32(0x00800000, 0x00800000) == 0x00008000
  {
    hide P32;
    Quarters(0x00800000, 0x00008000, 0x00000080, 0xedb88320, 0x00000000, 0x00008000, 0x00000000, 0x00000000);
  }

  lemma Square4()
    ensures P32(0x00008000, 0x00008000) == 0xedb88320
  {
    hide P32;
    Quarters(0x00008000, 0x00000080, 0xedb88320, 0x3b83984b, 0x00000000, 0x00000000, 0xedb88320, 0x00000000);
  }

  lemma Square5()
    ensures P32(0xedb88320, 0xedb88320) == 0xb1e6b092
  {
    hide P32;
    Quarters(0xedb88320, 0x3b83984b, 0xe1351b80, 0xed59b63b, 0xdebb9ec5, 0x2c1c24b0, 0xe373a5d9, 0xa032af3e);
  }

  lemma Square6()
    ensures P32(0xb1e6b092, 0xb1e6b092) == 0xa06a2517
  {
    hide P32;
    Quarters(0xb1e6b092, 0x1eb014d8, 0x8816eaf2, 0x533b85da, 0x2da721a4, 0xc01df89f, 0x20754fa0, 0x6da5b38c);
  }

  lemma Square7()
    ensures P32(0xa06a2517, 0xa06a2517) == 0xed627dae
  {
    hide P32;
    Quarters(0xa06a2517, 0x8373efe2, 0x4e87f0bb, 0x5cfdedf4, 0x13146ee2, 0x5eea55b2, 0xbb428015, 0x1bdec6eb);
  }

  lemma Square8()
    ensures P32(0xed627dae, 0xed627dae) == 0x88d14467
  {
    hide P32;
    Quarters(0xed627dae, 0x3183ec92, 0x1e307184, 0xeacb7748, 0xd7862165, 0x81d8485d, 0xa4ada4ae, 0x7a2289f1);
  }

  lemma Square9()
    ensures P32(0x88d14467, 0x88d14467) == 0xd7bbfe6a
  {
    hide P32;
    Quarters(0x88d14467, 0xd35e25bf, 0x5b0df038, 0x2859b56e, 0xd059211d, 0x5b3372ff, 0xb43a552d, 0xe8ebf8a5);
  }

  lemma Square10()
    ensures P32(0xd7bbfe6a, 0xd7bbfe6a) == 0xec447f11
  {
    hide P32;
    Quarters(0xd7bbfe6a, 0xadb033b8, 0xc5178b8d, 0x93cce816, 0xe6d91417, 0x87eb8ad7, 0x2eaa6940, 0xa3dc8891);
  }

  lemma Square11()
    ensures P32(0xec447f11, 0xec447f11) == 0x8e7ea170
  {
    hide P32;
    Quarters(0xec447f11, 0x6a5c648d, 0x9363a3f9, 0xc4f2291b, 0xcd61e292, 0x98adbb28, 0x40adad7a, 0x9b1f55b0);
  }

  lemma Square12()
    ensures P32(0x8e7ea170, 0x8e7ea170) == 0x6427800e
  {
    hide P32;
    Quarters(0x8e7ea170, 0x508b0f9d, 0x8eee64f6, 0x5450b94d, 0xf60f0579, 0x02608d82, 0xe84c0c71, 0x78040484);
  }

  lemma Square13()
    ensures P32(0x6427800e, 0x6427800e) == 0x4d47bae0
  {
    hide P32;
    Quarters(0x6427800e, 0xe7dc0a87, 0x733bca89, 0x9417004e, 0x9586ee18, 0x7c4621ac, 0x733bca89, 0xd7bcbfdd);
  }

  lemma Square14()
    ensures P32(0x4d47bae0, 0x4d47bae0) == 0x09fe548f
  {
    hide P32;
    Quarters(0x4d47bae0, 0xa047a5c2, 0x75cae439, 0x5f7042ec, 0xbbe3d6cc, 0xaf59a17c, 0x7a50501e, 0x67147321);
  }

  lemma Square15()
    ensures P32(0x09fe548f, 0x09fe548f) == 0x83852d0f
  {
    hide P32;
    Quarters(0x09fe548f, 0x7d0e60e5, 0xd01d1897, 0x6ebb1bff, 0x473ed69e, 0xb2a96733, 0xfc859d7b, 0x8a9701d9);
  }

  lemma Square16()
    ensures P32(0x83852d0f, 0x83852d0f) == 0x30362f1a
  {
    hide P32;
    Quarters(0x83852d0f, 0x903c98bc, 0xc247c33f, 0xb6a46afe, 0x55ec7205, 0x6b491e3e, 0x19212bda, 0x17b268fb);
  }

  lemma Square17()
    ensures P32(0x30362f1a, 0x30362f1a) == 0x7b5a9cc3
  {
    hide P32;
    Quarters(0x30362f1a, 0xfd52cf55, 0x1bfcf7b4, 0xcc178b62, 0x916f8c95, 0x30e06b37, 0x6277c6dc, 0xb8a2bdbd);
  }

  lemma Square18()
    ensures P32(0x7b5a9cc3, 0x7b5a9cc3) == 0x31fec169
  {
    hide P32;
    Quarters(0x7b5a9cc3, 0x0216c996, 0x196e20b8, 0xc5a3559e, 0x3a64b615, 0xb206f068, 0x6dc23631, 0xd45eb125);
  }

  lemma Square19()
    ensures P32(0x31fec169, 0x31fec169) == 0x9fec022a
  {
    hide P32;
    Quarters(0x31fec169, 0x345f273d, 0x585c1336, 0xcfe2c98a, 0x2f4c4755, 0xf8ba019e, 0x30c68ff8, 0x78dccb19);
  }

  lemma Square20()
    ensures P32(0x9fec022a, 0x9fec022a) == 0x6c8dedc4
  {
    hide P32;
    Quarters(0x9fec022a, 0xdb2425d4, 0x816532e8, 0xae500f78, 0xfd3a47eb, 0x2b1ebf40, 0xd4d33723, 0x6e7a224c);
  }

  lemma Square21()
    ensures P32(0x6c8dedc4, 0x6c8dedc4) == 0x15d6874d
  {
    hide P32;
    Quarters(0x6c8dedc4, 0x9c658b44, 0x712de002, 0xee7f4ccc, 0x657b5d79, 0x3ea95ef6, 0x9d85f556, 0xd3817194);
  }

  lemma Square22()
    ensures P32(0x15d6874d, 0x15d6874d) == 0x5fde7a4e
  {
    hide P32;
    Quarters(0x15d6874d, 0x0878ebaa, 0x360b321d, 0x633067eb, 0x875af905, 0xc8939c47, 0x08ba57fc, 0x18ad48f0);
  }

  lemma Square23()
    ensures P32(0x5fde7a4e, 0x5fde7a4e) == 0xbad90e37
  {
    hide P32;
    Quarters(0x5fde7a4e, 0x913bb2ed, 0xde2aa577, 0xcebfce3a, 0x98071500, 0xf687f957, 0x4476e3a1, 0x902f01c1);
  }

  lemma Square24()
    ensures P32(0xbad90e37, 0xbad90e37) == 0x2e4e5eef
  {
    hide P32;
    Quarters(0xbad90e37, 0xb8077c01, 0x77bf37ea, 0x40a8b451, 0x6e7c57ac, 0xdc9b8619, 0x60a82fd8, 0xfc01a082);
  }

  lemma Square25()
    ensures P32(0x2e4e5eef, 0x2e4e5eef) == 0x4eaba214
  {
    hide P32;
    Quarters(0x2e4e5eef, 0x309bb1b7, 0x5535bd9e, 0x17e28bfe, 0xb26c0fdc, 0xed6087d6, 0xfe9f6265, 0xef38487b);
  }

  lemma Square26()
    ensures P32(0x4eaba214, 0x4eaba214) == 0xa8a472c0
  {
    hide P32;
    Quarters(0x4eaba214, 0x1a947fdf, 0x16765b3a, 0xc61aafe9, 0xeb912b3f, 0x4e74cde5, 0x50dbfdf2, 0x5d9a69e8);
  }

  lemma Square27()
    ensures P32(0xa8a472c0, 0xa8a472c0) == 0x429a969e
  {
    hide P32;
    Quarters(0xa8a472c0, 0x9bcc66c2, 0x75f16ffa, 0x5d1dea6d, 0x8807295c, 0x49ee8f00, 0x1d58acb9, 0x9e2b9c7b);
  }

  lemma Square28()
    ensures P32(0x429a969e, 0x429a969e) == 0x148d302a
  {
    hide P32;
    Quarters(0x429a969e, 0x17f524d5, 0xf6aed37f, 0xc04cc27e, 0x7e99d81b, 0xc5906160, 0x4b73e2a7, 0xe4f76bf6);
  }

  lemma Square29()
    ensures P32(0x148d302a, 0x148d302a) == 0xc40ba6d0
  {
    hide P32;
    Quarters(0x148d302a, 0xdbaf44e6, 0x49b2e809, 0x79950a4c, 0x1f82dfe0, 0x28c64b69, 0x56e8865b, 0xa5a7b402);
  }

  lemma Square30()
    ensures P32(0xc40ba6d0, 0xc40ba6d0) == 0xc4e22c3c
  {
    hide P32;
    Quarters(0xc40ba6d0, 0x8617d972, 0xbe8d07c9, 0xe206f713, 0x4d96abae, 0x02c3416b, 0xa4f876f9, 0x2f4fb000);
  }

  lemma Square31()
    ensures P32(0xc4e22c3c, 0xc4e22c3c) == 0x40000000
  {
    hide P32;
    Quarters(0xc4e22c3c, 0x2fab9eab, 0x412bd1fe, 0x5a44f4ca, 0x00bec93b, 0x9a96b67d, 0xe65e84ab, 0x3c76fbed);
  }

  lemma Squares(j: nat)
    requires j < 32
    ensures Mul(X2n(j), X2n(j)) == X2n((j + 1) % 32)
  {
    hide P32, Mul;
    AllTerms(X2n(j), X2n(j));
    match j
    case 0 => Square0();
    case 1 => Square1();
    case 2 => Square2();
    case 3 => Square3();
    case 4 => Square4();
    case 5 => Square5();
    case 6 => Square6();
    case 7 => Square7();
    case 8 => Square8();
    case 9 => Square9();
    case 10 => Square10();
    case 11 => Square11();
    case 12 => Square12();
    case 13 => Square13();
    case 14 => Square14();
    case 15 => Square15();
    case 16 => Square16();
    case 17 => Square17();
    case 18 => Square18();
    case 19 => Square19();
    case 20 => Square20();
    case 21 => Square21();
    case 22 => Square22();
    case 23 => Square23();
    case 24 => Square24();
    case 25 => Square25();
    case 26 => Square26();
    case 27 => Square27();
    case 28 => Square28();
    case 29 => Square29();
    case 30 => Square30();
    case _ => Square31();
  }

  /** Entry k modulo 32 is x^(2^k), for every k. */
  lemma {:induction false} PowerWraps(k: nat)
    ensures X2n(k % 32) == XP(Pow2(k), ONE)
  {
    hide X2n, Mul, XP;
    if k == 0 {
      FirstPower();
    } else {
      PowerWraps(k - 1);
      Squares((k - 1) % 32);
      MulPower(Pow2(k - 1), XP(Pow2(k - 1), ONE));
      XPAdd(Pow2(k - 1), Pow2(k - 1), ONE);
      assert ((k - 1) % 32 + 1) % 32 == k % 32;
    }
  }

  lemma FirstPower()
    ensures X2n(0) == XP(1, ONE)
  {
    assert X(ONE) == 0x4000_0000;
    assert XP(1, ONE) == XP(0, X(ONE));
  }
}
