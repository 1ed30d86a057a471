/** Changes across the end of a text and the checksum stored behind it, the lowest
    byte first: the register is divided from its highest byte on, so that they are
    not changes of consecutive bits. */
module Seams {
  import opened Crc

  // ---------- A byte as a sum of its bits ----------

  function Pick(b: bool, u: bv32): bv32 {
    if b then u else 0
  }

  function Xors(p7: bv32, p6: bv32, p5: bv32, p4: bv32, p3: bv32, p2: bv32, p1: bv32, p0: bv32): bv32 {
    Xor(Xor(Xor(Xor(Xor(Xor(Xor(p7, p6), p5), p4), p3), p2), p1), p0)
  }

  /** The sum of the words that stand for the bits that are set. */
  function Sum(b: bv8, u7: bv32, u6: bv32, u5: bv32, u4: bv32, u3: bv32, u2: bv32, u1: bv32, u0: bv32): bv32 {
    Xors(Pick(Has(b, 0x80), u7), Pick(Has(b, 0x40), u6), Pick(Has(b, 0x20), u5), Pick(Has(b, 0x10), u4),
         Pick(Has(b, 0x08), u3), Pick(Has(b, 0x04), u2), Pick(Has(b, 0x02), u1), Pick(Has(b, 0x01), u0))
  }

  lemma SumIs(b: bv8, u7: bv32, u6: bv32, u5: bv32, u4: bv32, u3: bv32, u2: bv32, u1: bv32, u0: bv32)
    ensures Sum(b, u7, u6, u5, u4, u3, u2, u1, u0) ==
      Xors(Pick(Has(b, 0x80), u7), Pick(Has(b, 0x40), u6), Pick(Has(b, 0x20), u5), Pick(Has(b, 0x10), u4),
           Pick(Has(b, 0x08), u3), Pick(Has(b, 0x04), u2), Pick(Has(b, 0x02), u1), Pick(Has(b, 0x01), u0))
  {
  }

  /** The upper half of a word. */
  function Half(v: bv32): bv32 { v >> 16 }

  lemma PickMoves(b: bool, u: bv32)
    ensures Shift8(Pick(b, u)) == Pick(b, Shift8(u))
  {
    hide Shift8;
    if !b { Shift8Small(0); assert 0 as bv32 << 8 == 0; }
  }

  lemma PickHalved(b: bool, u: bv32)
    ensures Half(Pick(b, u)) == Pick(b, Half(u))
  {
  }

  lemma HalfIsLinear(a: bv32, b: bv32)
    ensures Half(Xor(a, b)) == Xor(Half(a), Half(b))
  {
  }

  lemma XorsMove(p7: bv32, p6: bv32, p5: bv32, p4: bv32, p3: bv32, p2: bv32, p1: bv32, p0: bv32)
    ensures Shift8(Xors(p7, p6, p5, p4, p3, p2, p1, p0))
      == Xors(Shift8(p7), Shift8(p6), Shift8(p5), Shift8(p4), Shift8(p3), Shift8(p2), Shift8(p1), Shift8(p0))
  {
    hide Shift8, Xor, Half;
    Shift8IsLinear(p7, p6);
    Shift8IsLinear(Xor(p7, p6), p5);
    Shift8IsLinear(Xor(Xor(p7, p6), p5), p4);
    Shift8IsLinear(Xor(Xor(Xor(p7, p6), p5), p4), p3);
    Shift8IsLinear(Xor(Xor(Xor(Xor(p7, p6), p5), p4), p3), p2);
    Shift8IsLinear(Xor(Xor(Xor(Xor(Xor(p7, p6), p5), p4), p3), p2), p1);
    Shift8IsLinear(Xor(Xor(Xor(Xor(Xor(Xor(p7, p6), p5), p4), p3), p2), p1), p0);
  }

  lemma XorsHalved(p7: bv32, p6: bv32, p5: bv32, p4: bv32, p3: bv32, p2: bv32, p1: bv32, p0: bv32)
    ensures Half(Xors(p7, p6, p5, p4, p3, p2, p1, p0))
      == Xors(Half(p7), Half(p6), Half(p5), Half(p4), Half(p3), Half(p2), Half(p1), Half(p0))
  {
    hide Shift8, Xor, Half;
    HalfIsLinear(p7, p6);
    HalfIsLinear(Xor(p7, p6), p5);
    HalfIsLinear(Xor(Xor(p7, p6), p5), p4);
    HalfIsLinear(Xor(Xor(Xor(p7, p6), p5), p4), p3);
    HalfIsLinear(Xor(Xor(Xor(Xor(p7, p6), p5), p4), p3), p2);
    HalfIsLinear(Xor(Xor(Xor(Xor(Xor(p7, p6), p5), p4), p3), p2), p1);
    HalfIsLinear(Xor(Xor(Xor(Xor(Xor(Xor(p7, p6), p5), p4), p3), p2), p1), p0);
  }

  lemma SumMoves(b: bv8, u7: bv32, u6: bv32, u5: bv32, u4: bv32, u3: bv32, u2: bv32, u1: bv32, u0: bv32)
    ensures Shift8(Sum(b, u7, u6, u5, u4, u3, u2, u1, u0)) ==
      Sum(b, Shift8(u7), Shift8(u6), Shift8(u5), Shift8(u4), Shift8(u3), Shift8(u2), Shift8(u1), Shift8(u0))
  {
    SumIs(b, u7, u6, u5, u4, u3, u2, u1, u0);
    SumIs(b, Shift8(u7), Shift8(u6), Shift8(u5), Shift8(u4), Shift8(u3), Shift8(u2), Shift8(u1), Shift8(u0));
    hide *;
    PickMoves(Has(b, 0x80), u7);
    PickMoves(Has(b, 0x40), u6);
    PickMoves(Has(b, 0x20), u5);
    PickMoves(Has(b, 0x10), u4);
    PickMoves(Has(b, 0x08), u3);
    PickMoves(Has(b, 0x04), u2);
    PickMoves(Has(b, 0x02), u1);
    PickMoves(Has(b, 0x01), u0);
    XorsMove(Pick(Has(b, 0x80), u7), Pick(Has(b, 0x40), u6), Pick(Has(b, 0x20), u5), Pick(Has(b, 0x10), u4),
         Pick(Has(b, 0x08), u3), Pick(Has(b, 0x04), u2), Pick(Has(b, 0x02), u1), Pick(Has(b, 0x01), u0));
  }

  lemma SumHalved(b: bv8, u7: bv32, u6: bv32, u5: bv32, u4: bv32, u3: bv32, u2: bv32, u1: bv32, u0: bv32)
    ensures Half(Sum(b, u7, u6, u5, u4, u3, u2, u1, u0)) ==
      Sum(b, Half(u7), Half(u6), Half(u5), Half(u4), Half(u3), Half(u2), Half(u1), Half(u0))
  {
    SumIs(b, u7, u6, u5, u4, u3, u2, u1, u0);
    SumIs(b, Half(u7), Half(u6), Half(u5), Half(u4), Half(u3), Half(u2), Half(u1), Half(u0));
    hide *;
    PickHalved(Has(b, 0x80), u7);
    PickHalved(Has(b, 0x40), u6);
    PickHalved(Has(b, 0x20), u5);
    PickHalved(Has(b, 0x10), u4);
    PickHalved(Has(b, 0x08), u3);
    PickHalved(Has(b, 0x04), u2);
    PickHalved(Has(b, 0x02), u1);
    PickHalved(Has(b, 0x01), u0);
    XorsHalved(Pick(Has(b, 0x80), u7), Pick(Has(b, 0x40), u6), Pick(Has(b, 0x20), u5), Pick(Has(b, 0x10), u4),
         Pick(Has(b, 0x08), u3), Pick(Has(b, 0x04), u2), Pick(Has(b, 0x02), u1), Pick(Has(b, 0x01), u0));
  }

  /** A byte in the highest place shifted out. */
  function Once(b: bv8): bv32 {
    Sum(b, 0x690ce0ee, 0x34867077, 0x9823b6e0, 0x4c11db70, 0x2608edb8, 0x130476dc, 0x09823b6e, 0x04c11db7)
  }

  /** And once more. */
  function Twice(b: bv8): bv32 {
    Sum(b, 0x828cd898, 0x41466c4c, 0x20a33626, 0x10519b13, 0x8a484352, 0x452421a9, 0xa0f29e0f, 0xd219c1dc)
  }

  /** What a byte in the lowest place was three bytes before. */
  function Before(b: bv8): bv32 {
    Sum(b, 0x8f05aaae, 0x4782d557, 0xa1a1e470, 0x50d0f238, 0x2868791c, 0x14343c8e, 0x0a1a1e47, 0x876d81f8)
  }

  lemma HighIsSum(b: bv8)
    ensures High(b) == Sum(b, 0x80000000, 0x40000000, 0x20000000, 0x10000000, 0x08000000, 0x04000000, 0x02000000, 0x01000000)
  {
  }

  lemma OnceIs(b: bv8)
    ensures Shift8(High(b)) == Once(b)
  {
    HighIsSum(b);
    SumMoves(b, 0x80000000, 0x40000000, 0x20000000, 0x10000000, 0x08000000, 0x04000000, 0x02000000, 0x01000000);
    hide Sum;
  }

  lemma TwiceIs(b: bv8)
    ensures Shift8(Once(b)) == Twice(b)
  {
    SumMoves(b, 0x690ce0ee, 0x34867077, 0x9823b6e0, 0x4c11db70, 0x2608edb8, 0x130476dc, 0x09823b6e, 0x04c11db7);
    hide Sum;
  }

  /** In the lowest place, and in the highest, three bytes later. */
  lemma LowIsSum(b: bv8)
    ensures b as bv32 == Sum(b, 0x00000080, 0x00000040, 0x00000020, 0x00000010, 0x00000008, 0x00000004, 0x00000002, 0x00000001)
  {
    var low := Sum(b, 0x00000080, 0x00000040, 0x00000020, 0x00000010, 0x00000008, 0x00000004, 0x00000002, 0x00000001);
    HighMoves(b);
    HighIsSum(b);
    SumMoves(b, 0x00000080, 0x00000040, 0x00000020, 0x00000010, 0x00000008, 0x00000004, 0x00000002, 0x00000001);
    SumMoves(b, 0x00008000, 0x00004000, 0x00002000, 0x00001000, 0x00000800, 0x00000400, 0x00000200, 0x00000100);
    SumMoves(b, 0x00800000, 0x00400000, 0x00200000, 0x00100000, 0x00080000, 0x00040000, 0x00020000, 0x00010000);
    hide Sum;
    assert Shift8(Shift8(Shift8(low))) == Shift8(Shift8(Shift8(b as bv32)));
    hide Shift8;
    Shift8IsInjective(Shift8(Shift8(low)), Shift8(Shift8(b as bv32)));
    Shift8IsInjective(Shift8(low), Shift8(b as bv32));
    Shift8IsInjective(low, b as bv32);
  }

  lemma BeforeIs(b: bv8)
    ensures Shift8(Shift8(Shift8(Before(b)))) == b as bv32
  {
    LowIsSum(b);
    SumMoves(b, 0x8f05aaae, 0x4782d557, 0xa1a1e470, 0x50d0f238, 0x2868791c, 0x14343c8e, 0x0a1a1e47, 0x876d81f8);
    SumMoves(b, 0x54e9f353, 0xa8147772, 0x540a3bb9, 0xa8659307, 0xd6524758, 0x6b2923ac, 0x359491d6, 0x1aca48eb);
    SumMoves(b, 0x82608edb, 0xc350c9b6, 0x61a864db, 0xb2b4bcb6, 0x595a5e5b, 0xaecda1f6, 0x5766d0fb, 0xa9d3e6a6);
    hide Sum;
  }

  /** Their upper halves. */
  function OnceTop(b: bv8): bv32 {
    ((if b & 0x80 != 0 then 0x690c else 0) ^ (if b & 0x40 != 0 then 0x3486 else 0)
      ^ (if b & 0x20 != 0 then 0x9823 else 0) ^ (if b & 0x10 != 0 then 0x4c11 else 0))
    ^ ((if b & 0x08 != 0 then 0x2608 else 0) ^ (if b & 0x04 != 0 then 0x1304 else 0)
      ^ (if b & 0x02 != 0 then 0x0982 else 0) ^ (if b & 0x01 != 0 then 0x04c1 else 0))
  }

  function TwiceTop(b: bv8): bv32 {
    ((if b & 0x80 != 0 then 0x828c else 0) ^ (if b & 0x40 != 0 then 0x4146 else 0)
      ^ (if b & 0x20 != 0 then 0x20a3 else 0) ^ (if b & 0x10 != 0 then 0x1051 else 0))
    ^ ((if b & 0x08 != 0 then 0x8a48 else 0) ^ (if b & 0x04 != 0 then 0x4524 else 0)
      ^ (if b & 0x02 != 0 then 0xa0f2 else 0) ^ (if b & 0x01 != 0 then 0xd219 else 0))
  }

  lemma OnceHalf(b: bv8)
    ensures Half(Once(b)) ==
      Sum(b, 0x0000690c, 0x00003486, 0x00009823, 0x00004c11, 0x00002608, 0x00001304, 0x00000982, 0x000004c1)
  {
    SumHalved(b, 0x690ce0ee, 0x34867077, 0x9823b6e0, 0x4c11db70, 0x2608edb8, 0x130476dc, 0x09823b6e, 0x04c11db7);
    hide Sum;
  }

  lemma TwiceHalf(b: bv8)
    ensures Half(Twice(b)) ==
      Sum(b, 0x0000828c, 0x00004146, 0x000020a3, 0x00001051, 0x00008a48, 0x00004524, 0x0000a0f2, 0x0000d219)
  {
    SumHalved(b, 0x828cd898, 0x41466c4c, 0x20a33626, 0x10519b13, 0x8a484352, 0x452421a9, 0xa0f29e0f, 0xd219c1dc);
    hide Sum;
  }

  lemma XorRight(h: bv32, p: bv32, q: bv32, r: bv32, t: bv32)
    ensures Xor(Xor(Xor(Xor(h, p), q), r), t) == Xor(h, Xor(Xor(Xor(p, q), r), t))
  {
    hide Xor;
    XorAssociates(h, p, q);
    XorAssociates(h, Xor(p, q), r);
    XorAssociates(h, Xor(Xor(p, q), r), t);
  }

  lemma XorIs(a: bv32, b: bv32)
    ensures Xor(a, b) == a ^ b
  {
  }

  lemma OnceHigh(b: bv8)
    ensures
      Xor(Xor(Xor(Pick(Has(b, 0x80), 0x690c), Pick(Has(b, 0x40), 0x3486)),
           Pick(Has(b, 0x20), 0x9823)), Pick(Has(b, 0x10), 0x4c11))
      == (if b & 0x80 != 0 then 0x690c else 0) ^ (if b & 0x40 != 0 then 0x3486 else 0)
        ^ (if b & 0x20 != 0 then 0x9823 else 0) ^ (if b & 0x10 != 0 then 0x4c11 else 0)
  {
  }

  lemma OnceLow(b: bv8)
    ensures
      Xor(Xor(Xor(Pick(Has(b, 0x08), 0x2608), Pick(Has(b, 0x04), 0x1304)),
           Pick(Has(b, 0x02), 0x0982)), Pick(Has(b, 0x01), 0x04c1))
      == (if b & 0x08 != 0 then 0x2608 else 0) ^ (if b & 0x04 != 0 then 0x1304 else 0)
        ^ (if b & 0x02 != 0 then 0x0982 else 0) ^ (if b & 0x01 != 0 then 0x04c1 else 0)
  {
  }

  lemma OnceTopIs(b: bv8)
    ensures Sum(b, 0x0000690c, 0x00003486, 0x00009823, 0x00004c11, 0x00002608, 0x00001304, 0x00000982, 0x000004c1)
      == OnceTop(b)
  {
    SumIs(b, 0x0000690c, 0x00003486, 0x00009823, 0x00004c11, 0x00002608, 0x00001304, 0x00000982, 0x000004c1);
    OnceHigh(b);
    OnceLow(b);
    XorRight((if b & 0x80 != 0 then 0x690c else 0) ^ (if b & 0x40 != 0 then 0x3486 else 0)
      ^ (if b & 0x20 != 0 then 0x9823 else 0) ^ (if b & 0x10 != 0 then 0x4c11 else 0),
             Pick(Has(b, 0x08), 0x2608), Pick(Has(b, 0x04), 0x1304), Pick(Has(b, 0x02), 0x0982), Pick(Has(b, 0x01), 0x04c1));
    XorIs((if b & 0x80 != 0 then 0x690c else 0) ^ (if b & 0x40 != 0 then 0x3486 else 0)
      ^ (if b & 0x20 != 0 then 0x9823 else 0) ^ (if b & 0x10 != 0 then 0x4c11 else 0),
          (if b & 0x08 != 0 then 0x2608 else 0) ^ (if b & 0x04 != 0 then 0x1304 else 0)
            ^ (if b & 0x02 != 0 then 0x0982 else 0) ^ (if b & 0x01 != 0 then 0x04c1 else 0));
    hide Xor, Pick, Has, Sum;
  }

  lemma TwiceHigh(b: bv8)
    ensures
      Xor(Xor(Xor(Pick(Has(b, 0x80), 0x828c), Pick(Has(b, 0x40), 0x4146)),
           Pick(Has(b, 0x20), 0x20a3)), Pick(Has(b, 0x10), 0x1051))
      == (if b & 0x80 != 0 then 0x828c else 0) ^ (if b & 0x40 != 0 then 0x4146 else 0)
        ^ (if b & 0x20 != 0 then 0x20a3 else 0) ^ (if b & 0x10 != 0 then 0x1051 else 0)
  {
  }

  lemma TwiceLow(b: bv8)
    ensures
      Xor(Xor(Xor(Pick(Has(b, 0x08), 0x8a48), Pick(Has(b, 0x04), 0x4524)),
           Pick(Has(b, 0x02), 0xa0f2)), Pick(Has(b, 0x01), 0xd219))
      == (if b & 0x08 != 0 then 0x8a48 else 0) ^ (if b & 0x04 != 0 then 0x4524 else 0)
        ^ (if b & 0x02 != 0 then 0xa0f2 else 0) ^ (if b & 0x01 != 0 then 0xd219 else 0)
  {
  }

  lemma TwiceTopIs(b: bv8)
    ensures Sum(b, 0x0000828c, 0x00004146, 0x000020a3, 0x00001051, 0x00008a48, 0x00004524, 0x0000a0f2, 0x0000d219)
      == TwiceTop(b)
  {
    SumIs(b, 0x0000828c, 0x00004146, 0x000020a3, 0x00001051, 0x00008a48, 0x00004524, 0x0000a0f2, 0x0000d219);
    TwiceHigh(b);
    TwiceLow(b);
    XorRight((if b & 0x80 != 0 then 0x828c else 0) ^ (if b & 0x40 != 0 then 0x4146 else 0)
      ^ (if b & 0x20 != 0 then 0x20a3 else 0) ^ (if b & 0x10 != 0 then 0x1051 else 0),
             Pick(Has(b, 0x08), 0x8a48), Pick(Has(b, 0x04), 0x4524), Pick(Has(b, 0x02), 0xa0f2), Pick(Has(b, 0x01), 0xd219));
    XorIs((if b & 0x80 != 0 then 0x828c else 0) ^ (if b & 0x40 != 0 then 0x4146 else 0)
      ^ (if b & 0x20 != 0 then 0x20a3 else 0) ^ (if b & 0x10 != 0 then 0x1051 else 0),
          (if b & 0x08 != 0 then 0x8a48 else 0) ^ (if b & 0x04 != 0 then 0x4524 else 0)
            ^ (if b & 0x02 != 0 then 0xa0f2 else 0) ^ (if b & 0x01 != 0 then 0xd219 else 0));
    hide Xor, Pick, Has, Sum;
  }

  // ---------- Which differences leave the upper bytes alone ----------

  lemma OneByteShows(b: bv8)
    requires Once(b) >> 24 == 0
    ensures b == 0
  {
  }

  lemma HalvesDiffer(v: bv32, w: bv32)
    requires Xor(v, w) >> 16 == 0
    ensures Half(v) == Half(w)
  {
  }

  lemma TwoTops(x: bv8, y: bv8)
    requires TwiceTop(x) == OnceTop(y)
    ensures (x == 0 && y == 0) || (x == 0x86 && y == 0x1b)
  {
  }

  lemma TwoBytesShow(x: bv8, y: bv8)
    requires Xor(Twice(x), Once(y)) >> 16 == 0
    ensures (x == 0 && y == 0) || (x == 0x86 && y == 0x1b)
  {
    TwiceTopIs(x);
    OnceTopIs(y);
    TwiceHalf(x);
    OnceHalf(y);
    hide Twice, Once, TwiceTop, OnceTop, Xor, Half, Sum;
    HalvesDiffer(Twice(x), Once(y));
    TwoTops(x, y);
  }

  lemma BeforeEndsInZero(b: bv8)
    requires Before(b) & 0xff == 0
    ensures b == 0
  {
  }

  lemma Escape()
    ensures Xor(Twice(0x86), Once(0x1b)) == 0x772f
  {
    assert Twice(0x86) == 0x772f ^ Once(0x1b);
    hide Twice, Once;
  }

  // ---------- The registers of two endings ----------

  /** The bits in which two bytes differ. */
  function Flip(b: bv8, c: bv8): bv8 {
    b ^ c
  }

  lemma HighXor(b: bv8, c: bv8)
    ensures Xor(High(b), High(c)) == High(Flip(b, c))
  {
  }

  lemma FlipTwice(b: bv8, c: bv8)
    ensures Flip(b, Flip(b, c)) == c && Flip(b, 0) == b
  {
  }

  lemma FlipBack(b: bv8, c: bv8, d: bv8)
    ensures Flip(b, c) == d <==> c == Flip(b, d)
    ensures Flip(b, 0) == b
  {
    hide Flip;
    FlipTwice(b, c);
    FlipTwice(b, d);
  }

  lemma StepDiffers(a: bv32, a': bv32, b: bv8, c: bv8)
    ensures Xor(ByteStep(a, b), ByteStep(a', c)) == Xor(Shift8(Xor(a, a')), Once(Flip(b, c)))
  {
    hide Shift8, Xor, High, Once;
    Shift8IsLinear(a, High(b));
    Shift8IsLinear(a', High(c));
    Shift8IsLinear(a, a');
    Shift8IsLinear(High(b), High(c));
    HighXor(b, c);
    OnceIs(Flip(b, c));
    Regroup(Shift8(a), Shift8(High(b)), Shift8(a'), Shift8(High(c)));
  }

  lemma Regroup(a: bv32, b: bv32, c: bv32, d: bv32)
    ensures Xor(Xor(a, b), Xor(c, d)) == Xor(Xor(a, c), Xor(b, d))
  {
    hide Xor;
    XorAssociates(a, b, Xor(c, d));
    XorAssociates(b, c, d);
    XorCommutes(b, c);
    XorAssociates(c, b, d);
    XorAssociates(a, c, Xor(b, d));
  }

  lemma OneEnding(r: bv32, b: bv8, c: bv8)
    ensures Xor(Division(r, [b]), Division(r, [c])) == Once(Flip(b, c))
  {
    hide Shift8, Xor, High, Once, ByteStep;
    StepDiffers(r, r, b, c);
    XorSelf(r);
    NothingShifts();
    XorCommutes(0, Once(Flip(b, c)));
    XorUnit(Once(Flip(b, c)));
    assert [b][1..] == [] && [c][1..] == [];
  }

  lemma NothingShifts()
    ensures Shift8(0) == 0
  {
    PickMoves(false, 0);
  }

  lemma TwoEndings(r: bv32, s: seq<bv8>, t: seq<bv8>)
    requires |s| == |t| == 2
    ensures Xor(Division(r, s), Division(r, t)) == Xor(Twice(Flip(s[0], t[0])), Once(Flip(s[1], t[1])))
  {
    hide Shift8, Xor, High, Once, Twice, ByteStep, Division;
    DivisionParts(r, [s[0]], [s[1]]);
    DivisionParts(r, [t[0]], [t[1]]);
    assert s == [s[0]] + [s[1]] && t == [t[0]] + [t[1]];
    var a, a' := Division(r, [s[0]]), Division(r, [t[0]]);
    OneEnding(r, s[0], t[0]);
    LastStep(a, s[1]);
    LastStep(a', t[1]);
    StepDiffers(a, a', s[1], t[1]);
    TwiceIs(Flip(s[0], t[0]));
  }

  lemma LastStep(r: bv32, b: bv8)
    ensures Division(r, [b]) == ByteStep(r, b)
  {
    hide ByteStep;
    assert [b][1..] == [];
  }

  /** Three bytes: the difference would have to come from a word without a fourth. */
  lemma ThreeEndings(r: bv32, s: seq<bv8>, t: seq<bv8>)
    requires |s| == |t| == 3 && Xor(Division(r, s), Division(r, t)) >> 8 == 0
    ensures s == t
  {
    hide Shift8, Xor, Word, Division, Before, LastZero;
    var v, w := Xor(Division(r, s), Division(r, t)), Xor(Word(s), Word(t));
    var b := LowByte(v);
    WordsDiffer(r, s, t);
    BeforeIs(b);
    Shift8IsInjective(Shift8(Shift8(w)), Shift8(Shift8(Before(b))));
    Shift8IsInjective(Shift8(w), Shift8(Before(b)));
    Shift8IsInjective(w, Before(b));
    WordLeavesZeros(s);
    WordLeavesZeros(t);
    OneZero(Word(s), Word(t));
    BeforeEndsInZero(b);
    XorIsZero(Division(r, s), Division(r, t));
    WindowIsInjective(r, s, t);
  }

  lemma LowByte(v: bv32) returns (b: bv8)
    requires v >> 8 == 0
    ensures b as bv32 == v && (b == 0 ==> v == 0)
  {
    b := (v & 0xff) as bv8;
    assert v & 0xff == v;
  }

  lemma OneZero(v: bv32, w: bv32)
    requires LastZero(v, 1) && LastZero(w, 1)
    ensures Xor(v, w) & 0xff == 0
  {
  }

  lemma WordsDiffer(r: bv32, s: seq<bv8>, t: seq<bv8>)
    requires |s| == |t| == 3
    ensures Xor(Division(r, s), Division(r, t)) == Shift8(Shift8(Shift8(Xor(Word(s), Word(t)))))
  {
    hide Shift8, Xor, Word, Division;
    var v, w := Word(s), Word(t);
    DivisionOfWord(r, s);
    DivisionOfWord(r, t);
    ThreeShifts(Xor(r, v));
    ThreeShifts(Xor(r, w));
    Shift8IsLinear(Xor(r, v), Xor(r, w));
    Shift8IsLinear(Shift8(Xor(r, v)), Shift8(Xor(r, w)));
    Shift8IsLinear(Shift8(Shift8(Xor(r, v))), Shift8(Shift8(Xor(r, w))));
    XorCommutes(r, v);
    XorCommutes(r, w);
    XorTwice(v, w, r);
  }

  lemma ThreeShifts(r: bv32)
    ensures ShiftBytes(r, 3) == Shift8(Shift8(Shift8(r)))
  {
    hide Shift8;
    assert ShiftBytes(r, 3) == ShiftBytes(Shift8(r), 2) == ShiftBytes(Shift8(Shift8(r)), 1);
  }

  /** The upper `k` bytes of the word are zero. */
  predicate UpperZero(v: bv32, k: nat)
    requires 1 <= k <= 3
  {
    if k == 1 then v >> 24 == 0 else if k == 2 then v >> 16 == 0 else v >> 8 == 0
  }

  lemma ZeroHasUpper(k: nat)
    requires 1 <= k <= 3
    ensures UpperZero(0, k) && UpperZero(0x772f, 2)
  {
  }

  lemma PairHasUpper(v: bv32)
    ensures UpperZero(v, 2) <==> v >> 16 == 0
  {
  }

  /** The one difference of two last bytes that leaves the upper half of the register
      alone. */
  predicate Unseen(s: seq<bv8>, t: seq<bv8>) {
    |s| == |t| == 2 && t == [Flip(s[0], 0x86), Flip(s[1], 0x1b)]
  }

  lemma OneByteEnds(r: bv32, s: seq<bv8>, t: seq<bv8>)
    requires |s| == |t| == 1 && UpperZero(Xor(Division(r, s), Division(r, t)), 1)
    ensures s == t
  {
    hide Division, Once, Xor, Flip;
    assert s == [s[0]] && t == [t[0]];
    OneEnding(r, s[0], t[0]);
    OneByteShows(Flip(s[0], t[0]));
    FlipBack(s[0], t[0], 0);
  }

  lemma TwoBytesEnd(r: bv32, s: seq<bv8>, t: seq<bv8>)
    requires |s| == |t| == 2 && UpperZero(Xor(Division(r, s), Division(r, t)), 2)
    ensures s == t || Unseen(s, t)
  {
    hide Division, Once, Twice, Xor, Flip, UpperZero;
    var x, y := Flip(s[0], t[0]), Flip(s[1], t[1]);
    TwoEndings(r, s, t);
    PairHasUpper(Xor(Twice(x), Once(y)));
    TwoBytesShow(x, y);
    FlipBack(s[0], t[0], x);
    FlipBack(s[1], t[1], y);
    assert s == [s[0], s[1]] && t == [t[0], t[1]];
  }

  lemma UnseenEnds(r: bv32, s: seq<bv8>, t: seq<bv8>)
    requires Unseen(s, t)
    ensures Xor(Division(r, s), Division(r, t)) == 0x772f
  {
    hide Division, Once, Twice, Xor, Flip;
    TwoEndings(r, s, t);
    FlipBack(s[0], t[0], 0x86);
    FlipBack(s[1], t[1], 0x1b);
    Escape();
  }

  /** A change of up to three last bytes shows in as many upper bytes of the register,
      but for that one. */
  lemma EndingShows(r: bv32, s: seq<bv8>, t: seq<bv8>)
    requires 1 <= |s| == |t| <= 3
    ensures UpperZero(Xor(Division(r, s), Division(r, t)), |s|) <==> s == t || Unseen(s, t)
    ensures Unseen(s, t) ==> Xor(Division(r, s), Division(r, t)) == 0x772f
  {
    ZeroHasUpper(|s|);
    XorSelf(Division(r, s));
    if UpperZero(Xor(Division(r, s), Division(r, t)), |s|) {
      if |s| == 1 {
        OneByteEnds(r, s, t);
      } else if |s| == 2 {
        hide UpperZero;
        TwoBytesEnd(r, s, t);
      } else {
        ThreeEndings(r, s, t);
      }
    }
    hide UpperZero, Division, Xor, Flip;
    if Unseen(s, t) { UnseenEnds(r, s, t); }
  }
}
