/** The checksum of boot images as a division of bits, and what it detects. */
module Crc {
  const POLYNOMIAL: bv32 := 0x04c11db7

  function Xor(a: bv32, b: bv32): bv32 { a ^ b }

  function Double(r: bv32): bv32 { r << 1 }

  predicate Top(r: bv32) { r & 0x80000000 != 0 }

  // ---------- Division, bit by bit ----------

  /** The register times x, modulo the polynomial. */
  function Shift(r: bv32): bv32 {
    if Top(r) then Xor(Double(r), POLYNOMIAL) else Double(r)
  }

  function Bit(b: bool): bv32 {
    if b then 1 else 0
  }

  /** Long division of a bit string: the next bit is brought down into the
      register, the polynomial taken off when it fits. */
  function LongDivision(r: bv32, bits: seq<bool>): bv32
    decreases |bits|
  {
    if bits == [] then r else LongDivision(Xor(Shift(r), Bit(bits[0])), bits[1..])
  }

  predicate Has(b: bv8, mask: bv8) { b & mask != 0 }

  function HighBits(b: bv8): seq<bool> {
    [Has(b, 0x80), Has(b, 0x40), Has(b, 0x20), Has(b, 0x10)]
  }

  function LowBits(b: bv8): seq<bool> {
    [Has(b, 0x08), Has(b, 0x04), Has(b, 0x02), Has(b, 0x01)]
  }

  /** The highest bit first. */
  function ByteBits(b: bv8): seq<bool> {
    HighBits(b) + LowBits(b)
  }

  function BitsOf(s: seq<bv8>): seq<bool>
    decreases |s|
  {
    if s == [] then [] else ByteBits(s[0]) + BitsOf(s[1..])
  }

  // ---------- Division, byte by byte ----------

  function Shift2(r: bv32): bv32 { Shift(Shift(r)) }
  function Shift4(r: bv32): bv32 { Shift2(Shift2(r)) }
  function Shift8(r: bv32): bv32 { Shift4(Shift4(r)) }
  function Shift32(r: bv32): bv32 { Shift8(Shift8(Shift8(Shift8(r)))) }

  /** A byte in the highest place of the register. */
  function High(b: bv8): bv32 { b as bv32 << 24 }

  function ByteStep(r: bv32, b: bv8): bv32 {
    Shift8(Xor(r, High(b)))
  }

  /** The register after all bytes. */
  function Division(r: bv32, s: seq<bv8>): bv32
    decreases |s|
  {
    if s == [] then r else Division(ByteStep(r, s[0]), s[1..])
  }

  // ---------- Shifting is linear and injective ----------

  lemma XorAssociates(a: bv32, b: bv32, c: bv32)
    ensures Xor(Xor(a, b), c) == Xor(a, Xor(b, c))
  {
    assert Xor(Xor(a, b), c) == (a ^ b) ^ c;
    assert Xor(a, Xor(b, c)) == a ^ (b ^ c);
  }

  lemma XorCommutes(a: bv32, b: bv32)
    ensures Xor(a, b) == Xor(b, a)
  {
  }

  lemma XorUnit(a: bv32)
    ensures Xor(a, 0) == a
  {
  }

  lemma XorSelf(a: bv32)
    ensures Xor(a, a) == 0
  {
  }

  lemma XorIsZero(a: bv32, b: bv32)
    ensures Xor(a, b) == 0 <==> a == b
  {
    hide Xor;
    XorSelf(b);
    XorUnit(a);
    XorUnit(b);
    XorCommutes(0, b);
    XorAssociates(a, b, b);
  }

  lemma XorSwap(a: bv32, b: bv32, c: bv32)
    ensures Xor(Xor(a, b), c) == Xor(Xor(a, c), b)
  {
    hide Xor;
    XorAssociates(a, b, c);
    XorAssociates(a, c, b);
    XorCommutes(b, c);
  }

  lemma XorTwice(a: bv32, b: bv32, c: bv32)
    ensures Xor(Xor(a, c), Xor(b, c)) == Xor(a, b)
  {
    hide Xor;
    XorSwap(a, c, Xor(b, c));
    XorAssociates(a, Xor(b, c), c);
    XorAssociates(b, c, c);
    XorIsZero(c, c);
    XorUnit(b);
  }

  lemma DoubleXor(a: bv32, b: bv32)
    ensures Double(Xor(a, b)) == Xor(Double(a), Double(b))
  {
    assert Xor(a, b) == a ^ b;
    assert Xor(Double(a), Double(b)) == (a << 1) ^ (b << 1);
    assert Double(a ^ b) == (a ^ b) << 1;
  }

  lemma TopXor(a: bv32, b: bv32)
    ensures Top(Xor(a, b)) <==> Top(a) != Top(b)
  {
  }

  lemma ShiftIsLinear(a: bv32, b: bv32)
    ensures Shift(Xor(a, b)) == Xor(Shift(a), Shift(b))
  {
    hide Xor, Double, Top;
    DoubleXor(a, b);
    TopXor(a, b);
    var a', b' := Double(a), Double(b);
    XorTwice(a', b', POLYNOMIAL);
    XorSwap(a', POLYNOMIAL, b');
    XorAssociates(a', b', POLYNOMIAL);
  }

  lemma Shift2IsLinear(a: bv32, b: bv32)
    ensures Shift2(Xor(a, b)) == Xor(Shift2(a), Shift2(b))
  {
    hide Shift, Xor;
    ShiftIsLinear(a, b);
    ShiftIsLinear(Shift(a), Shift(b));
  }

  lemma Shift4IsLinear(a: bv32, b: bv32)
    ensures Shift4(Xor(a, b)) == Xor(Shift4(a), Shift4(b))
  {
    hide Shift2, Xor;
    Shift2IsLinear(a, b);
    Shift2IsLinear(Shift2(a), Shift2(b));
  }

  lemma Shift8IsLinear(a: bv32, b: bv32)
    ensures Shift8(Xor(a, b)) == Xor(Shift8(a), Shift8(b))
  {
    hide Shift4, Xor;
    Shift4IsLinear(a, b);
    Shift4IsLinear(Shift4(a), Shift4(b));
  }

  lemma Shift32IsLinear(a: bv32, b: bv32)
    ensures Shift32(Xor(a, b)) == Xor(Shift32(a), Shift32(b))
  {
    hide Shift8, Xor;
    Shift8IsLinear(a, b);
    Shift8IsLinear(Shift8(a), Shift8(b));
    Shift8IsLinear(Shift8(Shift8(a)), Shift8(Shift8(b)));
    Shift8IsLinear(Shift8(Shift8(Shift8(a))), Shift8(Shift8(Shift8(b))));
  }

  lemma OnlyZeroShiftsToZero(x: bv32)
    requires Shift(x) == 0
    ensures x == 0
  {
    hide Xor, Double;
    XorIsZero(Double(x), POLYNOMIAL);
    DoubleIsEven(x);
    DoubleIsZero(x);
  }

  lemma DoubleIsEven(x: bv32)
    ensures Double(x) != POLYNOMIAL
  {
    assert (x << 1) & 1 == 0;
  }

  lemma DoubleIsZero(x: bv32)
    ensures Double(x) == 0 && !Top(x) ==> x == 0
  {
  }

  lemma OnlyZero8(x: bv32)
    requires Shift8(x) == 0
    ensures x == 0
  {
    hide Shift;
    var x1 := Shift(x);
    var x2 := Shift(x1);
    var x3 := Shift(x2);
    var x4 := Shift(x3);
    var x5 := Shift(x4);
    var x6 := Shift(x5);
    var x7 := Shift(x6);
    OnlyZeroShiftsToZero(x7);
    OnlyZeroShiftsToZero(x6);
    OnlyZeroShiftsToZero(x5);
    OnlyZeroShiftsToZero(x4);
    OnlyZeroShiftsToZero(x3);
    OnlyZeroShiftsToZero(x2);
    OnlyZeroShiftsToZero(x1);
    OnlyZeroShiftsToZero(x);
  }

  lemma Shift8IsInjective(a: bv32, b: bv32)
    requires Shift8(a) == Shift8(b)
    ensures a == b
  {
    hide Shift8, Xor;
    Shift8IsLinear(a, b);
    XorIsZero(Shift8(a), Shift8(b));
    OnlyZero8(Xor(a, b));
    XorIsZero(a, b);
  }

  lemma ShiftSmall(r: bv32)
    requires r < 0x80000000
    ensures Shift(r) == r << 1
  {
  }

  lemma Shift2Small(r: bv32)
    requires r < 0x40000000
    ensures Shift2(r) == r << 2
  {
    hide Shift;
    ShiftSmall(r);
    ShiftSmall(r << 1);
  }

  lemma Shift4Small(r: bv32)
    requires r < 0x10000000
    ensures Shift4(r) == r << 4
  {
    hide Shift2;
    Shift2Small(r);
    Shift2Small(r << 2);
  }

  /** Shifts do nothing but shift while no bit reaches the top. */
  lemma Shift8Small(r: bv32)
    requires r < 0x1000000
    ensures Shift8(r) == r << 8
  {
    hide Shift4;
    Shift4Small(r);
    Shift4Small(r << 4);
  }

  // ---------- Parts of a message ----------

  lemma {:induction false} DivisionParts(r: bv32, a: seq<bv8>, b: seq<bv8>)
    ensures Division(r, a + b) == Division(Division(r, a), b)
    decreases |a|
  {
    hide ByteStep;
    if a == [] {
      assert a + b == b;
    } else {
      assert (a + b)[0] == a[0] && (a + b)[1..] == a[1..] + b;
      DivisionParts(ByteStep(r, a[0]), a[1..], b);
    }
  }

  // ---------- Bytes against bits ----------

  /** No bit of the byte below is in the way. */
  predicate Small(y: bv32) { y < 0x80 }

  lemma BringDown(x: bv32, y: bv32, b: bool)
    requires Small(y)
    ensures Xor(Shift(Xor(x, y)), Bit(b)) == Xor(Shift(x), Xor(Double(y), Bit(b)))
  {
    hide Shift, Xor;
    ShiftIsLinear(x, y);
    ShiftSmall(y);
    XorAssociates(Shift(x), Double(y), Bit(b));
  }

  lemma OneBit(r: bv32, b: bool, rest: seq<bool>)
    ensures LongDivision(r, [b] + rest) == LongDivision(Xor(Shift(r), Bit(b)), rest)
  {
    hide Shift, Xor, Bit;
    assert ([b] + rest)[1..] == rest;
  }

  /** One bit brought down next to the bits `y` brought down before. */
  lemma OneMore(x: bv32, y: bv32, b: bool, y': bv32, rest: seq<bool>)
    requires Small(y) && Xor(Double(y), Bit(b)) == y'
    ensures LongDivision(Xor(x, y), [b] + rest) == LongDivision(Xor(Shift(x), y'), rest)
  {
    hide Shift, Xor, Bit, Double, Small;
    OneBit(Xor(x, y), b, rest);
    BringDown(x, y, b);
  }

  /** The upper bits of a byte, without the last `k`. */
  function Upper(b: bv8, k: nat): bv32
    requires k <= 8
  {
    (b >> k) as bv32
  }

  lemma NextHighBits(b: bv8)
    ensures Xor(Double(Upper(b, 8)), Bit(Has(b, 0x80))) == Upper(b, 7)
    ensures Xor(Double(Upper(b, 7)), Bit(Has(b, 0x40))) == Upper(b, 6)
    ensures Xor(Double(Upper(b, 6)), Bit(Has(b, 0x20))) == Upper(b, 5)
    ensures Xor(Double(Upper(b, 5)), Bit(Has(b, 0x10))) == Upper(b, 4)
  {
  }

  lemma NextLowBits(b: bv8)
    ensures Xor(Double(Upper(b, 4)), Bit(Has(b, 0x08))) == Upper(b, 3)
    ensures Xor(Double(Upper(b, 3)), Bit(Has(b, 0x04))) == Upper(b, 2)
    ensures Xor(Double(Upper(b, 2)), Bit(Has(b, 0x02))) == Upper(b, 1)
    ensures Xor(Double(Upper(b, 1)), Bit(Has(b, 0x01))) == Upper(b, 0)
  {
  }

  lemma UpperBits(b: bv8)
    ensures Small(Upper(b, 8)) && Small(Upper(b, 7)) && Small(Upper(b, 6)) && Small(Upper(b, 5))
    ensures Small(Upper(b, 4)) && Small(Upper(b, 3)) && Small(Upper(b, 2)) && Small(Upper(b, 1))
  {
  }

  lemma AllOrNone(b: bv8)
    ensures Upper(b, 8) == 0 && Upper(b, 0) == b as bv32
  {
  }

  lemma FourBits(x: bv32, y: bv32, b3: bool, b2: bool, b1: bool, b0: bool, y3: bv32, y2: bv32, y1: bv32, y0: bv32, rest: seq<bool>)
    requires Small(y) && Small(y3) && Small(y2) && Small(y1)
    requires Xor(Double(y), Bit(b3)) == y3 && Xor(Double(y3), Bit(b2)) == y2
    requires Xor(Double(y2), Bit(b1)) == y1 && Xor(Double(y1), Bit(b0)) == y0
    ensures LongDivision(Xor(x, y), [b3, b2, b1, b0] + rest) == LongDivision(Xor(Shift4(x), y0), rest)
  {
    hide Shift, Xor, Bit, LongDivision, Double, Small;
    OneMore(x, y, b3, y3, [b2, b1, b0] + rest);
    OneMore(Shift(x), y3, b2, y2, [b1, b0] + rest);
    OneMore(Shift2(x), y2, b1, y1, [b0] + rest);
    OneMore(Shift(Shift2(x)), y1, b0, y0, rest);
    assert [b3, b2, b1, b0] + rest == [b3] + ([b2, b1, b0] + rest);
    assert [b2, b1, b0] + rest == [b2] + ([b1, b0] + rest);
    assert [b1, b0] + rest == [b1] + ([b0] + rest);
  }

  lemma HighHalf(r: bv32, b: bv8, rest: seq<bool>)
    ensures LongDivision(r, HighBits(b) + rest) == LongDivision(Xor(Shift4(r), Upper(b, 4)), rest)
  {
    hide Shift4, Xor, Bit, LongDivision, Has, Upper, Double, Small;
    NextHighBits(b);
    UpperBits(b);
    AllOrNone(b);
    XorUnit(r);
    FourBits(r, Upper(b, 8), Has(b, 0x80), Has(b, 0x40), Has(b, 0x20), Has(b, 0x10),
             Upper(b, 7), Upper(b, 6), Upper(b, 5), Upper(b, 4), rest);
  }

  lemma LowHalf(r: bv32, b: bv8, rest: seq<bool>)
    ensures LongDivision(Xor(r, Upper(b, 4)), LowBits(b) + rest) == LongDivision(Xor(Shift4(r), Upper(b, 0)), rest)
  {
    hide Shift4, Xor, Bit, LongDivision, Has, Upper, Double, Small;
    NextLowBits(b);
    UpperBits(b);
    FourBits(r, Upper(b, 4), Has(b, 0x08), Has(b, 0x04), Has(b, 0x02), Has(b, 0x01),
             Upper(b, 3), Upper(b, 2), Upper(b, 1), Upper(b, 0), rest);
  }

  /** Eight bits brought down are the byte. */
  lemma BringDownByte(r: bv32, b: bv8, rest: seq<bool>)
    ensures LongDivision(r, ByteBits(b) + rest) == LongDivision(Xor(Shift8(r), b as bv32), rest)
  {
    hide Shift4, Xor, LongDivision, Upper, HighBits, LowBits;
    HighHalf(r, b, LowBits(b) + rest);
    LowHalf(Shift4(r), b, rest);
    AllOrNone(b);
    assert ByteBits(b) + rest == HighBits(b) + (LowBits(b) + rest);
  }

  lemma HighMoves(b: bv8)
    ensures Shift8(Shift8(Shift8(b as bv32))) == High(b)
  {
    hide Shift8;
    Shift8Small(b as bv32);
    Shift8Small(b as bv32 << 8);
    Shift8Small(b as bv32 << 16);
  }

  /** Division by bytes keeps the register of the long division, moved up. */
  lemma {:induction false} DivisionIsLongDivision(r: bv32, s: seq<bv8>)
    ensures Division(Shift32(r), s) == Shift32(LongDivision(r, BitsOf(s)))
    decreases |s|
  {
    hide Shift8, Xor, High, LongDivision, ByteBits;
    if s == [] {
      NoBits(r);
    } else {
      var b := s[0];
      var r' := Xor(Shift8(r), b as bv32);
      BringDownByte(r, b, BitsOf(s[1..]));
      DivisionIsLongDivision(r', s[1..]);
      Shift32IsLinear(Shift8(r), b as bv32);
      Shift8IsLinear(Shift32(r), High(b));
      HighMoves(b);
    }
  }

  lemma NoBits(r: bv32)
    ensures LongDivision(r, []) == r
  {
  }

  lemma {:induction false} LongDivisionParts(r: bv32, a: seq<bool>, b: seq<bool>)
    ensures LongDivision(r, a + b) == LongDivision(LongDivision(r, a), b)
    decreases |a|
  {
    hide Shift, Xor, Bit;
    if a == [] {
      assert a + b == b;
    } else {
      assert (a + b)[0] == a[0] && (a + b)[1..] == a[1..] + b;
      LongDivisionParts(Xor(Shift(r), Bit(a[0])), a[1..], b);
    }
  }

  const FOUR_ZEROS: seq<bv8> := [0, 0, 0, 0]

  lemma {:induction false} BitsOfParts(a: seq<bv8>, b: seq<bv8>)
    ensures BitsOf(a + b) == BitsOf(a) + BitsOf(b)
    decreases |a|
  {
    hide ByteBits;
    if a == [] {
      assert a + b == b;
    } else {
      assert (a + b)[0] == a[0] && (a + b)[1..] == a[1..] + b;
      BitsOfParts(a[1..], b);
    }
  }

  lemma ZeroByte(r: bv32, rest: seq<bool>)
    ensures LongDivision(r, ByteBits(0) + rest) == LongDivision(Shift8(r), rest)
  {
    hide Shift8, Xor, LongDivision, ByteBits;
    BringDownByte(r, 0, rest);
    XorUnit(Shift8(r));
  }

  lemma ZeroBytes(r: bv32)
    ensures LongDivision(r, BitsOf(FOUR_ZEROS)) == Shift32(r)
  {
    hide Shift8, LongDivision, ByteBits;
    var z := ByteBits(0);
    assert BitsOf([]) == [];
    assert BitsOf([0]) == z + [] by { assert [0 as bv8][1..] == []; }
    assert BitsOf([0, 0]) == z + (z + []) by { assert [0 as bv8, 0][1..] == [0]; }
    assert BitsOf([0, 0, 0]) == z + (z + (z + [])) by { assert [0 as bv8, 0, 0][1..] == [0, 0]; }
    assert BitsOf(FOUR_ZEROS) == z + (z + (z + (z + []))) by { assert FOUR_ZEROS[1..] == [0, 0, 0]; }
    ZeroByte(r, z + (z + (z + [])));
    ZeroByte(Shift8(r), z + (z + []));
    ZeroByte(Shift8(Shift8(r)), z + []);
    ZeroByte(Shift8(Shift8(Shift8(r))), []);
    NoBits(Shift32(r));
  }

  /** The checksum is the remainder of the message, with 32 zero bits after it,
      when the start value stands for a register `r` loaded before. */
  lemma ChecksumIsRemainder(r: bv32, s: seq<bv8>)
    ensures Division(Shift32(r), s) == LongDivision(r, BitsOf(s + FOUR_ZEROS))
  {
    hide Shift32, LongDivision, Division, BitsOf;
    DivisionIsLongDivision(r, s);
    BitsOfParts(s, FOUR_ZEROS);
    LongDivisionParts(r, BitsOf(s), BitsOf(FOUR_ZEROS));
    ZeroBytes(LongDivision(r, BitsOf(s)));
  }

  /** The register that shifting turns into `r`. */
  lemma Unshift(r: bv32) returns (q: bv32)
    ensures Shift(q) == r
  {
    if r & 1 == 0 {
      q := r >> 1;
    } else {
      q := ((r ^ POLYNOMIAL) >> 1) | 0x80000000;
    }
  }

  lemma Unshift8(r: bv32) returns (q: bv32)
    ensures Shift8(q) == r
  {
    hide Shift;
    var q7 := Unshift(r);
    var q6 := Unshift(q7);
    var q5 := Unshift(q6);
    var q4 := Unshift(q5);
    var q3 := Unshift(q4);
    var q2 := Unshift(q3);
    var q1 := Unshift(q2);
    q := Unshift(q1);
  }

  /** Every start value stands for a register. */
  lemma StartRegister(start: bv32) returns (r: bv32)
    ensures Shift32(r) == start
  {
    hide Shift8;
    var r3 := Unshift8(start);
    var r2 := Unshift8(r3);
    var r1 := Unshift8(r2);
    r := Unshift8(r1);
  }

  // ---------- What the checksum detects ----------

  lemma ByteStepIsInjective(a: bv32, b: bv32, c: bv8)
    requires ByteStep(a, c) == ByteStep(b, c)
    ensures a == b
  {
    hide Shift8, Xor, High;
    Shift8IsInjective(Xor(a, High(c)), Xor(b, High(c)));
    XorTwice(a, b, High(c));
    XorIsZero(Xor(a, High(c)), Xor(b, High(c)));
    XorIsZero(a, b);
  }

  /** Different registers stay different. */
  lemma {:induction false} DivisionIsInjective(a: bv32, b: bv32, s: seq<bv8>)
    ensures Division(a, s) == Division(b, s) <==> a == b
    decreases |s|
  {
    hide ByteStep;
    if s != [] {
      DivisionIsInjective(ByteStep(a, s[0]), ByteStep(b, s[0]), s[1..]);
      if ByteStep(a, s[0]) == ByteStep(b, s[0]) {
        ByteStepIsInjective(a, b, s[0]);
      }
    }
  }

  /** Up to four bytes in the highest places of the register. */
  function Word(s: seq<bv8>): bv32
    decreases |s|
  {
    if s == [] then 0 else Xor(High(s[0]), Lower(Word(s[1..])))
  }

  function Lower(w: bv32): bv32 { w >> 8 }

  function ShiftBytes(r: bv32, n: nat): bv32
    decreases n
  {
    if n == 0 then r else ShiftBytes(Shift8(r), n - 1)
  }

  /** The last `n` bytes of the register are zero. */
  predicate LastZero(w: bv32, n: nat) {
    if n == 0 then true
    else if n == 1 then w & 0xff == 0
    else if n == 2 then w & 0xffff == 0
    else if n == 3 then w & 0xffffff == 0
    else w == 0
  }

  lemma PutByte(b: bv8, w: bv32, n: nat)
    requires n < 4 && LastZero(w, n + 1)
    ensures LastZero(Xor(High(b), Lower(w)), n) && Shift8(Lower(w)) == w
  {
    assert w & 0xff == 0 by { MoreZeros(w, n); }
    RaiseLower(w);
    if n == 0 {
    } else if n == 1 {
      assert (High(b) ^ (w >> 8)) & 0xff == 0;
    } else if n == 2 {
      assert (High(b) ^ (w >> 8)) & 0xffff == 0;
    } else {
      assert (High(b) ^ (w >> 8)) & 0xffffff == 0;
    }
  }

  lemma MoreZeros(w: bv32, n: nat)
    requires n < 4 && LastZero(w, n + 1)
    ensures w & 0xff == 0
  {
  }

  lemma LowerIsSmall(w: bv32)
    ensures Lower(w) < 0x1000000
  {
  }

  lemma LowerBack(w: bv32)
    requires w & 0xff == 0
    ensures Lower(w) << 8 == w
  {
  }

  lemma RaiseLower(w: bv32)
    requires w & 0xff == 0
    ensures Shift8(Lower(w)) == w
  {
    hide Shift8, Lower;
    LowerIsSmall(w);
    Shift8Small(Lower(w));
    LowerBack(w);
  }

  lemma {:induction false} WordLeavesZeros(s: seq<bv8>)
    requires |s| <= 4
    ensures LastZero(Word(s), 4 - |s|)
    decreases |s|
  {
    hide Xor, High, Lower, LastZero;
    if s == [] {
      assert LastZero(0, 4) by { ZeroIsZero(); }
    } else {
      WordLeavesZeros(s[1..]);
      PutByte(s[0], Word(s[1..]), 4 - |s|);
    }
  }

  lemma ZeroIsZero()
    ensures LastZero(0, 4)
  {
  }

  /** Up to four bytes act on the register all at once. */
  lemma {:induction false} DivisionOfWord(r: bv32, s: seq<bv8>)
    requires |s| <= 4
    ensures Division(r, s) == ShiftBytes(Xor(r, Word(s)), |s|)
    decreases |s|
  {
    hide Shift8, Xor, High, Lower, LastZero;
    if s == [] {
      XorUnit(r);
    } else {
      var b, w := s[0], Word(s[1..]);
      WordLeavesZeros(s[1..]);
      PutByte(b, w, 4 - |s|);
      DivisionOfWord(ByteStep(r, b), s[1..]);
      Shift8IsLinear(Xor(r, High(b)), Lower(w));
      XorAssociates(r, High(b), Lower(w));
    }
  }

  lemma {:induction false} ShiftBytesIsInjective(a: bv32, b: bv32, n: nat)
    requires ShiftBytes(a, n) == ShiftBytes(b, n)
    ensures a == b
    decreases n
  {
    hide Shift8;
    if n > 0 {
      ShiftBytesIsInjective(Shift8(a), Shift8(b), n - 1);
      Shift8IsInjective(a, b);
    }
  }

  lemma TopByte(b: bv8, v: bv32)
    ensures (Xor(High(b), Lower(v)) >> 24) as bv8 == b
  {
  }

  lemma BelowTop(b: bv8, v: bv32)
    requires v & 0xff == 0
    ensures Xor(High(b), Lower(v)) << 8 == v
  {
  }

  lemma TakeByte(b: bv8, c: bv8, v: bv32, w: bv32)
    requires Xor(High(b), Lower(v)) == Xor(High(c), Lower(w))
    requires v & 0xff == 0 && w & 0xff == 0
    ensures b == c && v == w
  {
    hide Xor, High, Lower;
    TopByte(b, v);
    TopByte(c, w);
    BelowTop(b, v);
    BelowTop(c, w);
  }

  lemma {:induction false} WordIsInjective(s: seq<bv8>, t: seq<bv8>)
    requires |s| == |t| <= 4 && Word(s) == Word(t)
    ensures s == t
    decreases |s|
  {
    hide Xor, High, Lower, LastZero;
    if s != [] {
      var v, w := Word(s[1..]), Word(t[1..]);
      WordLeavesZeros(s[1..]);
      WordLeavesZeros(t[1..]);
      MoreZeros(v, 4 - |s|);
      MoreZeros(w, 4 - |s|);
      TakeByte(s[0], t[0], v, w);
      WordIsInjective(s[1..], t[1..]);
      assert s == [s[0]] + s[1..] && t == [t[0]] + t[1..];
    }
  }

  lemma WindowIsInjective(r: bv32, s: seq<bv8>, t: seq<bv8>)
    requires |s| == |t| <= 4 && Division(r, s) == Division(r, t)
    ensures s == t
  {
    hide Division, Xor, Word;
    DivisionOfWord(r, s);
    DivisionOfWord(r, t);
    ShiftBytesIsInjective(Xor(r, Word(s)), Xor(r, Word(t)), |s|);
    XorCommutes(r, Word(s));
    XorCommutes(r, Word(t));
    XorTwice(Word(s), Word(t), r);
    XorIsZero(Xor(Word(s), r), Xor(Word(t), r));
    XorIsZero(Word(s), Word(t));
    WordIsInjective(s, t);
  }

  /** The messages differ at most in the four bytes from `i` on. */
  predicate DifferWithin(a: seq<bv8>, b: seq<bv8>, i: nat) {
    |a| == |b| && forall k :: 0 <= k < |a| && !(i <= k < i + 4) ==> a[k] == b[k]
  }

  /** A change within four consecutive bytes always changes the checksum. */
  lemma ShortChangesAreDetected(start: bv32, a: seq<bv8>, b: seq<bv8>, i: nat)
    requires DifferWithin(a, b, i)
    ensures Division(start, a) == Division(start, b) <==> a == b
  {
    hide Division;
    var lo := if i <= |a| then i else |a|;
    var hi := if i + 4 <= |a| then i + 4 else |a|;
    var mid := a[..lo] + a[lo..hi];
    assert a == mid + a[hi..];
    assert a[..lo] == b[..lo] && a[hi..] == b[hi..];
    assert b == (b[..lo] + b[lo..hi]) + b[hi..];
    DivisionParts(start, mid, a[hi..]);
    DivisionParts(start, a[..lo], a[lo..hi]);
    DivisionParts(start, b[..lo] + b[lo..hi], b[hi..]);
    DivisionParts(start, b[..lo], b[lo..hi]);
    var r := Division(start, a[..lo]);
    DivisionIsInjective(Division(r, a[lo..hi]), Division(r, b[lo..hi]), a[hi..]);
    if Division(start, a) == Division(start, b) {
      WindowIsInjective(r, a[lo..hi], b[lo..hi]);
    }
  }

  /** Five bytes, changed as the polynomial says. */
  function AddPolynomial(s: seq<bv8>): seq<bv8>
    requires |s| == 5
  {
    [s[0] ^ 0x01, s[1] ^ 0x04, s[2] ^ 0xc1, s[3] ^ 0x1d, s[4] ^ 0xb7]
  }

  lemma FirstByteFlipped(r: bv32, b: bv8)
    ensures ByteStep(r, b ^ 1) == Xor(ByteStep(r, b), POLYNOMIAL)
  {
    hide Shift8, Xor;
    HighFlipped(b);
    XorAssociates(r, High(b), High(1));
    Shift8IsLinear(Xor(r, High(b)), High(1));
    PolynomialIsOne();
  }

  lemma HighFlipped(b: bv8)
    ensures High(b ^ 1) == Xor(High(b), High(1))
  {
  }

  lemma PolynomialIsOne()
    ensures Shift8(High(1)) == POLYNOMIAL
  {
    assert High(1) == 0x1000000;
  }

  lemma WordOfFour(a: bv8, b: bv8, c: bv8, d: bv8)
    ensures Word([a, b, c, d]) == Xor(High(a), Lower(Xor(High(b), Lower(Xor(High(c), Lower(High(d)))))))
  {
    hide Xor, Lower, High;
    assert [a, b, c, d][1..] == [b, c, d] && [b, c, d][1..] == [c, d] && [c, d][1..] == [d] && [d][1..] == [];
    assert Word([d]) == Xor(High(d), Lower(0));
    assert Lower(0) == 0 by { LowerZero(); }
    XorUnit(High(d));
    assert Word([c, d]) == Xor(High(c), Lower(Word([d])));
    assert Word([b, c, d]) == Xor(High(b), Lower(Word([c, d])));
  }

  lemma LowerZero()
    ensures Lower(0) == 0
  {
  }

  lemma WordFlipped(a: bv8, b: bv8, c: bv8, d: bv8)
    ensures Word([a ^ 0x04, b ^ 0xc1, c ^ 0x1d, d ^ 0xb7]) == Xor(Word([a, b, c, d]), POLYNOMIAL)
  {
    hide Word;
    WordOfFour(a, b, c, d);
    WordOfFour(a ^ 0x04, b ^ 0xc1, c ^ 0x1d, d ^ 0xb7);
  }

  /** Four is the limit: any five consecutive bytes can be changed unnoticed. */
  lemma FiveBytesCanEscape(start: bv32, before: seq<bv8>, s: seq<bv8>, after: seq<bv8>)
    requires |s| == 5
    ensures AddPolynomial(s) != s
    ensures Division(start, before + AddPolynomial(s) + after) == Division(start, before + s + after)
  {
    hide Division;
    var t := AddPolynomial(s);
    var r := Division(start, before);
    assert t[0] != s[0];
    DivisionParts(start, before + s, after);
    DivisionParts(start, before + t, after);
    DivisionParts(start, before, s);
    DivisionParts(start, before, t);
    FiveBytesCancel(r, s);
  }

  lemma FiveBytesCancel(r: bv32, s: seq<bv8>)
    requires |s| == 5
    ensures Division(r, AddPolynomial(s)) == Division(r, s)
  {
    hide Xor, Word, ByteStep;
    var t := AddPolynomial(s);
    var q := ByteStep(r, s[0]);
    FirstByteFlipped(r, s[0]);
    var rest := [s[1], s[2], s[3], s[4]];
    assert s[1..] == rest;
    assert t[0] == s[0] ^ 1;
    assert Division(r, t) == Division(ByteStep(r, t[0]), t[1..]);
    assert Division(r, s) == Division(q, rest);
    XorSwap(q, POLYNOMIAL, Word(t[1..]));
    assert t[1..] == [s[1] ^ 0x04, s[2] ^ 0xc1, s[3] ^ 0x1d, s[4] ^ 0xb7];
    WordFlipped(s[1], s[2], s[3], s[4]);
    DivisionOfWord(q, rest);
    DivisionOfWord(Xor(q, POLYNOMIAL), t[1..]);
    XorTwice(q, Word(rest), POLYNOMIAL);
  }
}
