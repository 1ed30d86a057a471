/** Boot images: a header with a checksum of its own, a jump to the start of the
    program, and a checksum over everything in the last four bytes. */
module BootImage {
  import opened Crc
  import opened CrcTable
  import opened Seams

  // ---------- The checksum of an image ----------

  /** The table-driven loop over the first `length` bytes. */
  method Crc32(start: bv32, buf: array<bv8>, length: nat) returns (crc: bv32)
    requires length <= buf.Length
    ensures crc == Division(start, buf[..length])
  {
    hide Division, ByteStep, TableByte;
    NoBytes(start);
    crc := start;
    for i := 0 to length
      invariant crc == Division(start, buf[..i])
    {
      TableStep(crc, buf[i]);
      OneByte(start, buf[..i], buf[i]);
      assert buf[..i + 1] == buf[..i] + [buf[i]];
      crc := TableByte(crc, buf[i]);
    }
  }

  lemma NoBytes(r: bv32)
    ensures Division(r, []) == r
  {
  }

  lemma OneByte(start: bv32, s: seq<bv8>, b: bv8)
    ensures Division(start, s + [b]) == ByteStep(Division(start, s), b)
  {
    hide ByteStep;
    DivisionParts(start, s, [b]);
    assert [b][1..] == [];
  }

  /** The checksum of a text, as it is stored: start value and result inverted. */
  function Checksum(s: seq<bv8>): bv32 {
    Xor(Division(0xffffffff, s), 0xffffffff)
  }

  /** A word in memory, the lowest byte first. */
  function WordAt(s: seq<bv8>, i: nat): bv32
    requires i + 4 <= |s|
  {
    Assemble(s[i], s[i + 1], s[i + 2], s[i + 3])
  }

  function Assemble(a: bv8, b: bv8, c: bv8, d: bv8): bv32 {
    a as bv32 | (b as bv32 << 8) | (c as bv32 << 16) | (d as bv32 << 24)
  }

  /** The bytes of a word, the lowest first. */
  function Parts(w: bv32): seq<bv8> {
    [(w & 0xff) as bv8, ((w >> 8) & 0xff) as bv8, ((w >> 16) & 0xff) as bv8, (w >> 24) as bv8]
  }

  lemma AssembleParts(w: bv32)
    ensures Assemble(Parts(w)[0], Parts(w)[1], Parts(w)[2], Parts(w)[3]) == w
  {
    assert ((w & 0xff) as bv8) as bv32 == w & 0xff;
    assert (((w >> 8) & 0xff) as bv8) as bv32 << 8 == w & 0xff00;
    assert (((w >> 16) & 0xff) as bv8) as bv32 << 16 == w & 0xff0000;
    assert ((w >> 24) as bv8) as bv32 << 24 == w & 0xff000000;
  }

  /** The last four bytes are the checksum of all before. */
  predicate Sealed(s: seq<bv8>) {
    |s| >= 4 && WordAt(s, |s| - 4) == Checksum(s[..|s| - 4])
  }

  lemma SameWord(a: seq<bv8>, b: seq<bv8>, i: nat)
    requires i + 4 <= |a| && i + 4 <= |b| && WordAt(a, i) == WordAt(b, i)
    ensures forall k :: i <= k < i + 4 ==> a[k] == b[k]
  {
    AssembledApart(a[i], a[i + 1], a[i + 2], a[i + 3]);
    AssembledApart(b[i], b[i + 1], b[i + 2], b[i + 3]);
    hide Assemble, Parts;
    assert Parts(WordAt(a, i)) == [a[i], a[i + 1], a[i + 2], a[i + 3]];
    assert Parts(WordAt(b, i)) == [b[i], b[i + 1], b[i + 2], b[i + 3]];
  }

  lemma AssembledApart(a: bv8, b: bv8, c: bv8, d: bv8)
    ensures Parts(Assemble(a, b, c, d)) == [a, b, c, d]
  {
    LowParts(a, b, c, d);
    HighParts(a, b, c, d);
    hide Assemble;
  }

  lemma LowParts(a: bv8, b: bv8, c: bv8, d: bv8)
    ensures var w := Assemble(a, b, c, d); w & 0xff == a as bv32 && (w >> 8) & 0xff == b as bv32
  {
  }

  lemma HighParts(a: bv8, b: bv8, c: bv8, d: bv8)
    ensures var w := Assemble(a, b, c, d); (w >> 16) & 0xff == c as bv32 && w >> 24 == d as bv32
  {
  }

  /** Two sealed images differ in the checksum as their registers do. */
  lemma SealsDiffer(a: seq<bv8>, b: seq<bv8>)
    requires Sealed(a) && |a| == |b|
    ensures
      var n := |a| - 4;
      Sealed(b) <==> Xor(WordAt(a, n), WordAt(b, n)) == Xor(Division(0xffffffff, a[..n]), Division(0xffffffff, b[..n]))
  {
    hide Division, Xor, WordAt;
    var n := |a| - 4;
    var p, q := Division(0xffffffff, a[..n]), Division(0xffffffff, b[..n]);
    XorTwice(p, q, 0xffffffff);
    XorCancels(Checksum(a[..n]), WordAt(b, n), Checksum(b[..n]));
  }

  lemma XorCancels(a: bv32, b: bv32, c: bv32)
    ensures Xor(a, b) == Xor(a, c) <==> b == c
  {
    hide Xor;
    XorCommutes(a, b);
    XorCommutes(a, c);
    XorTwice(b, c, a);
    XorIsZero(Xor(b, a), Xor(c, a));
    XorIsZero(b, c);
  }

  /** A window of four bytes before the checksum. */
  lemma DamageBefore(a: seq<bv8>, b: seq<bv8>, i: nat)
    requires Sealed(a) && Sealed(b) && DifferWithin(a, b, i) && i + 8 <= |a|
    ensures a == b
  {
    hide Division, Xor, WordAt;
    var n := |a| - 4;
    SealsDiffer(a, b);
    assert WordAt(a, n) == WordAt(b, n) by { SameBytes(a, b, n); }
    XorSelf(WordAt(a, n));
    XorIsZero(Division(0xffffffff, a[..n]), Division(0xffffffff, b[..n]));
    ShortChangesAreDetected(0xffffffff, a[..n], b[..n], i);
    assert a == a[..n] + a[n..] && b == b[..n] + b[n..];
    assert a[n..] == b[n..];
  }

  lemma SameBytes(a: seq<bv8>, b: seq<bv8>, n: nat)
    requires n + 4 <= |a| == |b| && a[n] == b[n] && a[n + 1] == b[n + 1] && a[n + 2] == b[n + 2] && a[n + 3] == b[n + 3]
    ensures WordAt(a, n) == WordAt(b, n)
  {
  }

  /** A window in the checksum alone. */
  lemma DamageWithin(a: seq<bv8>, b: seq<bv8>)
    requires Sealed(a) && Sealed(b) && |a| == |b| && a[..|a| - 4] == b[..|a| - 4]
    ensures a == b
  {
    hide Division, Xor, WordAt;
    var n := |a| - 4;
    SameWord(a, b, n);
    assert a == a[..n] + a[n..] && b == b[..n] + b[n..];
    assert a[n..] == b[n..];
  }

  /** The one other image that is sealed too: two bytes before the checksum and its
      two lower bytes are changed. */
  function Twin(a: seq<bv8>): seq<bv8>
    requires |a| >= 6
  {
    var n := |a| - 4;
    a[..n - 2] + [Flip(a[n - 2], 0x86), Flip(a[n - 1], 0x1b), Flip(a[n], 0x2f), Flip(a[n + 1], 0x77), a[n + 2], a[n + 3]]
  }

  lemma WordsFlipped(a: bv8, b: bv8, c: bv8, d: bv8)
    ensures Xor(Assemble(a, b, c, d), Assemble(Flip(a, 0x2f), Flip(b, 0x77), c, d)) == 0x772f
  {
  }

  lemma UpperWord(a: bv8, b: bv8, c: bv8, d: bv8, a': bv8, b': bv8, c': bv8)
    ensures UpperZero(Xor(Assemble(a, b, c, d), Assemble(a', b', c', d)), 1)
    ensures c == c' ==> UpperZero(Xor(Assemble(a, b, c, d), Assemble(a', b', c', d)), 2)
    ensures c == c' && b == b' ==> UpperZero(Xor(Assemble(a, b, c, d), Assemble(a', b', c', d)), 3)
  {
  }

  /** The registers of two images that differ in the last bytes before the checksum. */
  lemma EndingsOf(a: seq<bv8>, b: seq<bv8>, i: nat)
    requires |a| == |b| && |a| - 7 <= i < |a| - 4 && a[..i] == b[..i]
    ensures
      var n := |a| - 4;
      var v := Xor(Division(0xffffffff, a[..n]), Division(0xffffffff, b[..n]));
      (UpperZero(v, n - i) <==> a[i..n] == b[i..n] || Unseen(a[i..n], b[i..n])) && (Unseen(a[i..n], b[i..n]) ==> v == 0x772f)
  {
    hide Division, Xor, UpperZero, Unseen;
    var n := |a| - 4;
    assert a[..n] == a[..i] + a[i..n] && b[..n] == a[..i] + b[i..n];
    DivisionParts(0xffffffff, a[..i], a[i..n]);
    DivisionParts(0xffffffff, a[..i], b[i..n]);
    EndingShows(Division(0xffffffff, a[..i]), a[i..n], b[i..n]);
  }

  /** The stored bytes that a window across the end of the text does not reach. */
  lemma UpperStays(a: seq<bv8>, b: seq<bv8>, i: nat)
    requires DifferWithin(a, b, i) && |a| - 7 <= i < |a| - 4
    ensures var n := |a| - 4; UpperZero(Xor(WordAt(a, n), WordAt(b, n)), n - i)
    ensures a[..i] == b[..i]
  {
    hide Xor, UpperZero, Assemble;
    var n := |a| - 4;
    UpperWord(a[n], a[n + 1], a[n + 2], a[n + 3], b[n], b[n + 1], b[n + 2]);
  }

  /** A window across the end of the text. */
  lemma DamageAcross(a: seq<bv8>, b: seq<bv8>, i: nat)
    requires Sealed(a) && Sealed(b) && DifferWithin(a, b, i) && |a| - 7 <= i < |a| - 4
    ensures a == b || (|a| >= 6 && b == Twin(a))
  {
    var n := |a| - 4;
    assert |a| == |b|;
    hide *;
    UpperStays(a, b, i);
    SealsDiffer(a, b);
    EndingsOf(a, b, i);
    if a[i..n] == b[i..n] {
      assert a[..n] == a[..i] + a[i..n] && b[..n] == b[..i] + b[i..n];
      DamageWithin(a, b);
    } else {
      IsTwin(a, b, i);
    }
  }

  lemma IsTwin(a: seq<bv8>, b: seq<bv8>, i: nat)
    requires Sealed(a) && Sealed(b) && DifferWithin(a, b, i) && |a| - 7 <= i < |a| - 4
    requires var n := |a| - 4; Unseen(a[i..n], b[i..n]) && Xor(WordAt(a, n), WordAt(b, n)) == 0x772f
    ensures |a| >= 6 && b == Twin(a)
  {
    hide Xor, Sealed, Assemble, Flip;
    var n := |a| - 4;
    WordsFlipped(a[n], a[n + 1], a[n + 2], a[n + 3]);
    XorCancels(WordAt(a, n), WordAt(b, n), WordAt(Twin(a), n));
    SameWord(b, Twin(a), n);
    assert a[i..n][0] == a[i] && a[i..n][1] == a[i + 1] && b[i..n][0] == b[i] && b[i..n][1] == b[i + 1];
    assert forall k :: 0 <= k < |a| ==> b[k] == Twin(a)[k];
  }

  lemma TwinIsSealed(a: seq<bv8>)
    requires Sealed(a) && |a| >= 6
    ensures Sealed(Twin(a)) && Twin(a) != a
  {
    hide Division, Xor, Sealed, Assemble, Flip, UpperZero;
    var n, b := |a| - 4, Twin(a);
    assert a[..n - 2] == b[..n - 2];
    assert a[n - 2..n] == [a[n - 2], a[n - 1]];
    assert b[n - 2..n] == [Flip(a[n - 2], 0x86), Flip(a[n - 1], 0x1b)];
    EndingsOf(a, b, n - 2);
    WordsFlipped(a[n], a[n + 1], a[n + 2], a[n + 3]);
    SealsDiffer(a, b);
    Flipped(a[n - 2]);
    assert b[n - 2] != a[n - 2];
  }

  lemma Flipped(b: bv8)
    ensures Flip(b, 0x86) != b
  {
  }

  /** Of the images that differ from a sealed one within four consecutive bytes, the
      checksum included, exactly one is sealed too. */
  lemma DamageBreaksTheSeal(a: seq<bv8>, b: seq<bv8>, i: nat)
    requires Sealed(a) && DifferWithin(a, b, i)
    ensures Sealed(b) <==> a == b || (|a| >= 6 && b == Twin(a))
  {
    hide Division, Xor, WordAt, Flip;
    if Sealed(b) {
      if i + 8 <= |a| {
        DamageBefore(a, b, i);
      } else if i >= |a| - 4 {
        assert a[..|a| - 4] == b[..|a| - 4];
        DamageWithin(a, b);
      } else {
        DamageAcross(a, b, i);
      }
    }
    if |a| >= 6 { TwinIsSealed(a); }
  }

  // ---------- Numbers in bytes ----------

  function Digit(b: bool): nat {
    if b then 1 else 0
  }

  function Number(b7: bool, b6: bool, b5: bool, b4: bool, b3: bool, b2: bool, b1: bool, b0: bool): nat {
    128 * Digit(b7) + 64 * Digit(b6) + 32 * Digit(b5) + 16 * Digit(b4)
    + 8 * Digit(b3) + 4 * Digit(b2) + 2 * Digit(b1) + Digit(b0)
  }

  /** A byte as a number. */
  function Value(b: bv8): nat {
    Number(Has(b, 0x80), Has(b, 0x40), Has(b, 0x20), Has(b, 0x10), Has(b, 0x08), Has(b, 0x04), Has(b, 0x02), Has(b, 0x01))
  }

  function OfBits(b7: bool, b6: bool, b5: bool, b4: bool, b3: bool, b2: bool, b1: bool, b0: bool): bv8 {
    (if b7 then 0x80 else 0) | (if b6 then 0x40 else 0) | (if b5 then 0x20 else 0) | (if b4 then 0x10 else 0)
    | (if b3 then 0x08 else 0) | (if b2 then 0x04 else 0) | (if b1 then 0x02 else 0) | (if b0 then 0x01 else 0)
  }

  lemma HighOfBits(b7: bool, b6: bool, b5: bool, b4: bool, b3: bool, b2: bool, b1: bool, b0: bool)
    ensures
      var b := OfBits(b7, b6, b5, b4, b3, b2, b1, b0);
      Has(b, 0x80) == b7 && Has(b, 0x40) == b6 && Has(b, 0x20) == b5 && Has(b, 0x10) == b4
  {
  }

  lemma LowOfBits(b7: bool, b6: bool, b5: bool, b4: bool, b3: bool, b2: bool, b1: bool, b0: bool)
    ensures
      var b := OfBits(b7, b6, b5, b4, b3, b2, b1, b0);
      Has(b, 0x08) == b3 && Has(b, 0x04) == b2 && Has(b, 0x02) == b1 && Has(b, 0x01) == b0
  {
  }

  predicate Odd(n: nat) {
    n % 2 == 1
  }

  function Half(n: nat): nat {
    n / 2
  }

  /** A number as a byte. */
  function Byte(n: nat): bv8
    requires n < 256
  {
    var n1 := Half(n);
    var n2 := Half(n1);
    var n3 := Half(n2);
    var n4 := Half(n3);
    var n5 := Half(n4);
    var n6 := Half(n5);
    OfBits(Odd(Half(n6)), Odd(n6), Odd(n5), Odd(n4), Odd(n3), Odd(n2), Odd(n1), Odd(n))
  }

  lemma ValueOfBits(b7: bool, b6: bool, b5: bool, b4: bool, b3: bool, b2: bool, b1: bool, b0: bool)
    ensures Value(OfBits(b7, b6, b5, b4, b3, b2, b1, b0)) == Number(b7, b6, b5, b4, b3, b2, b1, b0)
  {
    hide Has, OfBits, Number;
    HighOfBits(b7, b6, b5, b4, b3, b2, b1, b0);
    LowOfBits(b7, b6, b5, b4, b3, b2, b1, b0);
  }

  lemma ByteValue(n: nat)
    requires n < 256
    ensures Value(Byte(n)) == n
  {
    hide Value, OfBits, Odd, Digit, Half;
    var n1 := Half(n);
    var n2 := Half(n1);
    var n3 := Half(n2);
    var n4 := Half(n3);
    var n5 := Half(n4);
    var n6 := Half(n5);
    var n7 := Half(n6);
    ValueOfBits(Odd(n7), Odd(n6), Odd(n5), Odd(n4), Odd(n3), Odd(n2), Odd(n1), Odd(n));
    Halved(n);
    Halved(n1);
    Halved(n2);
    Halved(n3);
    Halved(n4);
    Halved(n5);
    Halved(n6);
    OnlyDigit(n7);
  }

  lemma Halved(n: nat)
    ensures n == 2 * Half(n) + Digit(Odd(n))
  {
  }

  lemma OnlyDigit(n: nat)
    requires n < 2
    ensures n == Digit(Odd(n))
  {
  }

  /** The lowest byte of a number in two's complement. */
  function LowByte(x: int): bv8 {
    Byte(x % 256)
  }

  lemma LowByteValue(x: int)
    ensures Value(LowByte(x)) == x % 256
  {
    hide Value, Byte;
    ByteValue(x % 256);
  }

  function Short(s: seq<bv8>, i: nat): nat
    requires i + 2 <= |s|
  {
    Value(s[i]) + 256 * Value(s[i + 1])
  }

  function Long(s: seq<bv8>, i: nat): nat
    requires i + 4 <= |s|
  {
    Short(s, i) + 65536 * Short(s, i + 2)
  }

  // ---------- Jumps ----------

  const BRANCH_INST: bv8 := 0xea

  /** Where the jump at `at` goes: the offset is in words and counts from eight
      bytes on. */
  function Target(s: seq<bv8>, at: nat): int
    requires at + 4 <= |s|
  {
    var field := Short(s, at) + 65536 * Value(s[at + 2]);
    at + 8 + 4 * (if field < 0x800000 then field else field - 0x1000000)
  }

  /** The distances that a jump can bridge. */
  predicate Reachable(at: int, dest: int) {
    var offset := dest - at - 8;
    offset % 4 == 0 && -0x2000000 <= offset < 0x2000000
  }

  /** There is a jump at `at`, which goes to `dest` exactly if that is in reach. */
  predicate JumpsTo(s: seq<bv8>, at: nat, dest: int)
    requires at + 4 <= |s|
  {
    s[at + 3] == BRANCH_INST && (Target(s, at) == dest <==> Reachable(at, dest))
  }

  /** Writes the jump at `at` to `dest`. */
  method Branch(buf: array<bv8>, at: nat, dest: int)
    requires at + 4 <= buf.Length
    modifies buf
    ensures buf[..at] == old(buf[..at]) && buf[at + 4..] == old(buf[at + 4..])
    ensures JumpsTo(buf[..], at, dest)
  {
    hide Value, LowByte;
    var offset := dest - at - 8;
    buf[at] := LowByte(offset / 4);
    buf[at + 1] := LowByte(offset / 1024);
    buf[at + 2] := LowByte(offset / 262144);
    buf[at + 3] := BRANCH_INST;
    LowByteValue(offset / 4);
    LowByteValue(offset / 1024);
    LowByteValue(offset / 262144);
    OffsetField(offset);
    FieldReaches(offset);
  }

  /** The three bytes are the offset in words, modulo 2 to the 24. */
  lemma OffsetField(offset: int)
    ensures
      var words := offset / 4;
      (words % 256) + 256 * (offset / 1024 % 256) + 65536 * (offset / 262144 % 256) == words % 0x1000000
  {
    var words := offset / 4;
    assert offset / 1024 == words / 256;
    assert offset / 262144 == words / 256 / 256;
  }

  lemma FieldReaches(offset: int)
    ensures
      var field := offset / 4 % 0x1000000;
      4 * (if field < 0x800000 then field else field - 0x1000000) == offset <==>
        offset % 4 == 0 && -0x2000000 <= offset < 0x2000000
  {
    var words := offset / 4;
    assert offset == 4 * words + offset % 4;
    if 0 <= words < 0x800000 {
      assert words % 0x1000000 == words;
    } else if -0x800000 <= words < 0 {
      assert words % 0x1000000 == words + 0x1000000;
    }
  }

  // ---------- The header ----------

  const HEADER := 0x40
  const VALIDATION_WORD := 0x31305341

  /** The sum of bytes that the header carries of itself. */
  function SumOf(s: seq<bv8>): nat {
    if s == [] then 0 else SumOf(s[..|s| - 1]) + Value(s[|s| - 1])
  }

  lemma {:induction false} SumIsSmall(s: seq<bv8>)
    requires |s| <= 18
    ensures SumOf(s) <= 255 * |s| < 65536
  {
    hide Value;
    if s != [] {
      SumIsSmall(s[..|s| - 1]);
      ValueIsSmall(s[|s| - 1]);
    }
  }

  lemma ValueIsSmall(b: bv8)
    ensures Value(b) < 256
  {
    hide Has;
  }

  /** Nothing but the bytes from `lo` to `hi` changed. */
  predicate SameOutside(s: seq<bv8>, t: seq<bv8>, lo: int, hi: int) {
    |s| == |t| && forall k :: 0 <= k < |s| && !(lo <= k < hi) ==> s[k] == t[k]
  }

  method PutShort(buf: array<bv8>, i: nat, n: nat)
    requires i + 2 <= buf.Length
    modifies buf
    ensures SameOutside(old(buf[..]), buf[..], i, i + 2)
    ensures Short(buf[..], i) == n % 65536
  {
    hide Value, LowByte;
    LowByteValue(n);
    LowByteValue(n / 256);
    buf[i] := LowByte(n);
    buf[i + 1] := LowByte(n / 256);
  }

  lemma Halves(n: nat)
    requires n < 0x1_0000_0000
    ensures n % 65536 + 65536 * (n / 65536 % 65536) == n
  {
  }

  method PutLong(buf: array<bv8>, i: nat, n: nat)
    requires i + 4 <= buf.Length && n < 0x1_0000_0000
    modifies buf
    ensures SameOutside(old(buf[..]), buf[..], i, i + 4)
    ensures Long(buf[..], i) == n
  {
    hide Short;
    PutShort(buf, i, n);
    ghost var s := buf[..];
    PutShort(buf, i + 2, n / 65536);
    KeepShort(s, buf[..], i + 2, i + 4, i);
    Halves(n);
  }

  method SumBytes(buf: array<bv8>, from: nat, to: nat) returns (sum: nat)
    requires from <= to <= buf.Length
    ensures sum == SumOf(buf[from..to])
  {
    hide Value;
    sum := 0;
    for i := from to to
      invariant sum == SumOf(buf[from..i])
    {
      assert buf[from..i + 1][..i - from] == buf[from..i];
      sum := sum + Value(buf[i]);
    }
  }

  /** What the boot code checks before it trusts a header of version 0: it finds
      the program's length in words and, within reach, jumps to `start`. */
  predicate Header0(s: seq<bv8>, start: int)
    requires |s| >= HEADER + 16
  {
    && Long(s, HEADER) == VALIDATION_WORD && Short(s, HEADER + 4) == 0
    && Short(s, HEADER + 6) == |s| / 4 % 65536 && Short(s, HEADER + 8) == 0
    && Short(s, HEADER + 10) == SumOf(s[HEADER..HEADER + 10])
    && JumpsTo(s, HEADER + 12, start)
  }

  const TRAMPOLINE := HEADER + 20

  /** Where the header ends: behind the jump if there is one. */
  function HeaderEnd(version: nat, start: int): nat {
    if version == 0 then HEADER + 16 else if start < HEADER then TRAMPOLINE + 4 else TRAMPOLINE
  }

  /** The same for version 1, where the program is entered at an offset from the
      header; a program before the header is reached by a jump behind it. */
  predicate Header1(s: seq<bv8>, start: int)
    requires |s| >= HeaderEnd(1, start)
  {
    && Long(s, HEADER) == VALIDATION_WORD && Short(s, HEADER + 4) == 1
    && Short(s, HEADER + 6) == 20 && Long(s, HEADER + 8) == |s| && Short(s, HEADER + 16) == 0
    && Short(s, HEADER + 18) == SumOf(s[HEADER..HEADER + 18])
    && var entry := HEADER + Long(s, HEADER + 12);
       if start >= HEADER then entry == start
       else entry == TRAMPOLINE && JumpsTo(s, TRAMPOLINE, start)
  }

  lemma KeepShort(s: seq<bv8>, t: seq<bv8>, lo: int, hi: int, i: nat)
    requires SameOutside(s, t, lo, hi) && i + 2 <= |s| && (i + 2 <= lo || hi <= i)
    ensures Short(s, i) == Short(t, i)
  {
    hide Value;
  }

  lemma KeepLong(s: seq<bv8>, t: seq<bv8>, lo: int, hi: int, i: nat)
    requires SameOutside(s, t, lo, hi) && i + 4 <= |s| && (i + 4 <= lo || hi <= i)
    ensures Long(s, i) == Long(t, i) && Target(s, i) == Target(t, i) && WordAt(s, i) == WordAt(t, i)
    ensures s[i + 3] == t[i + 3]
  {
    hide Value, Assemble;
    KeepShort(s, t, lo, hi, i);
    KeepShort(s, t, lo, hi, i + 2);
    assert s[i + 2] == t[i + 2] && s[i + 3] == t[i + 3];
  }

  lemma KeepSlice(s: seq<bv8>, t: seq<bv8>, lo: int, hi: int, i: nat, j: nat)
    requires SameOutside(s, t, lo, hi) && i <= j <= |s| && (j <= lo || hi <= i)
    ensures s[i..j] == t[i..j]
  {
  }

  /** The common beginning of both headers. */
  method PutStart(buf: array<bv8>, version: nat)
    requires buf.Length >= HEADER + 6 && version <= 1
    modifies buf
    ensures SameOutside(old(buf[..]), buf[..], HEADER, HEADER + 6)
    ensures Long(buf[..], HEADER) == VALIDATION_WORD && Short(buf[..], HEADER + 4) == version
  {
    hide Short, Long, Target, WordAt;
    PutLong(buf, HEADER, VALIDATION_WORD);
    ghost var s := buf[..];
    PutShort(buf, HEADER + 4, version);
    KeepLong(s, buf[..], HEADER + 4, HEADER + 6, HEADER);
  }

  /** The fields before the checksum of version 0. */
  predicate Fields0(s: seq<bv8>, start: int)
    requires |s| >= HEADER + 16
  {
    && Long(s, HEADER) == VALIDATION_WORD && Short(s, HEADER + 4) == 0
    && Short(s, HEADER + 6) == |s| / 4 % 65536 && Short(s, HEADER + 8) == 0
    && JumpsTo(s, HEADER + 12, start)
  }

  method PutFields0(buf: array<bv8>, start: nat)
    requires buf.Length >= HEADER + 16
    modifies buf
    ensures SameOutside(old(buf[..]), buf[..], HEADER, HEADER + 16)
    ensures Fields0(buf[..], start)
  {
    hide Short, Long, Target, WordAt, Reachable;
    var n := buf.Length;
    PutStart(buf, 0);
    ghost var s := buf[..];
    PutShort(buf, HEADER + 6, n / 4);
    ghost var t := buf[..];
    KeepLong(s, t, HEADER + 6, HEADER + 8, HEADER);
    KeepShort(s, t, HEADER + 6, HEADER + 8, HEADER + 4);
    PutShort(buf, HEADER + 8, 0);
    ghost var u := buf[..];
    KeepLong(t, u, HEADER + 8, HEADER + 10, HEADER);
    KeepShort(t, u, HEADER + 8, HEADER + 10, HEADER + 4);
    KeepShort(t, u, HEADER + 8, HEADER + 10, HEADER + 6);
    Branch(buf, HEADER + 12, start);
    ghost var v := buf[..];
    OnlyFour(u, v, HEADER + 12);
    KeepLong(u, v, HEADER + 12, HEADER + 16, HEADER);
    KeepShort(u, v, HEADER + 12, HEADER + 16, HEADER + 4);
    KeepShort(u, v, HEADER + 12, HEADER + 16, HEADER + 6);
    KeepShort(u, v, HEADER + 12, HEADER + 16, HEADER + 8);
  }

  lemma OnlyFour(s: seq<bv8>, t: seq<bv8>, i: nat)
    requires i + 4 <= |s| == |t| && s[..i] == t[..i] && s[i + 4..] == t[i + 4..]
    ensures SameOutside(s, t, i, i + 4)
  {
    assert forall k :: 0 <= k < i ==> s[..i][k] == s[k] && t[..i][k] == t[k];
    assert forall k :: i + 4 <= k < |s| ==> s[i + 4..][k - (i + 4)] == s[k] && t[i + 4..][k - (i + 4)] == t[k];
  }

  method PutHeader0(buf: array<bv8>, start: nat)
    requires buf.Length >= HEADER + 16
    modifies buf
    ensures SameOutside(old(buf[..]), buf[..], HEADER, HEADER + 16)
    ensures Header0(buf[..], start)
  {
    hide Short, Long, Target, WordAt, Reachable, SumOf;
    PutFields0(buf, start);
    ghost var s := buf[..];
    var sum := SumBytes(buf, HEADER, HEADER + 10);
    SumIsSmall(buf[HEADER..HEADER + 10]);
    PutShort(buf, HEADER + 10, sum);
    KeepHeader0(s, buf[..], start);
  }

  lemma KeepHeader0(s: seq<bv8>, t: seq<bv8>, start: int)
    requires |s| >= HEADER + 16 && Fields0(s, start) && SameOutside(s, t, HEADER + 10, HEADER + 12)
    requires Short(t, HEADER + 10) == SumOf(s[HEADER..HEADER + 10])
    ensures Header0(t, start)
  {
    hide Short, Long, Target, WordAt, Reachable, SumOf;
    KeepLong(s, t, HEADER + 10, HEADER + 12, HEADER);
    KeepShort(s, t, HEADER + 10, HEADER + 12, HEADER + 4);
    KeepShort(s, t, HEADER + 10, HEADER + 12, HEADER + 6);
    KeepShort(s, t, HEADER + 10, HEADER + 12, HEADER + 8);
    KeepLong(s, t, HEADER + 10, HEADER + 12, HEADER + 12);
    KeepSlice(s, t, HEADER + 10, HEADER + 12, HEADER, HEADER + 10);
  }

  /** The fields before the checksum of version 1. */
  predicate Fields1(s: seq<bv8>, entry: nat)
    requires |s| >= TRAMPOLINE
  {
    && Long(s, HEADER) == VALIDATION_WORD && Short(s, HEADER + 4) == 1
    && Short(s, HEADER + 6) == 20 && Long(s, HEADER + 8) == |s| && Short(s, HEADER + 16) == 0
    && HEADER + Long(s, HEADER + 12) == entry
  }

  method PutFields1(buf: array<bv8>, entry: nat)
    requires TRAMPOLINE <= buf.Length < 0x1_0000_0000 && HEADER <= entry < 0x1_0000_0000
    modifies buf
    ensures SameOutside(old(buf[..]), buf[..], HEADER, TRAMPOLINE)
    ensures Fields1(buf[..], entry)
  {
    hide Short, Long, Target, WordAt, Reachable;
    var n := buf.Length;
    PutStart(buf, 1);
    ghost var s := buf[..];
    PutShort(buf, HEADER + 6, 20);
    ghost var t := buf[..];
    KeepLong(s, t, HEADER + 6, HEADER + 8, HEADER);
    KeepShort(s, t, HEADER + 6, HEADER + 8, HEADER + 4);
    PutLong(buf, HEADER + 8, n);
    ghost var u := buf[..];
    KeepLong(t, u, HEADER + 8, HEADER + 12, HEADER);
    KeepShort(t, u, HEADER + 8, HEADER + 12, HEADER + 4);
    KeepShort(t, u, HEADER + 8, HEADER + 12, HEADER + 6);
    PutLong(buf, HEADER + 12, entry - HEADER);
    ghost var v := buf[..];
    KeepLong(u, v, HEADER + 12, HEADER + 16, HEADER);
    KeepShort(u, v, HEADER + 12, HEADER + 16, HEADER + 4);
    KeepShort(u, v, HEADER + 12, HEADER + 16, HEADER + 6);
    KeepLong(u, v, HEADER + 12, HEADER + 16, HEADER + 8);
    PutShort(buf, HEADER + 16, 0);
    KeepFields1(v, buf[..], entry, HEADER + 16, HEADER + 18);
  }

  lemma KeepFields1(s: seq<bv8>, t: seq<bv8>, entry: nat, lo: int, hi: int)
    requires |s| >= TRAMPOLINE && SameOutside(s, t, lo, hi) && lo >= HEADER + 16
    ensures Long(t, HEADER) == Long(s, HEADER) && Short(t, HEADER + 4) == Short(s, HEADER + 4)
    ensures Short(t, HEADER + 6) == Short(s, HEADER + 6) && Long(t, HEADER + 8) == Long(s, HEADER + 8)
    ensures Long(t, HEADER + 12) == Long(s, HEADER + 12)
  {
    hide Short, Long, Target, WordAt;
    KeepLong(s, t, lo, hi, HEADER);
    KeepShort(s, t, lo, hi, HEADER + 4);
    KeepShort(s, t, lo, hi, HEADER + 6);
    KeepLong(s, t, lo, hi, HEADER + 8);
    KeepLong(s, t, lo, hi, HEADER + 12);
  }

  method PutHeader1(buf: array<bv8>, start: nat)
    requires HeaderEnd(1, start) <= buf.Length < 0x1_0000_0000 && start < 0x1_0000_0000
    modifies buf
    ensures SameOutside(old(buf[..]), buf[..], HEADER, HeaderEnd(1, start))
    ensures Header1(buf[..], start)
  {
    hide Short, Long, Target, WordAt, Reachable, SumOf;
    ghost var s := buf[..];
    var entry := start;
    if start < HEADER {
      Branch(buf, TRAMPOLINE, start);
      OnlyFour(s, buf[..], TRAMPOLINE);
      entry := TRAMPOLINE;
    }
    ghost var t := buf[..];
    PutFields1(buf, entry);
    ghost var u := buf[..];
    var sum := SumBytes(buf, HEADER, HEADER + 18);
    SumIsSmall(buf[HEADER..HEADER + 18]);
    PutShort(buf, HEADER + 18, sum);
    ghost var v := buf[..];
    KeepFields1(u, v, entry, HEADER + 18, TRAMPOLINE);
    KeepShort(u, v, HEADER + 18, TRAMPOLINE, HEADER + 16);
    KeepSlice(u, v, HEADER + 18, TRAMPOLINE, HEADER, HEADER + 18);
    SameOutsideTwice(t, u, v, HEADER, TRAMPOLINE, HEADER + 18, TRAMPOLINE);
    if start < HEADER {
      KeepLong(t, v, HEADER, TRAMPOLINE, TRAMPOLINE);
    }
  }

  lemma SameOutsideTwice(s: seq<bv8>, t: seq<bv8>, u: seq<bv8>, lo: int, hi: int, lo': int, hi': int)
    requires SameOutside(s, t, lo, hi) && SameOutside(t, u, lo', hi') && lo <= lo' && hi' <= hi
    ensures SameOutside(s, u, lo, hi)
  {
  }

  // ---------- The whole image ----------

  method Seal(buf: array<bv8>)
    requires buf.Length >= 4
    modifies buf
    ensures SameOutside(old(buf[..]), buf[..], buf.Length - 4, buf.Length)
    ensures Sealed(buf[..])
  {
    hide Division, Assemble, Xor, Parts;
    var at := buf.Length - 4;
    ghost var s := buf[..];
    var crc := Crc32(0xffffffff, buf, at);
    crc := Xor(crc, 0xffffffff);
    var parts := Parts(crc);
    FourParts(crc);
    buf[at] := parts[0];
    buf[at + 1] := parts[1];
    buf[at + 2] := parts[2];
    buf[at + 3] := parts[3];
    assert buf[..at] == s[..at];
  }

  lemma FourParts(w: bv32)
    ensures |Parts(w)| == 4 && Assemble(Parts(w)[0], Parts(w)[1], Parts(w)[2], Parts(w)[3]) == w
  {
    AssembleParts(w);
  }

  predicate Header(s: seq<bv8>, start: int, version: nat)
    requires |s| >= HeaderEnd(version, start)
  {
    if version == 0 then Header0(s, start) else Header1(s, start)
  }

  /** Puts the header and the checksum into an image of whole words; refuses any
      other and leaves it alone. The header is there in the end if the image has a
      word more than the header needs; otherwise the checksum overwrites its last
      word. */
  method AddHeader(buf: array<bv8>, start: nat, version: nat) returns (ok: bool)
    requires HeaderEnd(version, start) <= buf.Length < 0x1_0000_0000 && start < 0x1_0000_0000 && version <= 1
    modifies buf
    ensures ok <==> buf.Length % 4 == 0
    ensures !ok ==> buf[..] == old(buf[..])
    ensures ok ==> Sealed(buf[..])
    ensures ok && buf.Length >= HeaderEnd(version, start) + 4 ==> Header(buf[..], start, version)
    ensures forall k :: 0 <= k < HEADER || HeaderEnd(version, start) <= k < buf.Length - 4 ==> buf[k] == old(buf[k])
  {
    hide Header0, Header1, Sealed;
    if buf.Length % 4 != 0 {
      return false;
    }
    if version == 0 {
      PutHeader0(buf, start);
    } else {
      PutHeader1(buf, start);
    }
    ghost var s := buf[..];
    Seal(buf);
    if buf.Length >= HeaderEnd(version, start) + 4 {
      KeepHeader(s, buf[..], start, version);
    }
    ok := true;
  }

  lemma KeepHeader(s: seq<bv8>, t: seq<bv8>, start: int, version: nat)
    requires HeaderEnd(version, start) + 4 <= |s| && SameOutside(s, t, |s| - 4, |s|) && Header(s, start, version)
    ensures Header(t, start, version)
  {
    hide Short, Long, Target, WordAt, Reachable, SumOf;
    var lo, hi := |s| - 4, |s|;
    KeepLong(s, t, lo, hi, HEADER);
    KeepShort(s, t, lo, hi, HEADER + 4);
    KeepShort(s, t, lo, hi, HEADER + 6);
    KeepLong(s, t, lo, hi, HEADER + 12);
    if version == 0 {
      KeepShort(s, t, lo, hi, HEADER + 8);
      KeepShort(s, t, lo, hi, HEADER + 10);
      KeepSlice(s, t, lo, hi, HEADER, HEADER + 10);
    } else {
      KeepLong(s, t, lo, hi, HEADER + 8);
      KeepShort(s, t, lo, hi, HEADER + 16);
      KeepShort(s, t, lo, hi, HEADER + 18);
      KeepSlice(s, t, lo, hi, HEADER, HEADER + 18);
      if start < HEADER {
        KeepLong(s, t, lo, hi, TRAMPOLINE);
      }
    }
  }

  // ---------- Images without a word to spare ----------

  lemma OddAndHalf(m: nat, b: bool)
    ensures Odd(2 * m + Digit(b)) == b && Half(2 * m + Digit(b)) == m
  {
  }

  /** A byte is told by its value. */
  lemma ByteOfValue(b: bv8)
    ensures Byte(Value(b)) == b
  {
    var b7, b6, b5, b4 := Has(b, 0x80), Has(b, 0x40), Has(b, 0x20), Has(b, 0x10);
    var b3, b2, b1, b0 := Has(b, 0x08), Has(b, 0x04), Has(b, 0x02), Has(b, 0x01);
    BitsOf(b);
    hide Has, OfBits, Odd, Half;
    var n7 := Digit(b7);
    var n6 := 2 * n7 + Digit(b6);
    var n5 := 2 * n6 + Digit(b5);
    var n4 := 2 * n5 + Digit(b4);
    var n3 := 2 * n4 + Digit(b3);
    var n2 := 2 * n3 + Digit(b2);
    var n1 := 2 * n2 + Digit(b1);
    assert Value(b) == 2 * n1 + Digit(b0) < 256;
    OddAndHalf(n1, b0);
    OddAndHalf(n2, b1);
    OddAndHalf(n3, b2);
    OddAndHalf(n4, b3);
    OddAndHalf(n5, b4);
    OddAndHalf(n6, b5);
    OddAndHalf(n7, b6);
    OddAndHalf(0, b7);
  }

  lemma BitsOf(b: bv8)
    ensures b == OfBits(Has(b, 0x80), Has(b, 0x40), Has(b, 0x20), Has(b, 0x10), Has(b, 0x08), Has(b, 0x04), Has(b, 0x02), Has(b, 0x01))
  {
  }

  /** The jump as a word. */
  function JumpWord(at: int, dest: int): bv32 {
    var offset := dest - at - 8;
    Assemble(LowByte(offset / 4), LowByte(offset / 1024), LowByte(offset / 262144), BRANCH_INST)
  }

  lemma PartsAssemble(a: bv8, b: bv8, c: bv8, d: bv8)
    ensures Parts(Assemble(a, b, c, d)) == [a, b, c, d]
  {
  }

  /** Three bytes make up the number of words to go in just one way. */
  lemma OneField(x: nat, y: nat, z: nat, offset: int)
    requires x < 256 && y < 256 && z < 256 && offset % 4 == 0 && -0x2000000 <= offset < 0x2000000
    ensures
      var field := x + 256 * y + 65536 * z;
      4 * (if field < 0x800000 then field else field - 0x1000000) == offset <==>
        x == offset / 4 % 256 && y == offset / 1024 % 256 && z == offset / 262144 % 256
  {
    var field, words := x + 256 * y + 65536 * z, offset / 4;
    FieldReaches(offset);
    OffsetField(offset);
    if field == words % 0x1000000 {
      OneSplit(x, y, z, words % 256, offset / 1024 % 256, offset / 262144 % 256);
    }
  }

  lemma OneSplit(x: nat, y: nat, z: nat, x': nat, y': nat, z': nat)
    requires x < 256 && y < 256 && z < 256 && x' < 256 && y' < 256 && z' < 256
    requires x + 256 * y + 65536 * z == x' + 256 * y' + 65536 * z'
    ensures x == x' && y == y' && z == z'
  {
  }

  /** In reach there is just one jump. */
  lemma OneJump(s: seq<bv8>, at: nat, dest: int)
    requires at + 4 <= |s| && Reachable(at, dest)
    ensures JumpsTo(s, at, dest) <==> WordAt(s, at) == JumpWord(at, dest)
  {
    hide Value, LowByte, Assemble, Parts, Byte;
    var offset := dest - at - 8;
    ValueIsSmall(s[at]);
    ValueIsSmall(s[at + 1]);
    ValueIsSmall(s[at + 2]);
    OneField(Value(s[at]), Value(s[at + 1]), Value(s[at + 2]), offset);
    ByteIs(s[at], offset / 4);
    ByteIs(s[at + 1], offset / 1024);
    ByteIs(s[at + 2], offset / 262144);
    PartsAssemble(s[at], s[at + 1], s[at + 2], s[at + 3]);
    PartsAssemble(LowByte(offset / 4), LowByte(offset / 1024), LowByte(offset / 262144), BRANCH_INST);
  }

  lemma ByteIs(b: bv8, x: int)
    ensures Value(b) == x % 256 <==> b == LowByte(x)
  {
    hide Value, Byte;
    LowByteValue(x);
    ByteOfValue(b);
  }

  /** An image of version 1 that is entered by a jump and ends with it: the jump is
      there exactly if the checksum happens to be that jump. */
  lemma JumpUnderChecksum(s: seq<bv8>, start: int)
    requires |s| == TRAMPOLINE + 4 && Sealed(s) && Reachable(TRAMPOLINE, start)
    ensures JumpsTo(s, TRAMPOLINE, start) <==> Checksum(s[..TRAMPOLINE]) == JumpWord(TRAMPOLINE, start)
  {
    hide Checksum, WordAt, Target;
    OneJump(s, TRAMPOLINE, start);
  }

  /** So of two such images that differ within four bytes at most one can be
      entered. */
  lemma AtMostOneJumps(a: seq<bv8>, b: seq<bv8>, start: int, i: nat)
    requires |a| == |b| == TRAMPOLINE + 4 && Sealed(a) && Sealed(b) && Reachable(TRAMPOLINE, start)
    requires DifferWithin(a[..TRAMPOLINE], b[..TRAMPOLINE], i) && a[..TRAMPOLINE] != b[..TRAMPOLINE]
    ensures !(JumpsTo(a, TRAMPOLINE, start) && JumpsTo(b, TRAMPOLINE, start))
  {
    hide Division, Xor, WordAt, Target, Reachable;
    JumpUnderChecksum(a, start);
    JumpUnderChecksum(b, start);
    ShortChangesAreDetected(0xffffffff, a[..TRAMPOLINE], b[..TRAMPOLINE], i);
    XorTwice(Division(0xffffffff, a[..TRAMPOLINE]), Division(0xffffffff, b[..TRAMPOLINE]), 0xffffffff);
    XorIsZero(Checksum(a[..TRAMPOLINE]), Checksum(b[..TRAMPOLINE]));
    XorIsZero(Division(0xffffffff, a[..TRAMPOLINE]), Division(0xffffffff, b[..TRAMPOLINE]));
  }
}
