/** The table that the checksum is computed with, a byte at a time. */
module CrcTable {
  import opened Crc

  const ROW_0: seq<bv32> := [
    0x00000000, 0x04c11db7, 0x09823b6e, 0x0d4326d9, 0x130476dc, 0x17c56b6b, 0x1a864db2, 0x1e475005,
    0x2608edb8, 0x22c9f00f, 0x2f8ad6d6, 0x2b4bcb61, 0x350c9b64, 0x31cd86d3, 0x3c8ea00a, 0x384fbdbd]
  const ROW_1: seq<bv32> := [
    0x4c11db70, 0x48d0c6c7, 0x4593e01e, 0x4152fda9, 0x5f15adac, 0x5bd4b01b, 0x569796c2, 0x52568b75,
    0x6a1936c8, 0x6ed82b7f, 0x639b0da6, 0x675a1011, 0x791d4014, 0x7ddc5da3, 0x709f7b7a, 0x745e66cd]
  const ROW_2: seq<bv32> := [
    0x9823b6e0, 0x9ce2ab57, 0x91a18d8e, 0x95609039, 0x8b27c03c, 0x8fe6dd8b, 0x82a5fb52, 0x8664e6e5,
    0xbe2b5b58, 0xbaea46ef, 0xb7a96036, 0xb3687d81, 0xad2f2d84, 0xa9ee3033, 0xa4ad16ea, 0xa06c0b5d]
  const ROW_3: seq<bv32> := [
    0xd4326d90, 0xd0f37027, 0xddb056fe, 0xd9714b49, 0xc7361b4c, 0xc3f706fb, 0xceb42022, 0xca753d95,
    0xf23a8028, 0xf6fb9d9f, 0xfbb8bb46, 0xff79a6f1, 0xe13ef6f4, 0xe5ffeb43, 0xe8bccd9a, 0xec7dd02d]
  const ROW_4: seq<bv32> := [
    0x34867077, 0x30476dc0, 0x3d044b19, 0x39c556ae, 0x278206ab, 0x23431b1c, 0x2e003dc5, 0x2ac12072,
    0x128e9dcf, 0x164f8078, 0x1b0ca6a1, 0x1fcdbb16, 0x018aeb13, 0x054bf6a4, 0x0808d07d, 0x0cc9cdca]
  const ROW_5: seq<bv32> := [
    0x7897ab07, 0x7c56b6b0, 0x71159069, 0x75d48dde, 0x6b93dddb, 0x6f52c06c, 0x6211e6b5, 0x66d0fb02,
    0x5e9f46bf, 0x5a5e5b08, 0x571d7dd1, 0x53dc6066, 0x4d9b3063, 0x495a2dd4, 0x44190b0d, 0x40d816ba]
  const ROW_6: seq<bv32> := [
    0xaca5c697, 0xa864db20, 0xa527fdf9, 0xa1e6e04e, 0xbfa1b04b, 0xbb60adfc, 0xb6238b25, 0xb2e29692,
    0x8aad2b2f, 0x8e6c3698, 0x832f1041, 0x87ee0df6, 0x99a95df3, 0x9d684044, 0x902b669d, 0x94ea7b2a]
  const ROW_7: seq<bv32> := [
    0xe0b41de7, 0xe4750050, 0xe9362689, 0xedf73b3e, 0xf3b06b3b, 0xf771768c, 0xfa325055, 0xfef34de2,
    0xc6bcf05f, 0xc27dede8, 0xcf3ecb31, 0xcbffd686, 0xd5b88683, 0xd1799b34, 0xdc3abded, 0xd8fba05a]
  const ROW_8: seq<bv32> := [
    0x690ce0ee, 0x6dcdfd59, 0x608edb80, 0x644fc637, 0x7a089632, 0x7ec98b85, 0x738aad5c, 0x774bb0eb,
    0x4f040d56, 0x4bc510e1, 0x46863638, 0x42472b8f, 0x5c007b8a, 0x58c1663d, 0x558240e4, 0x51435d53]
  const ROW_9: seq<bv32> := [
    0x251d3b9e, 0x21dc2629, 0x2c9f00f0, 0x285e1d47, 0x36194d42, 0x32d850f5, 0x3f9b762c, 0x3b5a6b9b,
    0x0315d626, 0x07d4cb91, 0x0a97ed48, 0x0e56f0ff, 0x1011a0fa, 0x14d0bd4d, 0x19939b94, 0x1d528623]
  const ROW_A: seq<bv32> := [
    0xf12f560e, 0xf5ee4bb9, 0xf8ad6d60, 0xfc6c70d7, 0xe22b20d2, 0xe6ea3d65, 0xeba91bbc, 0xef68060b,
    0xd727bbb6, 0xd3e6a601, 0xdea580d8, 0xda649d6f, 0xc423cd6a, 0xc0e2d0dd, 0xcda1f604, 0xc960ebb3]
  const ROW_B: seq<bv32> := [
    0xbd3e8d7e, 0xb9ff90c9, 0xb4bcb610, 0xb07daba7, 0xae3afba2, 0xaafbe615, 0xa7b8c0cc, 0xa379dd7b,
    0x9b3660c6, 0x9ff77d71, 0x92b45ba8, 0x9675461f, 0x8832161a, 0x8cf30bad, 0x81b02d74, 0x857130c3]
  const ROW_C: seq<bv32> := [
    0x5d8a9099, 0x594b8d2e, 0x5408abf7, 0x50c9b640, 0x4e8ee645, 0x4a4ffbf2, 0x470cdd2b, 0x43cdc09c,
    0x7b827d21, 0x7f436096, 0x7200464f, 0x76c15bf8, 0x68860bfd, 0x6c47164a, 0x61043093, 0x65c52d24]
  const ROW_D: seq<bv32> := [
    0x119b4be9, 0x155a565e, 0x18197087, 0x1cd86d30, 0x029f3d35, 0x065e2082, 0x0b1d065b, 0x0fdc1bec,
    0x3793a651, 0x3352bbe6, 0x3e119d3f, 0x3ad08088, 0x2497d08d, 0x2056cd3a, 0x2d15ebe3, 0x29d4f654]
  const ROW_E: seq<bv32> := [
    0xc5a92679, 0xc1683bce, 0xcc2b1d17, 0xc8ea00a0, 0xd6ad50a5, 0xd26c4d12, 0xdf2f6bcb, 0xdbee767c,
    0xe3a1cbc1, 0xe760d676, 0xea23f0af, 0xeee2ed18, 0xf0a5bd1d, 0xf464a0aa, 0xf9278673, 0xfde69bc4]
  const ROW_F: seq<bv32> := [
    0x89b8fd09, 0x8d79e0be, 0x803ac667, 0x84fbdbd0, 0x9abc8bd5, 0x9e7d9662, 0x933eb0bb, 0x97ffad0c,
    0xafb010b1, 0xab710d06, 0xa6322bdf, 0xa2f33668, 0xbcb4666d, 0xb8757bda, 0xb5365d03, 0xb1f740b4]

  const TABLE := [ROW_0, ROW_1, ROW_2, ROW_3, ROW_4, ROW_5, ROW_6, ROW_7,
                  ROW_8, ROW_9, ROW_A, ROW_B, ROW_C, ROW_D, ROW_E, ROW_F]

  /** The 256 entries stand in sixteen rows of sixteen. */
  function TableEntry(i: bv8): bv32 {
    TABLE[(i >> 4) as int][(i & 0xf) as int]
  }

  /** Within a row the entries differ as they do in the first row. */
  predicate IsRow(row: seq<bv32>, first: bv32) {
    |row| == 16 && row[0] == Shift8(first << 28) && IsLowerRow(row) && IsUpperRow(row)
  }

  predicate IsLowerRow(row: seq<bv32>)
    requires |row| == 16
  {
    && row[1] == Xor(row[0], ROW_0[1]) && row[2] == Xor(row[0], ROW_0[2]) && row[3] == Xor(row[0], ROW_0[3])
    && row[4] == Xor(row[0], ROW_0[4]) && row[5] == Xor(row[0], ROW_0[5]) && row[6] == Xor(row[0], ROW_0[6])
    && row[7] == Xor(row[0], ROW_0[7])
  }

  predicate IsUpperRow(row: seq<bv32>)
    requires |row| == 16
  {
    && row[8] == Xor(row[0], ROW_0[8]) && row[9] == Xor(row[0], ROW_0[9]) && row[10] == Xor(row[0], ROW_0[10])
    && row[11] == Xor(row[0], ROW_0[11]) && row[12] == Xor(row[0], ROW_0[12]) && row[13] == Xor(row[0], ROW_0[13])
    && row[14] == Xor(row[0], ROW_0[14]) && row[15] == Xor(row[0], ROW_0[15])
  }

  lemma ZeroStays()
    ensures Shift8(0) == 0
  {
    assert Shift(0) == 0;
  }

  lemma FirstRow1()
    ensures ROW_0[1] == Shift8(1 << 24) && ROW_0[2] == Shift8(2 << 24)
    ensures ROW_0[3] == Shift8(3 << 24)
  {
  }

  lemma FirstRow4()
    ensures ROW_0[4] == Shift8(4 << 24) && ROW_0[5] == Shift8(5 << 24)
    ensures ROW_0[6] == Shift8(6 << 24) && ROW_0[7] == Shift8(7 << 24)
  {
  }

  lemma FirstRow8()
    ensures ROW_0[8] == Shift8(8 << 24) && ROW_0[9] == Shift8(9 << 24)
    ensures ROW_0[10] == Shift8(10 << 24) && ROW_0[11] == Shift8(11 << 24)
  {
  }

  lemma FirstRowC()
    ensures ROW_0[12] == Shift8(12 << 24) && ROW_0[13] == Shift8(13 << 24)
    ensures ROW_0[14] == Shift8(14 << 24) && ROW_0[15] == Shift8(15 << 24)
  {
  }

  lemma RowIsRight1() ensures IsRow(ROW_1, 1) { }
  lemma RowIsRight2() ensures IsRow(ROW_2, 2) { }
  lemma RowIsRight3() ensures IsRow(ROW_3, 3) { }
  lemma RowIsRight4() ensures IsRow(ROW_4, 4) { }
  lemma RowIsRight5() ensures IsRow(ROW_5, 5) { }
  lemma RowIsRight6() ensures IsRow(ROW_6, 6) { }
  lemma RowIsRight7() ensures IsRow(ROW_7, 7) { }
  lemma RowIsRight8() ensures IsRow(ROW_8, 8) { }
  lemma RowIsRight9() ensures IsRow(ROW_9, 9) { }
  lemma RowIsRightA() ensures IsRow(ROW_A, 10) { }
  lemma RowIsRightB() ensures IsRow(ROW_B, 11) { }
  lemma RowIsRightC() ensures IsRow(ROW_C, 12) { }
  lemma RowIsRightD() ensures IsRow(ROW_D, 13) { }
  lemma RowIsRightE() ensures IsRow(ROW_E, 14) { }
  lemma RowIsRightF() ensures IsRow(ROW_F, 15) { }

  lemma InFirstRow(j: bv8)
    requires j < 16
    ensures ROW_0[j as int] == Shift8(High(j))
  {
    hide Shift8;
    ZeroStays();
    FirstRow1();
    FirstRow4();
    FirstRow8();
    FirstRowC();
    var n := j as int;
    if n == 0 { assert j == 0; }
    else if n == 1 { assert j == 1; }
    else if n == 2 { assert j == 2; }
    else if n == 3 { assert j == 3; }
    else if n == 4 { assert j == 4; }
    else if n == 5 { assert j == 5; }
    else if n == 6 { assert j == 6; }
    else if n == 7 { assert j == 7; }
    else if n == 8 { assert j == 8; }
    else if n == 9 { assert j == 9; }
    else if n == 10 { assert j == 10; }
    else if n == 11 { assert j == 11; }
    else if n == 12 { assert j == 12; }
    else if n == 13 { assert j == 13; }
    else if n == 14 { assert j == 14; }
    else if n == 15 { assert j == 15; }
  }

  lemma RowAt(row: seq<bv32>, first: bv32, n: nat)
    requires IsRow(row, first) && n < 16
    ensures row[n] == Xor(row[0], ROW_0[n])
  {
    hide Shift8, Xor, IsLowerRow, IsUpperRow;
    if n == 0 {
      XorUnit(row[0]);
    } else if n < 8 {
      LowerRow(row, n);
    } else {
      UpperRow(row, n);
    }
  }

  lemma LowerRow(row: seq<bv32>, n: nat)
    requires |row| == 16 && 0 < n < 8 && IsLowerRow(row)
    ensures row[n] == Xor(row[0], ROW_0[n])
  {
    hide Xor;
  }

  lemma UpperRow(row: seq<bv32>, n: nat)
    requires |row| == 16 && 8 <= n < 16 && IsUpperRow(row)
    ensures row[n] == Xor(row[0], ROW_0[n])
  {
    hide Xor;
  }

  lemma InRow(row: seq<bv32>, first: bv32, j: bv8)
    requires IsRow(row, first) && j < 16
    ensures row[j as int] == Xor(row[0], ROW_0[j as int])
  {
    hide IsRow, Xor;
    RowAt(row, first, j as int);
  }

  lemma RowOf(h: bv8) returns (row: seq<bv32>)
    requires 0 < h < 16
    ensures row == TABLE[h as int] && IsRow(row, h as bv32)
  {
    hide IsRow;
    var n := h as int;
    row := TABLE[n];
    if n == 1 { RowIsRight1(); assert h == 1; }
    else if n == 2 { RowIsRight2(); assert h == 2; }
    else if n == 3 { RowIsRight3(); assert h == 3; }
    else if n == 4 { RowIsRight4(); assert h == 4; }
    else if n == 5 { RowIsRight5(); assert h == 5; }
    else if n == 6 { RowIsRight6(); assert h == 6; }
    else if n == 7 { RowIsRight7(); assert h == 7; }
    else if n == 8 { RowIsRight8(); assert h == 8; }
    else if n == 9 { RowIsRight9(); assert h == 9; }
    else if n == 10 { RowIsRightA(); assert h == 10; }
    else if n == 11 { RowIsRightB(); assert h == 11; }
    else if n == 12 { RowIsRightC(); assert h == 12; }
    else if n == 13 { RowIsRightD(); assert h == 13; }
    else if n == 14 { RowIsRightE(); assert h == 14; }
    else if n == 15 { RowIsRightF(); assert h == 15; }
  }

  lemma HighParts(i: bv8)
    ensures High(i) == Xor((i >> 4) as bv32 << 28, High(i & 0xf))
  {
  }

  /** Every table entry is the remainder of its index. */
  lemma TableIsDivision(i: bv8)
    ensures TableEntry(i) == Shift8(High(i))
  {
    hide IsRow, Shift8, Xor, High;
    var h, j := i >> 4, i & 0xf;
    InFirstRow(j);
    HighParts(i);
    Shift8IsLinear(h as bv32 << 28, High(j));
    if h == 0 {
      ZeroStays();
      XorCommutes(0, Shift8(High(j)));
      XorUnit(Shift8(High(j)));
    } else {
      var row := RowOf(h);
      InRow(row, h as bv32, j);
      RowStart(row, h as bv32);
    }
  }

  lemma RowStart(row: seq<bv32>, first: bv32)
    requires IsRow(row, first)
    ensures |row| == 16 && row[0] == Shift8(first << 28)
  {
  }

  // ---------- The loop over bytes ----------

  function TableByte(r: bv32, b: bv8): bv32 {
    Xor(r << 8, TableEntry((r >> 24) as bv8 ^ b))
  }

  lemma SplitRegister(r: bv32, b: bv8)
    ensures
      var high, low := (r >> 24) as bv8 ^ b, r & 0xffffff;
      Xor(High(high), low) == Xor(r, High(b)) && low << 8 == r << 8
  {
  }

  /** What one round of the loop computes. */
  lemma TableStep(r: bv32, b: bv8)
    ensures TableByte(r, b) == ByteStep(r, b)
  {
    hide Shift8, TableEntry, Xor, High;
    var high := (r >> 24) as bv8 ^ b;
    var low := r & 0xffffff;
    SplitRegister(r, b);
    TableIsDivision(high);
    Shift8IsLinear(High(high), low);
    Shift8Small(low);
    XorCommutes(Shift8(High(high)), low << 8);
  }
}
