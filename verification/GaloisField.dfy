/** The field GF(256) of the CCSDS Reed-Solomon code, with the logarithm tables of
    src/ext/libfec/ccsds_tab.c.  Its elements are the polynomials over GF(2) modulo
    x^8 + x^7 + x^2 + x + 1, and alpha is x. */
module GaloisField {

  const NN := 255
  const A0 := 255

  const ALPHA_0: seq<bv8> := [
    0x01, 0x02, 0x04, 0x08, 0x10, 0x20, 0x40, 0x80, 0x87, 0x89, 0x95, 0xad, 0xdd, 0x3d, 0x7a, 0xf4]
  const ALPHA_1: seq<bv8> := [
    0x6f, 0xde, 0x3b, 0x76, 0xec, 0x5f, 0xbe, 0xfb, 0x71, 0xe2, 0x43, 0x86, 0x8b, 0x91, 0xa5, 0xcd]
  const ALPHA_2: seq<bv8> := [
    0x1d, 0x3a, 0x74, 0xe8, 0x57, 0xae, 0xdb, 0x31, 0x62, 0xc4, 0x0f, 0x1e, 0x3c, 0x78, 0xf0, 0x67]
  const ALPHA_3: seq<bv8> := [
    0xce, 0x1b, 0x36, 0x6c, 0xd8, 0x37, 0x6e, 0xdc, 0x3f, 0x7e, 0xfc, 0x7f, 0xfe, 0x7b, 0xf6, 0x6b]
  const ALPHA_4: seq<bv8> := [
    0xd6, 0x2b, 0x56, 0xac, 0xdf, 0x39, 0x72, 0xe4, 0x4f, 0x9e, 0xbb, 0xf1, 0x65, 0xca, 0x13, 0x26]
  const ALPHA_5: seq<bv8> := [
    0x4c, 0x98, 0xb7, 0xe9, 0x55, 0xaa, 0xd3, 0x21, 0x42, 0x84, 0x8f, 0x99, 0xb5, 0xed, 0x5d, 0xba]
  const ALPHA_6: seq<bv8> := [
    0xf3, 0x61, 0xc2, 0x03, 0x06, 0x0c, 0x18, 0x30, 0x60, 0xc0, 0x07, 0x0e, 0x1c, 0x38, 0x70, 0xe0]
  const ALPHA_7: seq<bv8> := [
    0x47, 0x8e, 0x9b, 0xb1, 0xe5, 0x4d, 0x9a, 0xb3, 0xe1, 0x45, 0x8a, 0x93, 0xa1, 0xc5, 0x0d, 0x1a]
  const ALPHA_8: seq<bv8> := [
    0x34, 0x68, 0xd0, 0x27, 0x4e, 0x9c, 0xbf, 0xf9, 0x75, 0xea, 0x53, 0xa6, 0xcb, 0x11, 0x22, 0x44]
  const ALPHA_9: seq<bv8> := [
    0x88, 0x97, 0xa9, 0xd5, 0x2d, 0x5a, 0xb4, 0xef, 0x59, 0xb2, 0xe3, 0x41, 0x82, 0x83, 0x81, 0x85]
  const ALPHA_A: seq<bv8> := [
    0x8d, 0x9d, 0xbd, 0xfd, 0x7d, 0xfa, 0x73, 0xe6, 0x4b, 0x96, 0xab, 0xd1, 0x25, 0x4a, 0x94, 0xaf]
  const ALPHA_B: seq<bv8> := [
    0xd9, 0x35, 0x6a, 0xd4, 0x2f, 0x5e, 0xbc, 0xff, 0x79, 0xf2, 0x63, 0xc6, 0x0b, 0x16, 0x2c, 0x58]
  const ALPHA_C: seq<bv8> := [
    0xb0, 0xe7, 0x49, 0x92, 0xa3, 0xc1, 0x05, 0x0a, 0x14, 0x28, 0x50, 0xa0, 0xc7, 0x09, 0x12, 0x24]
  const ALPHA_D: seq<bv8> := [
    0x48, 0x90, 0xa7, 0xc9, 0x15, 0x2a, 0x54, 0xa8, 0xd7, 0x29, 0x52, 0xa4, 0xcf, 0x19, 0x32, 0x64]
  const ALPHA_E: seq<bv8> := [
    0xc8, 0x17, 0x2e, 0x5c, 0xb8, 0xf7, 0x69, 0xd2, 0x23, 0x46, 0x8c, 0x9f, 0xb9, 0xf5, 0x6d, 0xda]
  const ALPHA_F: seq<bv8> := [
    0x33, 0x66, 0xcc, 0x1f, 0x3e, 0x7c, 0xf8, 0x77, 0xee, 0x5b, 0xb6, 0xeb, 0x51, 0xa2, 0xc3, 0x00]

  /** CCSDS_alpha_to, sixteen entries to a row */
  const ALPHA_TO: seq<seq<bv8>> := [
    ALPHA_0, ALPHA_1, ALPHA_2, ALPHA_3, ALPHA_4, ALPHA_5, ALPHA_6, ALPHA_7,
    ALPHA_8, ALPHA_9, ALPHA_A, ALPHA_B, ALPHA_C, ALPHA_D, ALPHA_E, ALPHA_F]

  const INDEX_0: seq<nat> := [
    255, 0, 1, 99, 2, 198, 100, 106, 3, 205, 199, 188, 101, 126, 107, 42]
  const INDEX_1: seq<nat> := [
    4, 141, 206, 78, 200, 212, 189, 225, 102, 221, 127, 49, 108, 32, 43, 243]
  const INDEX_2: seq<nat> := [
    5, 87, 142, 232, 207, 172, 79, 131, 201, 217, 213, 65, 190, 148, 226, 180]
  const INDEX_3: seq<nat> := [
    103, 39, 222, 240, 128, 177, 50, 53, 109, 69, 33, 18, 44, 13, 244, 56]
  const INDEX_4: seq<nat> := [
    6, 155, 88, 26, 143, 121, 233, 112, 208, 194, 173, 168, 80, 117, 132, 72]
  const INDEX_5: seq<nat> := [
    202, 252, 218, 138, 214, 84, 66, 36, 191, 152, 149, 249, 227, 94, 181, 21]
  const INDEX_6: seq<nat> := [
    104, 97, 40, 186, 223, 76, 241, 47, 129, 230, 178, 63, 51, 238, 54, 16]
  const INDEX_7: seq<nat> := [
    110, 24, 70, 166, 34, 136, 19, 247, 45, 184, 14, 61, 245, 164, 57, 59]
  const INDEX_8: seq<nat> := [
    7, 158, 156, 157, 89, 159, 27, 8, 144, 9, 122, 28, 234, 160, 113, 90]
  const INDEX_9: seq<nat> := [
    209, 29, 195, 123, 174, 10, 169, 145, 81, 91, 118, 114, 133, 161, 73, 235]
  const INDEX_A: seq<nat> := [
    203, 124, 253, 196, 219, 30, 139, 210, 215, 146, 85, 170, 67, 11, 37, 175]
  const INDEX_B: seq<nat> := [
    192, 115, 153, 119, 150, 92, 250, 82, 228, 236, 95, 74, 182, 162, 22, 134]
  const INDEX_C: seq<nat> := [
    105, 197, 98, 254, 41, 125, 187, 204, 224, 211, 77, 140, 242, 31, 48, 220]
  const INDEX_D: seq<nat> := [
    130, 171, 231, 86, 179, 147, 64, 216, 52, 176, 239, 38, 55, 12, 17, 68]
  const INDEX_E: seq<nat> := [
    111, 120, 25, 154, 71, 116, 167, 193, 35, 83, 137, 251, 20, 93, 248, 151]
  const INDEX_F: seq<nat> := [
    46, 75, 185, 96, 15, 237, 62, 229, 246, 135, 165, 23, 58, 163, 60, 183]

  /** CCSDS_index_of, sixteen entries to a row */
  const INDEX_OF: seq<seq<nat>> := [
    INDEX_0, INDEX_1, INDEX_2, INDEX_3, INDEX_4, INDEX_5, INDEX_6, INDEX_7,
    INDEX_8, INDEX_9, INDEX_A, INDEX_B, INDEX_C, INDEX_D, INDEX_E, INDEX_F]

  function AlphaRow(r: nat): (row: seq<bv8>)
    requires r < 16
    ensures |row| == 16
  {
    ALPHA_TO[r]
  }

  function AlphaTo(i: nat): bv8
    requires i < 256
  {
    AlphaRow(i / 16)[i % 16]
  }

  function IndexOf(x: bv8): nat {
    INDEX_OF[(x >> 4) as int][(x & 15) as int]
  }

  // -------------------------------------------------------------------------- the field

  function Add(x: bv8, y: bv8): bv8 {
    x ^ y
  }

  function Doubled(x: bv8): bv8 {
    x << 1
  }

  function TopBit(x: bv8): bool {
    x & 0x80 == 0x80
  }

  /** alpha times x */
  function XTime(x: bv8): bv8 {
    if TopBit(x) then Add(Doubled(x), 0x87) else Doubled(x)
  }

  /** x times the k-th power of alpha */
  function Times(x: bv8, k: nat): bv8
    decreases k
  {
    if k == 0 then x else XTime(Times(x, k - 1))
  }

  lemma AddAssoc(x: bv8, y: bv8, z: bv8)
    ensures Add(Add(x, y), z) == Add(x, Add(y, z))
  {
  }

  lemma AddComm(x: bv8, y: bv8)
    ensures Add(x, y) == Add(y, x)
  {
  }

  lemma AddZero(x: bv8)
    ensures Add(x, x) == 0 && Add(x, 0) == x == Add(0, x)
  {
  }

  /** Sums of four and of two pairs can be regrouped, and what occurs twice cancels. */
  lemma AddSwap(w: bv8, x: bv8, y: bv8, z: bv8)
    ensures Add(Add(w, x), Add(y, z)) == Add(Add(w, y), Add(x, z))
  {
    hide Add;
    AddAssoc(Add(w, x), y, z);
    AddAssoc(w, x, y);
    AddComm(x, y);
    AddAssoc(w, y, x);
    AddAssoc(Add(w, y), x, z);
  }

  lemma AddCancel(x: bv8, y: bv8, z: bv8)
    ensures Add(Add(x, z), Add(y, z)) == Add(x, y)
  {
    hide Add;
    AddSwap(x, z, y, z);
    AddZero(z);
    AddZero(Add(x, y));
  }

  lemma AddEqual(x: bv8, y: bv8)
    ensures Add(x, y) == 0 <==> x == y
  {
    hide Add;
    AddZero(x);
    AddZero(y);
    AddAssoc(x, y, y);
  }

  lemma DoubledAdd(x: bv8, y: bv8)
    ensures Doubled(Add(x, y)) == Add(Doubled(x), Doubled(y)) && TopBit(Add(x, y)) == (TopBit(x) != TopBit(y))
  {
  }

  lemma XTimeLinear(x: bv8, y: bv8)
    ensures XTime(Add(x, y)) == Add(XTime(x), XTime(y))
  {
    hide Add, Doubled, TopBit;
    DoubledAdd(x, y);
    var a, b := Doubled(x), Doubled(y);
    AddCancel(a, b, 0x87);
    AddAssoc(a, b, 0x87);
    AddAssoc(a, 0x87, b);
    AddComm(b, 0x87);
  }

  lemma XTimeInjective(x: bv8, y: bv8)
    requires XTime(x) == XTime(y)
    ensures x == y
  {
  }

  lemma {:induction false} TimesLinear(x: bv8, y: bv8, k: nat)
    ensures Times(Add(x, y), k) == Add(Times(x, k), Times(y, k))
    decreases k
  {
    hide XTime, Add;
    if k > 0 {
      TimesLinear(x, y, k - 1);
      XTimeLinear(Times(x, k - 1), Times(y, k - 1));
    }
  }

  lemma {:induction false} TimesInjective(x: bv8, y: bv8, k: nat)
    requires Times(x, k) == Times(y, k)
    ensures x == y
    decreases k
  {
    hide XTime;
    if k > 0 {
      XTimeInjective(Times(x, k - 1), Times(y, k - 1));
      TimesInjective(x, y, k - 1);
    }
  }

  lemma {:induction false} TimesAdd(x: bv8, j: nat, k: nat)
    ensures Times(Times(x, j), k) == Times(x, j + k)
    decreases k
  {
    hide XTime;
    if k > 0 { TimesAdd(x, j, k - 1); }
  }

  lemma XTimeZero()
    ensures XTime(0) == 0
  {
  }

  lemma {:induction false} TimesZero(k: nat)
    ensures Times(0, k) == 0
    decreases k
  {
    hide XTime;
    XTimeZero();
    if k > 0 { TimesZero(k - 1); }
  }

  // ----------------------------------------------------------------- the tables are right

  ghost predicate RowSteps(row: seq<bv8>) {
    && |row| == 16
    && row[1] == XTime(row[0]) && row[2] == XTime(row[1]) && row[3] == XTime(row[2])
    && row[4] == XTime(row[3]) && row[5] == XTime(row[4]) && row[6] == XTime(row[5])
    && row[7] == XTime(row[6]) && row[8] == XTime(row[7]) && row[9] == XTime(row[8])
    && row[10] == XTime(row[9]) && row[11] == XTime(row[10]) && row[12] == XTime(row[11])
    && row[13] == XTime(row[12]) && row[14] == XTime(row[13]) && row[15] == XTime(row[14])
  }

  lemma RowsStep0()
    ensures RowSteps(ALPHA_0) && RowSteps(ALPHA_1) && RowSteps(ALPHA_2) && RowSteps(ALPHA_3)
    ensures ALPHA_1[0] == XTime(ALPHA_0[15]) && ALPHA_2[0] == XTime(ALPHA_1[15])
        && ALPHA_3[0] == XTime(ALPHA_2[15]) && ALPHA_4[0] == XTime(ALPHA_3[15])
  {
  }

  lemma RowsStep1()
    ensures RowSteps(ALPHA_4) && RowSteps(ALPHA_5) && RowSteps(ALPHA_6) && RowSteps(ALPHA_7)
    ensures ALPHA_5[0] == XTime(ALPHA_4[15]) && ALPHA_6[0] == XTime(ALPHA_5[15])
        && ALPHA_7[0] == XTime(ALPHA_6[15]) && ALPHA_8[0] == XTime(ALPHA_7[15])
  {
  }

  lemma RowsStep2()
    ensures RowSteps(ALPHA_8) && RowSteps(ALPHA_9) && RowSteps(ALPHA_A) && RowSteps(ALPHA_B)
    ensures ALPHA_9[0] == XTime(ALPHA_8[15]) && ALPHA_A[0] == XTime(ALPHA_9[15])
        && ALPHA_B[0] == XTime(ALPHA_A[15]) && ALPHA_C[0] == XTime(ALPHA_B[15])
  {
  }

  /** The last row ends with the 254th power; one more step leads back to 1. */
  lemma RowsStep3()
    ensures RowSteps(ALPHA_C) && RowSteps(ALPHA_D) && RowSteps(ALPHA_E)
    ensures ALPHA_D[0] == XTime(ALPHA_C[15]) && ALPHA_E[0] == XTime(ALPHA_D[15]) && ALPHA_F[0] == XTime(ALPHA_E[15])
  {
  }

  lemma LastRowSteps()
    ensures RowSteps(ALPHA_F[..15] + [1]) && ALPHA_0[0] == 1
  {
  }

  lemma OneStep(row: seq<bv8>, j: nat)
    requires RowSteps(row) && 0 < j < 16
    ensures row[j] == XTime(row[j - 1])
  {
    hide XTime;
    match j
    case 1 => case 2 => case 3 => case 4 => case 5 => case 6 => case 7 => case 8 =>
    case 9 => case 10 => case 11 => case 12 => case 13 => case 14 => case _ =>
  }

  /** A row that starts with a power of alpha continues with the next ones. */
  lemma {:induction false} RowPower(row: seq<bv8>, n: nat, j: nat)
    requires RowSteps(row) && row[0] == Times(1, n) && j < 16
    ensures row[j] == Times(1, n + j)
  {
    hide XTime, RowSteps;
    if j > 0 {
      RowPower(row, n, j - 1);
      OneStep(row, j);
    }
  }

  ghost predicate RowOk(row: seq<bv8>, n: nat) {
    RowSteps(row) && row[0] == Times(1, n)
  }

  lemma NextRow(row: seq<bv8>, next: seq<bv8>, n: nat)
    requires RowOk(row, n) && RowSteps(next) && next[0] == XTime(row[15])
    ensures RowOk(next, n + 16)
  {
    hide XTime, RowSteps;
    RowPower(row, n, 15);
  }

  lemma FirstRows()
    ensures RowOk(ALPHA_0, 0) && RowOk(ALPHA_1, 16) && RowOk(ALPHA_2, 32) && RowOk(ALPHA_3, 48)
    ensures RowOk(ALPHA_4, 64) && RowOk(ALPHA_5, 80) && RowOk(ALPHA_6, 96) && RowOk(ALPHA_7, 112)
  {
    hide XTime, RowSteps, RowOk;
    RowsStep0();
    RowsStep1();
    LastRowSteps();
    assert RowOk(ALPHA_0, 0) by { StartRow(ALPHA_0); }
    NextRow(ALPHA_0, ALPHA_1, 0);
    NextRow(ALPHA_1, ALPHA_2, 16);
    NextRow(ALPHA_2, ALPHA_3, 32);
    NextRow(ALPHA_3, ALPHA_4, 48);
    NextRow(ALPHA_4, ALPHA_5, 64);
    NextRow(ALPHA_5, ALPHA_6, 80);
    NextRow(ALPHA_6, ALPHA_7, 96);
  }

  lemma StartRow(row: seq<bv8>)
    requires RowSteps(row) && row[0] == 1
    ensures RowOk(row, 0)
  {
  }

  lemma LastRows()
    ensures RowOk(ALPHA_8, 128) && RowOk(ALPHA_9, 144) && RowOk(ALPHA_A, 160) && RowOk(ALPHA_B, 176)
    ensures RowOk(ALPHA_C, 192) && RowOk(ALPHA_D, 208) && RowOk(ALPHA_E, 224) && RowOk(ALPHA_F[..15] + [1], 240)
  {
    hide XTime, RowSteps, RowOk;
    RowsStep1();
    RowsStep2();
    RowsStep3();
    LastRowSteps();
    FirstRows();
    NextRow(ALPHA_7, ALPHA_8, 112);
    NextRow(ALPHA_8, ALPHA_9, 128);
    NextRow(ALPHA_9, ALPHA_A, 144);
    NextRow(ALPHA_A, ALPHA_B, 160);
    NextRow(ALPHA_B, ALPHA_C, 176);
    NextRow(ALPHA_C, ALPHA_D, 192);
    NextRow(ALPHA_D, ALPHA_E, 208);
    NextRow(ALPHA_E, ALPHA_F[..15] + [1], 224);
  }

  lemma RowOfTable(r: nat)
    requires r < 15
    ensures RowOk(AlphaRow(r), 16 * r)
  {
    hide XTime, RowSteps, Times, RowOk;
    FirstRows();
    LastRows();
    match r
    case 0 => case 1 => case 2 => case 3 => case 4 => case 5 => case 6 => case 7 =>
    case 8 => case 9 => case 10 => case 11 => case 12 => case 13 => case _ =>
  }

  lemma EarlierPower(r: nat, j: nat)
    requires r < 15 && j < 16
    ensures AlphaTo(16 * r + j) == Times(1, 16 * r + j)
  {
    hide XTime, RowSteps, Times, RowOk, AlphaRow;
    RowOfTable(r);
    RowAt(AlphaRow(r), 16 * r, j);
    assert (16 * r + j) / 16 == r && (16 * r + j) % 16 == j;
  }

  lemma LaterPower(j: nat)
    requires j < 15
    ensures AlphaTo(240 + j) == Times(1, 240 + j)
  {
    hide XTime, RowSteps, Times, RowOk;
    LastRows();
    RowAt(ALPHA_F[..15] + [1], 240, j);
    assert (240 + j) / 16 == 15 && (240 + j) % 16 == j;
  }

  /** The table holds the powers of alpha ... */
  lemma AlphaIsPower(i: nat)
    requires i < NN
    ensures AlphaTo(i) == Times(1, i)
  {
    hide AlphaTo, Times;
    if i < 240 { EarlierPower(i / 16, i % 16); } else { LaterPower(i - 240); }
  }

  lemma RowAt(row: seq<bv8>, n: nat, j: nat)
    requires RowOk(row, n) && j < 16
    ensures |row| == 16 && row[j] == Times(1, n + j)
  {
    RowPower(row, n, j);
  }

  /** ... of which there are 255. */
  lemma PowerPeriod()
    ensures Times(1, NN) == 1
  {
    hide XTime, RowSteps, Times, RowOk;
    LastRows();
    RowAt(ALPHA_F[..15] + [1], 240, 15);
  }

  /** The second table holds their logarithms. */
  ghost predicate LogOk(x: bv8, n: nat) {
    n < NN && IndexOf(x) == n && AlphaTo(n) == x
  }

  lemma Logs0()
    ensures LogOk(0x01, 0) && LogOk(0x02, 1) && LogOk(0x03, 99) && LogOk(0x04, 2)
    ensures LogOk(0x05, 198) && LogOk(0x06, 100) && LogOk(0x07, 106) && LogOk(0x08, 3)
    ensures LogOk(0x09, 205) && LogOk(0x0A, 199) && LogOk(0x0B, 188) && LogOk(0x0C, 101)
    ensures LogOk(0x0D, 126) && LogOk(0x0E, 107) && LogOk(0x0F, 42)
  {
  }

  lemma Logs1()
    ensures LogOk(0x10, 4) && LogOk(0x11, 141) && LogOk(0x12, 206) && LogOk(0x13, 78)
    ensures LogOk(0x14, 200) && LogOk(0x15, 212) && LogOk(0x16, 189) && LogOk(0x17, 225)
    ensures LogOk(0x18, 102) && LogOk(0x19, 221) && LogOk(0x1A, 127) && LogOk(0x1B, 49)
    ensures LogOk(0x1C, 108) && LogOk(0x1D, 32) && LogOk(0x1E, 43) && LogOk(0x1F, 243)
  {
  }

  lemma Logs2()
    ensures LogOk(0x20, 5) && LogOk(0x21, 87) && LogOk(0x22, 142) && LogOk(0x23, 232)
    ensures LogOk(0x24, 207) && LogOk(0x25, 172) && LogOk(0x26, 79) && LogOk(0x27, 131)
    ensures LogOk(0x28, 201) && LogOk(0x29, 217) && LogOk(0x2A, 213) && LogOk(0x2B, 65)
    ensures LogOk(0x2C, 190) && LogOk(0x2D, 148) && LogOk(0x2E, 226) && LogOk(0x2F, 180)
  {
  }

  lemma Logs3()
    ensures LogOk(0x30, 103) && LogOk(0x31, 39) && LogOk(0x32, 222) && LogOk(0x33, 240)
    ensures LogOk(0x34, 128) && LogOk(0x35, 177) && LogOk(0x36, 50) && LogOk(0x37, 53)
    ensures LogOk(0x38, 109) && LogOk(0x39, 69) && LogOk(0x3A, 33) && LogOk(0x3B, 18)
    ensures LogOk(0x3C, 44) && LogOk(0x3D, 13) && LogOk(0x3E, 244) && LogOk(0x3F, 56)
  {
  }

  lemma Logs4()
    ensures LogOk(0x40, 6) && LogOk(0x41, 155) && LogOk(0x42, 88) && LogOk(0x43, 26)
    ensures LogOk(0x44, 143) && LogOk(0x45, 121) && LogOk(0x46, 233) && LogOk(0x47, 112)
    ensures LogOk(0x48, 208) && LogOk(0x49, 194) && LogOk(0x4A, 173) && LogOk(0x4B, 168)
    ensures LogOk(0x4C, 80) && LogOk(0x4D, 117) && LogOk(0x4E, 132) && LogOk(0x4F, 72)
  {
  }

  lemma Logs5()
    ensures LogOk(0x50, 202) && LogOk(0x51, 252) && LogOk(0x52, 218) && LogOk(0x53, 138)
    ensures LogOk(0x54, 214) && LogOk(0x55, 84) && LogOk(0x56, 66) && LogOk(0x57, 36)
    ensures LogOk(0x58, 191) && LogOk(0x59, 152) && LogOk(0x5A, 149) && LogOk(0x5B, 249)
    ensures LogOk(0x5C, 227) && LogOk(0x5D, 94) && LogOk(0x5E, 181) && LogOk(0x5F, 21)
  {
  }

  lemma Logs6()
    ensures LogOk(0x60, 104) && LogOk(0x61, 97) && LogOk(0x62, 40) && LogOk(0x63, 186)
    ensures LogOk(0x64, 223) && LogOk(0x65, 76) && LogOk(0x66, 241) && LogOk(0x67, 47)
    ensures LogOk(0x68, 129) && LogOk(0x69, 230) && LogOk(0x6A, 178) && LogOk(0x6B, 63)
    ensures LogOk(0x6C, 51) && LogOk(0x6D, 238) && LogOk(0x6E, 54) && LogOk(0x6F, 16)
  {
  }

  lemma Logs7()
    ensures LogOk(0x70, 110) && LogOk(0x71, 24) && LogOk(0x72, 70) && LogOk(0x73, 166)
    ensures LogOk(0x74, 34) && LogOk(0x75, 136) && LogOk(0x76, 19) && LogOk(0x77, 247)
    ensures LogOk(0x78, 45) && LogOk(0x79, 184) && LogOk(0x7A, 14) && LogOk(0x7B, 61)
    ensures LogOk(0x7C, 245) && LogOk(0x7D, 164) && LogOk(0x7E, 57) && LogOk(0x7F, 59)
  {
  }

  lemma Logs8()
    ensures LogOk(0x80, 7) && LogOk(0x81, 158) && LogOk(0x82, 156) && LogOk(0x83, 157)
    ensures LogOk(0x84, 89) && LogOk(0x85, 159) && LogOk(0x86, 27) && LogOk(0x87, 8)
    ensures LogOk(0x88, 144) && LogOk(0x89, 9) && LogOk(0x8A, 122) && LogOk(0x8B, 28)
    ensures LogOk(0x8C, 234) && LogOk(0x8D, 160) && LogOk(0x8E, 113) && LogOk(0x8F, 90)
  {
  }

  lemma Logs9()
    ensures LogOk(0x90, 209) && LogOk(0x91, 29) && LogOk(0x92, 195) && LogOk(0x93, 123)
    ensures LogOk(0x94, 174) && LogOk(0x95, 10) && LogOk(0x96, 169) && LogOk(0x97, 145)
    ensures LogOk(0x98, 81) && LogOk(0x99, 91) && LogOk(0x9A, 118) && LogOk(0x9B, 114)
    ensures LogOk(0x9C, 133) && LogOk(0x9D, 161) && LogOk(0x9E, 73) && LogOk(0x9F, 235)
  {
  }

  lemma LogsA()
    ensures LogOk(0xA0, 203) && LogOk(0xA1, 124) && LogOk(0xA2, 253) && LogOk(0xA3, 196)
    ensures LogOk(0xA4, 219) && LogOk(0xA5, 30) && LogOk(0xA6, 139) && LogOk(0xA7, 210)
    ensures LogOk(0xA8, 215) && LogOk(0xA9, 146) && LogOk(0xAA, 85) && LogOk(0xAB, 170)
    ensures LogOk(0xAC, 67) && LogOk(0xAD, 11) && LogOk(0xAE, 37) && LogOk(0xAF, 175)
  {
  }

  lemma LogsB()
    ensures LogOk(0xB0, 192) && LogOk(0xB1, 115) && LogOk(0xB2, 153) && LogOk(0xB3, 119)
    ensures LogOk(0xB4, 150) && LogOk(0xB5, 92) && LogOk(0xB6, 250) && LogOk(0xB7, 82)
    ensures LogOk(0xB8, 228) && LogOk(0xB9, 236) && LogOk(0xBA, 95) && LogOk(0xBB, 74)
    ensures LogOk(0xBC, 182) && LogOk(0xBD, 162) && LogOk(0xBE, 22) && LogOk(0xBF, 134)
  {
  }

  lemma LogsC()
    ensures LogOk(0xC0, 105) && LogOk(0xC1, 197) && LogOk(0xC2, 98) && LogOk(0xC3, 254)
    ensures LogOk(0xC4, 41) && LogOk(0xC5, 125) && LogOk(0xC6, 187) && LogOk(0xC7, 204)
    ensures LogOk(0xC8, 224) && LogOk(0xC9, 211) && LogOk(0xCA, 77) && LogOk(0xCB, 140)
    ensures LogOk(0xCC, 242) && LogOk(0xCD, 31) && LogOk(0xCE, 48) && LogOk(0xCF, 220)
  {
  }

  lemma LogsD()
    ensures LogOk(0xD0, 130) && LogOk(0xD1, 171) && LogOk(0xD2, 231) && LogOk(0xD3, 86)
    ensures LogOk(0xD4, 179) && LogOk(0xD5, 147) && LogOk(0xD6, 64) && LogOk(0xD7, 216)
    ensures LogOk(0xD8, 52) && LogOk(0xD9, 176) && LogOk(0xDA, 239) && LogOk(0xDB, 38)
    ensures LogOk(0xDC, 55) && LogOk(0xDD, 12) && LogOk(0xDE, 17) && LogOk(0xDF, 68)
  {
  }

  lemma LogsE()
    ensures LogOk(0xE0, 111) && LogOk(0xE1, 120) && LogOk(0xE2, 25) && LogOk(0xE3, 154)
    ensures LogOk(0xE4, 71) && LogOk(0xE5, 116) && LogOk(0xE6, 167) && LogOk(0xE7, 193)
    ensures LogOk(0xE8, 35) && LogOk(0xE9, 83) && LogOk(0xEA, 137) && LogOk(0xEB, 251)
    ensures LogOk(0xEC, 20) && LogOk(0xED, 93) && LogOk(0xEE, 248) && LogOk(0xEF, 151)
  {
  }

  lemma LogsF()
    ensures LogOk(0xF0, 46) && LogOk(0xF1, 75) && LogOk(0xF2, 185) && LogOk(0xF3, 96)
    ensures LogOk(0xF4, 15) && LogOk(0xF5, 237) && LogOk(0xF6, 62) && LogOk(0xF7, 229)
    ensures LogOk(0xF8, 246) && LogOk(0xF9, 135) && LogOk(0xFA, 165) && LogOk(0xFB, 23)
    ensures LogOk(0xFC, 58) && LogOk(0xFD, 163) && LogOk(0xFE, 60) && LogOk(0xFF, 183)
  {
  }

  lemma PickLog0(x: bv8)
    requires x >> 4 == 0 && x != 0
    ensures exists n :: LogOk(x, n)
  {
    hide LogOk;
    Logs0();
    match x & 15
    case 0 => case 1 => case 2 => case 3 => case 4 => case 5 => case 6 => case 7 =>
    case 8 => case 9 => case 10 => case 11 => case 12 => case 13 => case 14 => case _ =>
  }

  lemma PickLog1(x: bv8)
    requires x >> 4 == 1 && x != 0
    ensures exists n :: LogOk(x, n)
  {
    hide LogOk;
    Logs1();
    match x & 15
    case 0 => case 1 => case 2 => case 3 => case 4 => case 5 => case 6 => case 7 =>
    case 8 => case 9 => case 10 => case 11 => case 12 => case 13 => case 14 => case _ =>
  }

  lemma PickLog2(x: bv8)
    requires x >> 4 == 2 && x != 0
    ensures exists n :: LogOk(x, n)
  {
    hide LogOk;
    Logs2();
    match x & 15
    case 0 => case 1 => case 2 => case 3 => case 4 => case 5 => case 6 => case 7 =>
    case 8 => case 9 => case 10 => case 11 => case 12 => case 13 => case 14 => case _ =>
  }

  lemma PickLog3(x: bv8)
    requires x >> 4 == 3 && x != 0
    ensures exists n :: LogOk(x, n)
  {
    hide LogOk;
    Logs3();
    match x & 15
    case 0 => case 1 => case 2 => case 3 => case 4 => case 5 => case 6 => case 7 =>
    case 8 => case 9 => case 10 => case 11 => case 12 => case 13 => case 14 => case _ =>
  }

  lemma PickLog4(x: bv8)
    requires x >> 4 == 4 && x != 0
    ensures exists n :: LogOk(x, n)
  {
    hide LogOk;
    Logs4();
    match x & 15
    case 0 => case 1 => case 2 => case 3 => case 4 => case 5 => case 6 => case 7 =>
    case 8 => case 9 => case 10 => case 11 => case 12 => case 13 => case 14 => case _ =>
  }

  lemma PickLog5(x: bv8)
    requires x >> 4 == 5 && x != 0
    ensures exists n :: LogOk(x, n)
  {
    hide LogOk;
    Logs5();
    match x & 15
    case 0 => case 1 => case 2 => case 3 => case 4 => case 5 => case 6 => case 7 =>
    case 8 => case 9 => case 10 => case 11 => case 12 => case 13 => case 14 => case _ =>
  }

  lemma PickLog6(x: bv8)
    requires x >> 4 == 6 && x != 0
    ensures exists n :: LogOk(x, n)
  {
    hide LogOk;
    Logs6();
    match x & 15
    case 0 => case 1 => case 2 => case 3 => case 4 => case 5 => case 6 => case 7 =>
    case 8 => case 9 => case 10 => case 11 => case 12 => case 13 => case 14 => case _ =>
  }

  lemma PickLog7(x: bv8)
    requires x >> 4 == 7 && x != 0
    ensures exists n :: LogOk(x, n)
  {
    hide LogOk;
    Logs7();
    match x & 15
    case 0 => case 1 => case 2 => case 3 => case 4 => case 5 => case 6 => case 7 =>
    case 8 => case 9 => case 10 => case 11 => case 12 => case 13 => case 14 => case _ =>
  }

  lemma PickLog8(x: bv8)
    requires x >> 4 == 8 && x != 0
    ensures exists n :: LogOk(x, n)
  {
    hide LogOk;
    Logs8();
    match x & 15
    case 0 => case 1 => case 2 => case 3 => case 4 => case 5 => case 6 => case 7 =>
    case 8 => case 9 => case 10 => case 11 => case 12 => case 13 => case 14 => case _ =>
  }

  lemma PickLog9(x: bv8)
    requires x >> 4 == 9 && x != 0
    ensures exists n :: LogOk(x, n)
  {
    hide LogOk;
    Logs9();
    match x & 15
    case 0 => case 1 => case 2 => case 3 => case 4 => case 5 => case 6 => case 7 =>
    case 8 => case 9 => case 10 => case 11 => case 12 => case 13 => case 14 => case _ =>
  }

  lemma PickLogA(x: bv8)
    requires x >> 4 == 10 && x != 0
    ensures exists n :: LogOk(x, n)
  {
    hide LogOk;
    LogsA();
    match x & 15
    case 0 => case 1 => case 2 => case 3 => case 4 => case 5 => case 6 => case 7 =>
    case 8 => case 9 => case 10 => case 11 => case 12 => case 13 => case 14 => case _ =>
  }

  lemma PickLogB(x: bv8)
    requires x >> 4 == 11 && x != 0
    ensures exists n :: LogOk(x, n)
  {
    hide LogOk;
    LogsB();
    match x & 15
    case 0 => case 1 => case 2 => case 3 => case 4 => case 5 => case 6 => case 7 =>
    case 8 => case 9 => case 10 => case 11 => case 12 => case 13 => case 14 => case _ =>
  }

  lemma PickLogC(x: bv8)
    requires x >> 4 == 12 && x != 0
    ensures exists n :: LogOk(x, n)
  {
    hide LogOk;
    LogsC();
    match x & 15
    case 0 => case 1 => case 2 => case 3 => case 4 => case 5 => case 6 => case 7 =>
    case 8 => case 9 => case 10 => case 11 => case 12 => case 13 => case 14 => case _ =>
  }

  lemma PickLogD(x: bv8)
    requires x >> 4 == 13 && x != 0
    ensures exists n :: LogOk(x, n)
  {
    hide LogOk;
    LogsD();
    match x & 15
    case 0 => case 1 => case 2 => case 3 => case 4 => case 5 => case 6 => case 7 =>
    case 8 => case 9 => case 10 => case 11 => case 12 => case 13 => case 14 => case _ =>
  }

  lemma PickLogE(x: bv8)
    requires x >> 4 == 14 && x != 0
    ensures exists n :: LogOk(x, n)
  {
    hide LogOk;
    LogsE();
    match x & 15
    case 0 => case 1 => case 2 => case 3 => case 4 => case 5 => case 6 => case 7 =>
    case 8 => case 9 => case 10 => case 11 => case 12 => case 13 => case 14 => case _ =>
  }

  lemma PickLogF(x: bv8)
    requires x >> 4 == 15 && x != 0
    ensures exists n :: LogOk(x, n)
  {
    hide LogOk;
    LogsF();
    match x & 15
    case 0 => case 1 => case 2 => case 3 => case 4 => case 5 => case 6 => case 7 =>
    case 8 => case 9 => case 10 => case 11 => case 12 => case 13 => case 14 => case _ =>
  }

  lemma SomeLog(x: bv8)
    requires x != 0
    ensures exists n :: LogOk(x, n)
  {
    hide LogOk;
    match x >> 4
    case 0 => PickLog0(x);
    case 1 => PickLog1(x);
    case 2 => PickLog2(x);
    case 3 => PickLog3(x);
    case 4 => PickLog4(x);
    case 5 => PickLog5(x);
    case 6 => PickLog6(x);
    case 7 => PickLog7(x);
    case 8 => PickLog8(x);
    case 9 => PickLog9(x);
    case 10 => PickLogA(x);
    case 11 => PickLogB(x);
    case 12 => PickLogC(x);
    case 13 => PickLogD(x);
    case 14 => PickLogE(x);
    case _ => PickLogF(x);
  }

  lemma IndexIsLog(x: bv8)
    requires x != 0
    ensures IndexOf(x) < NN && Times(1, IndexOf(x)) == x
  {
    hide IndexOf, AlphaTo, Times;
    SomeLog(x);
    AlphaIsPower(IndexOf(x));
  }

  lemma ZeroHasNoLog()
    ensures IndexOf(0) == A0
  {
  }

  ghost predicate NoOne(row: seq<bv8>) {
    && |row| == 16
    && row[0] != 1 && row[1] != 1 && row[2] != 1 && row[3] != 1 && row[4] != 1 && row[5] != 1 && row[6] != 1
        && row[7] != 1
    && row[8] != 1 && row[9] != 1 && row[10] != 1 && row[11] != 1 && row[12] != 1 && row[13] != 1
        && row[14] != 1 && row[15] != 1
  }

  lemma RowsNoOne0()
    ensures NoOne([0] + ALPHA_0[1..]) && NoOne(ALPHA_1) && NoOne(ALPHA_2) && NoOne(ALPHA_3)
  {
  }

  lemma RowsNoOne1()
    ensures NoOne(ALPHA_4) && NoOne(ALPHA_5) && NoOne(ALPHA_6) && NoOne(ALPHA_7)
  {
  }

  lemma RowsNoOne2()
    ensures NoOne(ALPHA_8) && NoOne(ALPHA_9) && NoOne(ALPHA_A) && NoOne(ALPHA_B)
  {
  }

  lemma RowsNoOne3()
    ensures NoOne(ALPHA_C) && NoOne(ALPHA_D) && NoOne(ALPHA_E) && NoOne(ALPHA_F)
  {
  }

  lemma RowNoOne(r: nat)
    requires 0 < r < 16
    ensures NoOne(AlphaRow(r))
  {
    hide NoOne;
    RowsNoOne0();
    RowsNoOne1();
    RowsNoOne2();
    RowsNoOne3();
    match r
    case 1 => case 2 => case 3 => case 4 => case 5 => case 6 => case 7 => case 8 =>
    case 9 => case 10 => case 11 => case 12 => case 13 => case 14 => case _ =>
  }

  lemma NoOneAt(row: seq<bv8>, j: nat)
    requires NoOne(row) && j < 16
    ensures row[j] != 1
  {
    match j
    case 0 => case 1 => case 2 => case 3 => case 4 => case 5 => case 6 => case 7 =>
    case 8 => case 9 => case 10 => case 11 => case 12 => case 13 => case 14 => case _ =>
  }

  /** alpha is primitive: none of its powers before the 255th is 1. */
  lemma Primitive(n: nat)
    requires 0 < n < NN
    ensures Times(1, n) != 1
  {
    hide Times, NoOne, AlphaRow;
    AlphaIsPower(n);
    if n < 16 {
      RowsNoOne0();
      NoOneAt([0] + ALPHA_0[1..], n);
      RowZero(n);
    } else {
      RowNoOne(n / 16);
      NoOneAt(AlphaRow(n / 16), n % 16);
    }
  }

  lemma RowZero(n: nat)
    requires 0 < n < 16
    ensures AlphaTo(n) == ([0] + ALPHA_0[1..])[n]
  {
  }

  // -------------------------------------------------------------- multiplying by tables

  lemma TimesPeriod(x: bv8)
    ensures Times(x, NN) == x
  {
    hide Times, IndexOf;
    if x == 0 {
      TimesZero(NN);
    } else {
      IndexIsLog(x);
      var n := IndexOf(x);
      TimesAdd(1, n, NN);
      TimesAdd(1, NN, n);
      PowerPeriod();
    }
  }

  lemma {:induction false} TimesModulo(x: bv8, k: nat)
    ensures Times(x, k % NN) == Times(x, k)
    decreases k
  {
    hide Times;
    if k >= NN {
      TimesModulo(x, k - NN);
      TimesPeriod(x);
      TimesAdd(x, NN, k - NN);
    }
  }

  /** Adding logarithms modulo 255 multiplies. */
  lemma TableMultiplies(x: bv8, k: nat)
    requires x != 0
    ensures AlphaTo((IndexOf(x) + k) % NN) == Times(x, k)
  {
    hide Times, IndexOf, AlphaTo;
    IndexIsLog(x);
    var n := IndexOf(x);
    AlphaIsPower((n + k) % NN);
    TimesModulo(1, n + k);
    TimesAdd(1, n, k);
  }

  // ------------------------------------------------------- the product of two elements

  /** Bit k of y selects x times the k-th power of alpha. */
  function Selected(y: bv8, mask: bv8, x: bv8): bv8 {
    if y & mask != 0 then x else 0
  }

  /** The product by shifting and adding. */
  function Product(x: bv8, y: bv8): bv8 {
    Add(Add(Add(Selected(y, 1, x), Selected(y, 2, Times(x, 1))),
            Add(Selected(y, 4, Times(x, 2)), Selected(y, 8, Times(x, 3)))),
        Add(Add(Selected(y, 16, Times(x, 4)), Selected(y, 32, Times(x, 5))),
            Add(Selected(y, 64, Times(x, 6)), Selected(y, 128, Times(x, 7)))))
  }

  lemma SelectedTimes(y: bv8, mask: bv8, x: bv8, j: nat, k: nat)
    ensures Times(Selected(y, mask, Times(x, j)), k) == Selected(y, mask, Times(Times(x, k), j))
  {
    hide Times;
    TimesZero(k);
    TimesAdd(x, j, k);
    TimesAdd(x, k, j);
  }

  /** Multiplying a factor by a power of alpha multiplies the product. */
  lemma ProductTimes(x: bv8, y: bv8, k: nat)
    ensures Product(Times(x, k), y) == Times(Product(x, y), k)
  {
    hide Times, Add, Selected;
    NoPower(x);
    NoPower(Times(x, k));
    var a, b := Selected(y, 1, x), Selected(y, 2, Times(x, 1));
    var c, d := Selected(y, 4, Times(x, 2)), Selected(y, 8, Times(x, 3));
    var e, f := Selected(y, 16, Times(x, 4)), Selected(y, 32, Times(x, 5));
    var g, h := Selected(y, 64, Times(x, 6)), Selected(y, 128, Times(x, 7));
    SelectedTimes(y, 1, x, 0, k);
    SelectedTimes(y, 2, x, 1, k);
    SelectedTimes(y, 4, x, 2, k);
    SelectedTimes(y, 8, x, 3, k);
    SelectedTimes(y, 16, x, 4, k);
    SelectedTimes(y, 32, x, 5, k);
    SelectedTimes(y, 64, x, 6, k);
    SelectedTimes(y, 128, x, 7, k);
    TimesLinear(a, b, k);
    TimesLinear(c, d, k);
    TimesLinear(e, f, k);
    TimesLinear(g, h, k);
    TimesLinear(Add(a, b), Add(c, d), k);
    TimesLinear(Add(e, f), Add(g, h), k);
    TimesLinear(Add(Add(a, b), Add(c, d)), Add(Add(e, f), Add(g, h)), k);
  }

  lemma NoPower(x: bv8)
    ensures Times(x, 0) == x
  {
  }

  lemma PowersOfAlpha()
    ensures Times(1, 1) == 2 && Times(1, 2) == 4 && Times(1, 3) == 8 && Times(1, 4) == 16
    ensures Times(1, 5) == 32 && Times(1, 6) == 64 && Times(1, 7) == 128
  {
    assert Times(1, 1) == 2;
    assert Times(1, 2) == 4;
    assert Times(1, 3) == 8;
    assert Times(1, 4) == 16;
    assert Times(1, 5) == 32;
    assert Times(1, 6) == 64;
  }

  lemma ProductOne(y: bv8)
    ensures Product(1, y) == y
  {
    PowersOfAlpha();
    hide Times;
  }

  /** The two tables multiply any two nonzero elements. */
  lemma TablesMultiply(x: bv8, y: bv8)
    requires x != 0 && y != 0
    ensures AlphaTo((IndexOf(x) + IndexOf(y)) % NN) == Product(x, y)
  {
    hide Times, IndexOf, AlphaTo, Product;
    IndexIsLog(x);
    ProductTimes(1, y, IndexOf(x));
    ProductOne(y);
    TableMultiplies(y, IndexOf(x));
  }

  lemma OneOnlyAtPeriod(n: nat)
    requires Times(1, n) == 1
    ensures n % NN == 0
  {
    hide Times;
    TimesModulo(1, n);
    if n % NN != 0 { Primitive(n % NN); }
  }

  /** mod255: each turn replaces x = 256 q + r, less 255, by q + r. */
  method Mod255(x: nat) returns (r: nat)
    ensures r == x % NN
  {
    r := x;
    while r >= NN
      invariant r % NN == x % NN
    {
      Fold(r);
      r := r - NN;
      r := r / 256 + r % 256;
    }
  }

  lemma Fold(x: nat)
    requires x >= NN
    ensures var y := x - NN; (y / 256 + y % 256) % NN == x % NN && y / 256 + y % 256 < x
  {
    var y := x - NN;
    var q, r := y / 256, y % 256;
    assert y == 255 * q + (q + r);
    assert x == 255 * (q + 1) + (q + r);
  }
}
