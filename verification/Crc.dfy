/** The CRC-32 checksum (src/crc.c) with the parameters of section 8 of RFC 1952. */
module Crc {

  // ------------------------------------------------------------------------- the table

  const ROW_0: seq<bv32> := [
    0x00000000, 0x77073096, 0xEE0E612C, 0x990951BA, 0x076DC419, 0x706AF48F, 0xE963A535, 0x9E6495A3,
    0x0EDB8832, 0x79DCB8A4, 0xE0D5E91E, 0x97D2D988, 0x09B64C2B, 0x7EB17CBD, 0xE7B82D07, 0x90BF1D91]
  const ROW_1: seq<bv32> := [
    0x1DB71064, 0x6AB020F2, 0xF3B97148, 0x84BE41DE, 0x1ADAD47D, 0x6DDDE4EB, 0xF4D4B551, 0x83D385C7,
    0x136C9856, 0x646BA8C0, 0xFD62F97A, 0x8A65C9EC, 0x14015C4F, 0x63066CD9, 0xFA0F3D63, 0x8D080DF5]
  const ROW_2: seq<bv32> := [
    0x3B6E20C8, 0x4C69105E, 0xD56041E4, 0xA2677172, 0x3C03E4D1, 0x4B04D447, 0xD20D85FD, 0xA50AB56B,
    0x35B5A8FA, 0x42B2986C, 0xDBBBC9D6, 0xACBCF940, 0x32D86CE3, 0x45DF5C75, 0xDCD60DCF, 0xABD13D59]
  const ROW_3: seq<bv32> := [
    0x26D930AC, 0x51DE003A, 0xC8D75180, 0xBFD06116, 0x21B4F4B5, 0x56B3C423, 0xCFBA9599, 0xB8BDA50F,
    0x2802B89E, 0x5F058808, 0xC60CD9B2, 0xB10BE924, 0x2F6F7C87, 0x58684C11, 0xC1611DAB, 0xB6662D3D]
  const ROW_4: seq<bv32> := [
    0x76DC4190, 0x01DB7106, 0x98D220BC, 0xEFD5102A, 0x71B18589, 0x06B6B51F, 0x9FBFE4A5, 0xE8B8D433,
    0x7807C9A2, 0x0F00F934, 0x9609A88E, 0xE10E9818, 0x7F6A0DBB, 0x086D3D2D, 0x91646C97, 0xE6635C01]
  const ROW_5: seq<bv32> := [
    0x6B6B51F4, 0x1C6C6162, 0x856530D8, 0xF262004E, 0x6C0695ED, 0x1B01A57B, 0x8208F4C1, 0xF50FC457,
    0x65B0D9C6, 0x12B7E950, 0x8BBEB8EA, 0xFCB9887C, 0x62DD1DDF, 0x15DA2D49, 0x8CD37CF3, 0xFBD44C65]
  const ROW_6: seq<bv32> := [
    0x4DB26158, 0x3AB551CE, 0xA3BC0074, 0xD4BB30E2, 0x4ADFA541, 0x3DD895D7, 0xA4D1C46D, 0xD3D6F4FB,
    0x4369E96A, 0x346ED9FC, 0xAD678846, 0xDA60B8D0, 0x44042D73, 0x33031DE5, 0xAA0A4C5F, 0xDD0D7CC9]
  const ROW_7: seq<bv32> := [
    0x5005713C, 0x270241AA, 0xBE0B1010, 0xC90C2086, 0x5768B525, 0x206F85B3, 0xB966D409, 0xCE61E49F,
    0x5EDEF90E, 0x29D9C998, 0xB0D09822, 0xC7D7A8B4, 0x59B33D17, 0x2EB40D81, 0xB7BD5C3B, 0xC0BA6CAD]
  const ROW_8: seq<bv32> := [
    0xEDB88320, 0x9ABFB3B6, 0x03B6E20C, 0x74B1D29A, 0xEAD54739, 0x9DD277AF, 0x04DB2615, 0x73DC1683,
    0xE3630B12, 0x94643B84, 0x0D6D6A3E, 0x7A6A5AA8, 0xE40ECF0B, 0x9309FF9D, 0x0A00AE27, 0x7D079EB1]
  const ROW_9: seq<bv32> := [
    0xF00F9344, 0x8708A3D2, 0x1E01F268, 0x6906C2FE, 0xF762575D, 0x806567CB, 0x196C3671, 0x6E6B06E7,
    0xFED41B76, 0x89D32BE0, 0x10DA7A5A, 0x67DD4ACC, 0xF9B9DF6F, 0x8EBEEFF9, 0x17B7BE43, 0x60B08ED5]
  const ROW_A: seq<bv32> := [
    0xD6D6A3E8, 0xA1D1937E, 0x38D8C2C4, 0x4FDFF252, 0xD1BB67F1, 0xA6BC5767, 0x3FB506DD, 0x48B2364B,
    0xD80D2BDA, 0xAF0A1B4C, 0x36034AF6, 0x41047A60, 0xDF60EFC3, 0xA867DF55, 0x316E8EEF, 0x4669BE79]
  const ROW_B: seq<bv32> := [
    0xCB61B38C, 0xBC66831A, 0x256FD2A0, 0x5268E236, 0xCC0C7795, 0xBB0B4703, 0x220216B9, 0x5505262F,
    0xC5BA3BBE, 0xB2BD0B28, 0x2BB45A92, 0x5CB36A04, 0xC2D7FFA7, 0xB5D0CF31, 0x2CD99E8B, 0x5BDEAE1D]
  const ROW_C: seq<bv32> := [
    0x9B64C2B0, 0xEC63F226, 0x756AA39C, 0x026D930A, 0x9C0906A9, 0xEB0E363F, 0x72076785, 0x05005713,
    0x95BF4A82, 0xE2B87A14, 0x7BB12BAE, 0x0CB61B38, 0x92D28E9B, 0xE5D5BE0D, 0x7CDCEFB7, 0x0BDBDF21]
  const ROW_D: seq<bv32> := [
    0x86D3D2D4, 0xF1D4E242, 0x68DDB3F8, 0x1FDA836E, 0x81BE16CD, 0xF6B9265B, 0x6FB077E1, 0x18B74777,
    0x88085AE6, 0xFF0F6A70, 0x66063BCA, 0x11010B5C, 0x8F659EFF, 0xF862AE69, 0x616BFFD3, 0x166CCF45]
  const ROW_E: seq<bv32> := [
    0xA00AE278, 0xD70DD2EE, 0x4E048354, 0x3903B3C2, 0xA7672661, 0xD06016F7, 0x4969474D, 0x3E6E77DB,
    0xAED16A4A, 0xD9D65ADC, 0x40DF0B66, 0x37D83BF0, 0xA9BCAE53, 0xDEBB9EC5, 0x47B2CF7F, 0x30B5FFE9]
  const ROW_F: seq<bv32> := [
    0xBDBDF21C, 0xCABAC28A, 0x53B39330, 0x24B4A3A6, 0xBAD03605, 0xCDD70693, 0x54DE5729, 0x23D967BF,
    0xB3667A2E, 0xC4614AB8, 0x5D681B02, 0x2A6F2B94, 0xB40BBE37, 0xC30C8EA1, 0x5A05DF1B, 0x2D02EF8D]

  /** crc32_table, sixteen entries to a row */
  const CRC32_TABLE: seq<seq<bv32>> := [
    ROW_0, ROW_1, ROW_2, ROW_3, ROW_4, ROW_5, ROW_6, ROW_7,
    ROW_8, ROW_9, ROW_A, ROW_B, ROW_C, ROW_D, ROW_E, ROW_F]

  /** Entry i of the table. */
  function TableAt(i: bv32): bv32
    requires i < 256
  {
    CRC32_TABLE[(i >> 4) as int][(i & 15) as int]
  }

  const CRC32_INIT: bv32 := 0xFFFFFFFF
  const CRC32_INVERSE: bv32 := 0xFFFFFFFF

  // --------------------------------------------------------------------- the definition

  function Xor(a: bv32, b: bv32): bv32 {
    a ^ b
  }

  function Halved(c: bv32): bv32 {
    c >> 1
  }

  /** One bit of the division by the reflected polynomial 0x04C11DB7. */
  function BitStep(c: bv32): bv32 {
    if c & 1 == 1 then Xor(Halved(c), 0xEDB88320) else Halved(c)
  }

  function Bits8(c: bv32): bv32 {
    BitStep(BitStep(BitStep(BitStep(BitStep(BitStep(BitStep(BitStep(c))))))))
  }

  /** A byte enters the register, lowest bit first. */
  function Feed(c: bv32, b: bv8): bv32 {
    Bits8(Xor(c, b as bv32))
  }

  /** The register after a message that found it at c. */
  function Register(c: bv32, message: seq<bv8>): bv32
    decreases |message|
  {
    if message == [] then c else Register(Feed(c, message[0]), message[1..])
  }

  /** The bit-serial CRC-32. */
  function Checksum(message: seq<bv8>): bv32 {
    Xor(Register(CRC32_INIT, message), CRC32_INVERSE)
  }

  // ------------------------------------------------------------------- laws of the bits

  lemma XorAssoc(a: bv32, b: bv32, c: bv32)
    ensures Xor(Xor(a, b), c) == Xor(a, Xor(b, c))
  {
  }

  lemma XorComm(a: bv32, b: bv32)
    ensures Xor(a, b) == Xor(b, a)
  {
  }

  lemma XorZero(a: bv32)
    ensures Xor(a, a) == 0 && Xor(a, 0) == a == Xor(0, a)
  {
  }

  lemma XorCancel(a: bv32, b: bv32, k: bv32)
    requires Xor(a, k) == Xor(b, k)
    ensures a == b
  {
    hide Xor;
    XorAssoc(a, k, k);
    XorAssoc(b, k, k);
    XorZero(k);
    XorZero(a);
    XorZero(b);
  }

  lemma XorCommon(a: bv32, b: bv32, k: bv32)
    ensures Xor(Xor(a, k), b) == Xor(a, Xor(b, k)) == Xor(Xor(a, b), k)
    ensures Xor(Xor(a, k), Xor(b, k)) == Xor(a, b)
  {
    hide Xor;
    XorAssoc(a, b, k);
    XorAssoc(a, k, b);
    XorComm(b, k);
    XorAssoc(a, k, Xor(b, k));
    XorAssoc(k, k, b);
    XorZero(k);
    XorZero(b);
  }

  lemma HalvedXor(a: bv32, b: bv32)
    ensures Halved(Xor(a, b)) == Xor(Halved(a), Halved(b)) && Xor(a, b) & 1 == (a & 1) ^ (b & 1)
  {
  }

  lemma LowBit(a: bv32)
    ensures a & 1 == 0 || a & 1 == 1
  {
  }

  lemma StepLinear(a: bv32, b: bv32)
    ensures BitStep(Xor(a, b)) == Xor(BitStep(a), BitStep(b))
  {
    hide Xor, Halved;
    HalvedXor(a, b);
    XorCommon(Halved(a), Halved(b), 0xEDB88320);
    LowBit(a);
    LowBit(b);
  }

  /** Eight steps of a sum are the sum of the steps. */
  lemma Linear(a: bv32, b: bv32)
    ensures Bits8(Xor(a, b)) == Xor(Bits8(a), Bits8(b))
  {
    hide BitStep, Xor;
    var a1, b1 := BitStep(a), BitStep(b);
    var a2, b2 := BitStep(a1), BitStep(b1);
    var a3, b3 := BitStep(a2), BitStep(b2);
    var a4, b4 := BitStep(a3), BitStep(b3);
    var a5, b5 := BitStep(a4), BitStep(b4);
    var a6, b6 := BitStep(a5), BitStep(b5);
    StepLinear(a, b);
    StepLinear(a1, b1);
    StepLinear(a2, b2);
    StepLinear(a3, b3);
    StepLinear(a4, b4);
    StepLinear(a5, b5);
    StepLinear(a6, b6);
    StepLinear(BitStep(a6), BitStep(b6));
  }

  lemma StepInjective(a: bv32, b: bv32)
    requires BitStep(a) == BitStep(b)
    ensures a == b
  {
  }

  lemma Injective(a: bv32, b: bv32)
    requires Bits8(a) == Bits8(b)
    ensures a == b
  {
    hide BitStep;
    var a1, b1 := BitStep(a), BitStep(b);
    var a2, b2 := BitStep(a1), BitStep(b1);
    var a3, b3 := BitStep(a2), BitStep(b2);
    var a4, b4 := BitStep(a3), BitStep(b3);
    var a5, b5 := BitStep(a4), BitStep(b4);
    var a6, b6 := BitStep(a5), BitStep(b5);
    StepInjective(BitStep(a6), BitStep(b6));
    StepInjective(a6, b6);
    StepInjective(a5, b5);
    StepInjective(a4, b4);
    StepInjective(a3, b3);
    StepInjective(a2, b2);
    StepInjective(a1, b1);
    StepInjective(a, b);
  }

  lemma UpperBytesShift(a: bv32)
    requires a & 0xff == 0
    ensures Bits8(a) == a >> 8
  {
  }

  // ------------------------------------------------------------------ the table is right

  lemma FirstRow(j: bv32)
    requires j < 16
    ensures ROW_0[j as int] == Bits8(j)
  {
    match j
    case 0 =>
    case 1 =>
    case 2 =>
    case 3 =>
    case 4 =>
    case 5 =>
    case 6 =>
    case 7 =>
    case 8 =>
    case 9 =>
    case 10 =>
    case 11 =>
    case 12 =>
    case 13 =>
    case 14 =>
    case _ =>
  }

  lemma FirstColumn(h: bv32)
    requires h < 16
    ensures CRC32_TABLE[h as int][0] == Bits8(h << 4)
  {
    match h
    case 0 =>
    case 1 =>
    case 2 =>
    case 3 =>
    case 4 =>
    case 5 =>
    case 6 =>
    case 7 =>
    case 8 =>
    case 9 =>
    case 10 =>
    case 11 =>
    case 12 =>
    case 13 =>
    case 14 =>
    case _ =>
  }

  /** The row is the first one plus a constant. */
  ghost predicate Follows(row: seq<bv32>) {
    && |row| == 16
    && row[1] == Xor(row[0], ROW_0[1]) && row[2] == Xor(row[0], ROW_0[2]) && row[3] == Xor(row[0], ROW_0[3])
    && row[4] == Xor(row[0], ROW_0[4]) && row[5] == Xor(row[0], ROW_0[5]) && row[6] == Xor(row[0], ROW_0[6])
    && row[7] == Xor(row[0], ROW_0[7]) && row[8] == Xor(row[0], ROW_0[8]) && row[9] == Xor(row[0], ROW_0[9])
    && row[10] == Xor(row[0], ROW_0[10]) && row[11] == Xor(row[0], ROW_0[11]) && row[12] == Xor(row[0], ROW_0[12])
    && row[13] == Xor(row[0], ROW_0[13]) && row[14] == Xor(row[0], ROW_0[14]) && row[15] == Xor(row[0], ROW_0[15])
  }

  lemma RowsFollow0(h: int)
    requires 0 <= h < 4
    ensures Follows(CRC32_TABLE[h])
  {
    match h
    case 0 =>
    case 1 =>
    case 2 =>
    case _ =>
  }

  lemma RowsFollow1(h: int)
    requires 4 <= h < 8
    ensures Follows(CRC32_TABLE[h])
  {
    match h
    case 4 =>
    case 5 =>
    case 6 =>
    case _ =>
  }

  lemma RowsFollow2(h: int)
    requires 8 <= h < 12
    ensures Follows(CRC32_TABLE[h])
  {
    match h
    case 8 =>
    case 9 =>
    case 10 =>
    case _ =>
  }

  lemma RowsFollow3(h: int)
    requires 12 <= h < 16
    ensures Follows(CRC32_TABLE[h])
  {
    match h
    case 12 =>
    case 13 =>
    case 14 =>
    case _ =>
  }

  lemma RowsFollow(h: int)
    requires 0 <= h < 16
    ensures Follows(CRC32_TABLE[h])
  {
    hide Follows;
    if h < 4 { RowsFollow0(h); } else if h < 8 { RowsFollow1(h); }
    else if h < 12 { RowsFollow2(h); } else { RowsFollow3(h); }
  }

  lemma FollowsAt(row: seq<bv32>, j: int)
    requires Follows(row) && 0 <= j < 16
    ensures row[j] == Xor(row[0], ROW_0[j])
  {
    hide Xor;
    if j == 0 { XorZero(row[0]); }
  }

  lemma Nibbles(i: bv32)
    requires i < 256
    ensures i >> 4 < 16 && i & 15 < 16 && i == Xor((i >> 4) << 4, i & 15)
  {
  }

  /** Each of the 256 entries is eight bit-serial steps of its index. */
  lemma TableIsRight(i: bv32)
    requires i < 256
    ensures TableAt(i) == Bits8(i)
  {
    hide Xor, Bits8, Follows;
    Nibbles(i);
    var h, j := i >> 4, i & 15;
    FirstColumn(h);
    FirstRow(j);
    RowsFollow(h as int);
    FollowsAt(CRC32_TABLE[h as int], j as int);
    Linear(h << 4, j);
  }

  lemma Split(x: bv32)
    ensures x & 0xff < 256 && x == Xor(x & 0xffffff00, x & 0xff)
    ensures (x & 0xffffff00) & 0xff == 0 && (x & 0xffffff00) >> 8 == x >> 8
  {
  }

  lemma FeedShift(c: bv32, b: bv8)
    ensures Xor(c, b as bv32) >> 8 == c >> 8
  {
  }

  /** One turn of the table-driven loop. */
  function TableStep(c: bv32, b: bv8): bv32 {
    Split(Xor(c, b as bv32));
    Xor(c >> 8, TableAt(Xor(c, b as bv32) & 0xff))
  }

  /** It feeds one byte. */
  lemma StepByTable(c: bv32, b: bv8)
    ensures TableStep(c, b) == Feed(c, b)
  {
    hide Xor, Bits8, TableAt;
    var x := Xor(c, b as bv32);
    Split(x);
    FeedShift(c, b);
    TableIsRight(x & 0xff);
    UpperBytesShift(x & 0xffffff00);
    Linear(x & 0xffffff00, x & 0xff);
  }

  /** sky_crc32 */
  method Crc32(buf: seq<bv8>) returns (crc: bv32)
    ensures crc == Checksum(buf)
  {
    hide Xor, Feed, TableStep;
    crc := CRC32_INIT;
    var k := 0;
    assert buf[0..] == buf;
    while k < |buf|
      invariant 0 <= k <= |buf| && Register(crc, buf[k..]) == Register(CRC32_INIT, buf)
    {
      StepByTable(crc, buf[k]);
      assert buf[k..][1..] == buf[k + 1..];
      crc := TableStep(crc, buf[k]);
      k := k + 1;
    }
    crc := Xor(crc, CRC32_INVERSE);
  }

  // -------------------------------------------------------------------- error detection

  lemma {:induction false} RegisterAppend(c: bv32, m: seq<bv8>, n: seq<bv8>)
    ensures Register(c, m + n) == Register(Register(c, m), n)
    decreases |m|
  {
    hide Feed;
    if m == [] {
      assert m + n == n;
    } else {
      assert (m + n)[1..] == m[1..] + n;
      RegisterAppend(Feed(c, m[0]), m[1..], n);
    }
  }

  /** Different registers stay different under the same bytes. */
  lemma {:induction false} RegisterInjective(c: bv32, d: bv32, m: seq<bv8>)
    requires Register(c, m) == Register(d, m)
    ensures c == d
    decreases |m|
  {
    hide Bits8, Xor;
    if m != [] {
      RegisterInjective(Feed(c, m[0]), Feed(d, m[0]), m[1..]);
      Injective(Xor(c, m[0] as bv32), Xor(d, m[0] as bv32));
      XorCancel(c, d, m[0] as bv32);
    }
  }

  /** A byte below a word. */
  function Join(a: bv8, x: bv32): bv32 {
    Xor(a as bv32, x << 8)
  }

  /** Up to four bytes as one word, the first one lowest. */
  function Word(m: seq<bv8>): bv32
    decreases |m|
  {
    if m == [] then 0 else Join(m[0], Word(m[1..]))
  }

  /** The word consists of k bytes. */
  predicate Within(x: bv32, k: nat) {
    match k
    case 0 => x == 0
    case 1 => x < 0x100
    case 2 => x < 0x1_0000
    case 3 => x < 0x100_0000
    case _ => true
  }

  lemma WithinZero()
    ensures Within(0, 0)
  {
  }

  lemma WithinThree(x: bv32, k: nat)
    requires Within(x, k) && k <= 3
    ensures Within(x, 3)
  {
  }

  lemma JoinWithin(a: bv8, x: bv32, k: nat)
    requires Within(x, k)
    ensures Within(Join(a, x), k + 1)
  {
  }

  lemma JoinParts(a: bv8, x: bv32)
    requires Within(x, 3)
    ensures Join(a, x) & 0xff == a as bv32 && Join(a, x) >> 8 == x
  {
  }

  lemma SameByte(a: bv8, b: bv8)
    requires a as bv32 == b as bv32
    ensures a == b
  {
  }

  lemma JoinInjective(a: bv8, b: bv8, x: bv32, y: bv32)
    requires Within(x, 3) && Within(y, 3) && Join(a, x) == Join(b, y)
    ensures a == b && x == y
  {
    hide Join, Within;
    JoinParts(a, x);
    JoinParts(b, y);
    SameByte(a, b);
  }

  lemma {:induction false} WordWithin(m: seq<bv8>)
    ensures Within(Word(m), |m|)
    decreases |m|
  {
    hide Join, Within;
    if m == [] {
      WithinZero();
    } else {
      WordWithin(m[1..]);
      JoinWithin(m[0], Word(m[1..]), |m| - 1);
    }
  }

  lemma {:induction false} WordInjective(m: seq<bv8>, n: seq<bv8>)
    requires |m| == |n| <= 4 && Word(m) == Word(n)
    ensures m == n
    decreases |m|
  {
    hide Join, Within;
    if m != [] {
      WordWithin(m[1..]);
      WordWithin(n[1..]);
      WithinThree(Word(m[1..]), |m| - 1);
      WithinThree(Word(n[1..]), |m| - 1);
      JoinInjective(m[0], n[0], Word(m[1..]), Word(n[1..]));
      WordInjective(m[1..], n[1..]);
      assert m == [m[0]] + m[1..] && n == [n[0]] + n[1..];
    }
  }

  function BytesOf(c: bv32, k: nat): bv32
    decreases k
  {
    if k == 0 then c else BytesOf(Bits8(c), k - 1)
  }

  lemma {:induction false} BytesOfInjective(c: bv32, d: bv32, k: nat)
    requires BytesOf(c, k) == BytesOf(d, k)
    ensures c == d
    decreases k
  {
    hide Bits8;
    if k > 0 {
      BytesOfInjective(Bits8(c), Bits8(d), k - 1);
      Injective(c, d);
    }
  }

  lemma ShiftedWord(x: bv32)
    requires Within(x, 3)
    ensures (x << 8) & 0xff == 0 && (x << 8) >> 8 == x
  {
  }

  lemma JoinFeeds(c: bv32, a: bv8, x: bv32)
    requires Within(x, 3)
    ensures Bits8(Xor(c, Join(a, x))) == Xor(Feed(c, a), x)
  {
    hide Xor, Bits8, Within;
    ShiftedWord(x);
    UpperBytesShift(x << 8);
    Linear(Xor(c, a as bv32), x << 8);
    XorAssoc(c, a as bv32, x << 8);
  }

  /** Up to four bytes act on the register as one word. */
  lemma {:induction false} WordAtOnce(c: bv32, m: seq<bv8>)
    requires |m| <= 4
    ensures Register(c, m) == BytesOf(Xor(c, Word(m)), |m|)
    decreases |m|
  {
    hide Xor, Bits8, Within, Join, Feed;
    if m == [] {
      XorZero(c);
    } else {
      var w := Word(m[1..]);
      WordAtOnce(Feed(c, m[0]), m[1..]);
      WordWithin(m[1..]);
      WithinThree(w, |m| - 1);
      JoinFeeds(c, m[0], w);
    }
  }

  /** Messages of equal length that differ only within four consecutive bytes never have
      the same checksum; in particular a single wrong byte is always noticed. */
  lemma BurstDetected(prefix: seq<bv8>, m: seq<bv8>, n: seq<bv8>, suffix: seq<bv8>)
    requires |m| == |n| <= 4 && m != n
    ensures Checksum(prefix + m + suffix) != Checksum(prefix + n + suffix)
  {
    hide Xor, Bits8, Register;
    var c := Register(CRC32_INIT, prefix);
    RegisterAppend(CRC32_INIT, prefix + m, suffix);
    RegisterAppend(CRC32_INIT, prefix, m);
    RegisterAppend(CRC32_INIT, prefix + n, suffix);
    RegisterAppend(CRC32_INIT, prefix, n);
    if Checksum(prefix + m + suffix) == Checksum(prefix + n + suffix) {
      XorCancel(Register(CRC32_INIT, prefix + m + suffix), Register(CRC32_INIT, prefix + n + suffix), CRC32_INVERSE);
      RegisterInjective(Register(c, m), Register(c, n), suffix);
      WordAtOnce(c, m);
      WordAtOnce(c, n);
      BytesOfInjective(Xor(c, Word(m)), Xor(c, Word(n)), |m|);
      XorComm(c, Word(m));
      XorComm(c, Word(n));
      XorCancel(Word(m), Word(n), c);
      WordInjective(m, n);
    }
  }

  // ----------------------------------------------------------------- start and end value

  /** The checksum with its lowest byte first, as section 2.2 of RFC 1952 stores it. */
  function LowestFirst(x: bv32): seq<bv8> {
    [(x & 0xff) as bv8, ((x >> 8) & 0xff) as bv8, ((x >> 16) & 0xff) as bv8, (x >> 24) as bv8]
  }

  lemma WordOfFour(a: bv8, b: bv8, c: bv8, d: bv8)
    ensures Word([a, b, c, d]) == Join(a, Join(b, Join(c, Join(d, 0))))
  {
    hide Join;
    assert [a, b, c, d][1..] == [b, c, d] && [b, c, d][1..] == [c, d] && [c, d][1..] == [d] && [d][1..] == [];
    assert Word([d]) == Join(d, 0);
    assert Word([c, d]) == Join(c, Word([d]));
    assert Word([b, c, d]) == Join(b, Word([c, d]));
  }

  lemma WordOfBytes(x: bv32)
    ensures Word(LowestFirst(x)) == x
  {
    hide Word, Join;
    WordOfFour((x & 0xff) as bv8, ((x >> 8) & 0xff) as bv8, ((x >> 16) & 0xff) as bv8, (x >> 24) as bv8);
    BytesJoin(x);
  }

  lemma BytesJoin(x: bv32)
    ensures Join((x & 0xff) as bv8,
                 Join(((x >> 8) & 0xff) as bv8, Join(((x >> 16) & 0xff) as bv8, Join((x >> 24) as bv8, 0)))) == x
  {
  }

  const RESIDUE: bv32 := 0xDEBB20E3

  lemma Step0()
    ensures Bits8(0xFFFFFFFF) == 0x2DFD1072
  {
  }

  lemma Step1()
    ensures Bits8(0x2DFD1072) == 0xBE26ED00
  {
  }

  lemma Step2()
    ensures Bits8(0xBE26ED00) == 0x00BE26ED
  {
  }

  lemma Step3()
    ensures Bits8(0x00BE26ED) == 0xDEBB20E3
  {
  }

  /** Four zero bytes from the start value. */
  lemma RunOut()
    ensures BytesOf(CRC32_INIT, 1) == 0x2DFD1072 && BytesOf(CRC32_INIT, 2) == 0xBE26ED00
    ensures BytesOf(CRC32_INIT, 3) == 0x00BE26ED && BytesOf(CRC32_INIT, 4) == RESIDUE
  {
    hide Bits8;
    Step0();
    Step1();
    Step2();
    Step3();
  }

  /** A message followed by its checksum, lowest byte first, always leaves the register at the
      same value, whatever the message: this is how the value 0xFFFFFFFF at both ends shows. */
  lemma Residue(m: seq<bv8>)
    ensures Register(CRC32_INIT, m + LowestFirst(Checksum(m))) == RESIDUE
  {
    hide Xor, Bits8, Register, LowestFirst, BytesOf;
    var r := Register(CRC32_INIT, m);
    var x := Checksum(m);
    RegisterAppend(CRC32_INIT, m, LowestFirst(x));
    assert |LowestFirst(x)| == 4 by { FourBytes(x); }
    WordAtOnce(r, LowestFirst(x));
    WordOfBytes(x);
    XorAssoc(r, r, CRC32_INVERSE);
    XorZero(r);
    XorZero(CRC32_INVERSE);
    RunOut();
  }

  lemma FourBytes(x: bv32)
    ensures |LowestFirst(x)| == 4
  {
  }

  function Zeros(k: nat): seq<bv8> {
    seq(k, _ => 0)
  }

  /** Up to four zero bytes in front of a message always change its checksum. */
  lemma LeadingZeros(m: seq<bv8>, k: nat)
    requires 1 <= k <= 4
    ensures Checksum(Zeros(k) + m) != Checksum(m)
  {
    hide Xor, Bits8, Register, BytesOf;
    RegisterAppend(CRC32_INIT, Zeros(k), m);
    WordAtOnce(CRC32_INIT, Zeros(k));
    ZeroWord(k);
    XorZero(CRC32_INIT);
    ZerosMove(k);
    if Checksum(Zeros(k) + m) == Checksum(m) {
      XorCancel(Register(CRC32_INIT, Zeros(k) + m), Register(CRC32_INIT, m), CRC32_INVERSE);
      RegisterInjective(Register(CRC32_INIT, Zeros(k)), CRC32_INIT, m);
    }
  }

  lemma {:induction false} ZeroWord(k: nat)
    ensures Word(Zeros(k)) == 0
  {
    if k > 0 {
      assert Zeros(k)[1..] == Zeros(k - 1);
      ZeroWord(k - 1);
    }
  }

  lemma ZerosMove(k: nat)
    requires 1 <= k <= 4
    ensures BytesOf(CRC32_INIT, k) != CRC32_INIT
  {
    hide Bits8, BytesOf;
    RunOut();
    match k
    case 1 => case 2 => case 3 => case _ =>
  }

  // ----------------------------------------------------------------------------- frames

  const SKY_RET_OK := 0
  const SKY_RET_CRC_INVALID_LENGTH := -9
  const SKY_RET_CRC_INVALID_CHECKSUM := -9
  const SKY_FRAME_MAX_LEN := 223

  /** The checksum in network byte order: the highest byte first. */
  function BigEndian(x: bv32): (b: seq<bv8>)
    ensures |b| == 4
  {
    [(x >> 24) as bv8, ((x >> 16) & 0xff) as bv8, ((x >> 8) & 0xff) as bv8, (x & 0xff) as bv8]
  }

  function FromBigEndian(b: seq<bv8>): bv32
    requires |b| == 4
  {
    (b[0] as bv32 << 24) | (b[1] as bv32 << 16) | (b[2] as bv32 << 8) | b[3] as bv32
  }

  lemma HighestFirst(x: bv32, k: nat)
    requires k < 4
    ensures BigEndian(x)[k] == LowestFirst(x)[3 - k]
  {
  }

  lemma BigEndianRoundTrip(x: bv32)
    ensures FromBigEndian(BigEndian(x)) == x
  {
  }

  class CrcFrame {
    const raw: array<bv8>
    var length: nat

    constructor (data: seq<bv8>)
      requires |data| <= SKY_FRAME_MAX_LEN
      ensures Valid() && fresh(raw) && Contents() == data
    {
      raw := new bv8[SKY_FRAME_MAX_LEN + 6](i => if 0 <= i < |data| then data[i] else 0);
      length := |data|;
      new;
      assert raw[..length] == data;
    }

    ghost predicate Valid()
      reads this
    {
      length <= raw.Length == SKY_FRAME_MAX_LEN + 6
    }

    ghost function Contents(): seq<bv8>
      reads this, raw
      requires Valid()
    {
      raw[..length]
    }

    /** sky_extend_with_crc32 */
    method Extend() returns (ret: int)
      requires Valid()
      modifies `length, raw
      ensures Valid()
      ensures old(length) > SKY_FRAME_MAX_LEN - 4 ==>
                ret == SKY_RET_CRC_INVALID_LENGTH && Contents() == old(Contents())
      ensures old(length) <= SKY_FRAME_MAX_LEN - 4 ==>
                ret == SKY_RET_OK && Contents() == old(Contents()) + BigEndian(Checksum(old(Contents())))
    {
      hide Checksum, BigEndian;
      if length > SKY_FRAME_MAX_LEN - 4 {
        return SKY_RET_CRC_INVALID_LENGTH;
      }
      var crc := Crc32(raw[..length]);
      var bytes := BigEndian(crc);
      raw[length], raw[length + 1], raw[length + 2], raw[length + 3] := bytes[0], bytes[1], bytes[2], bytes[3];
      length := length + 4;
      return SKY_RET_OK;
    }

    /** sky_check_crc32: the frame is accepted exactly if it is some data followed by its
        checksum, and then only the data is left. */
    method Check() returns (ret: int)
      requires Valid()
      modifies `length
      ensures Valid()
      ensures ret == SKY_RET_OK <==>
              exists data :: old(Contents()) == data + BigEndian(Checksum(data))
      ensures ret == SKY_RET_OK ==> old(Contents()) == Contents() + BigEndian(Checksum(Contents()))
      ensures ret != SKY_RET_OK ==> ret == SKY_RET_CRC_INVALID_CHECKSUM && Contents() == old(Contents())
    {
      hide Checksum, BigEndian, FromBigEndian;
      if length < 4 {
        return SKY_RET_CRC_INVALID_LENGTH;
      }
      var n := length - 4;
      var received := FromBigEndian(raw[n..length]);
      var calculated := Crc32(raw[..n]);
      SplitUnique(raw[..length], n);
      assert raw[..length][..n] == raw[..n] && raw[..length][n..] == raw[n..length];
      BigEndianUnique(raw[n..length], calculated);
      if received != calculated {
        return SKY_RET_CRC_INVALID_CHECKSUM;
      }
      length := n;
      return SKY_RET_OK;
    }
  }

  lemma SplitUnique(all: seq<bv8>, n: nat)
    requires |all| == n + 4
    ensures (exists data :: all == data + BigEndian(Checksum(data))) <==> all[n..] == BigEndian(Checksum(all[..n]))
  {
    hide Checksum, BigEndian;
    forall data | all == data + BigEndian(Checksum(data)) ensures all[..n] == data
        && all[n..] == BigEndian(Checksum(data)) {
      assert |data| == n;
    }
    if all[n..] == BigEndian(Checksum(all[..n])) {
      assert all == all[..n] + all[n..];
    }
  }

  lemma BigEndianUnique(b: seq<bv8>, x: bv32)
    requires |b| == 4
    ensures FromBigEndian(b) == x <==> b == BigEndian(x)
  {
    hide FromBigEndian, BigEndian;
    BigEndianRoundTrip(x);
    if FromBigEndian(b) == x { BigEndianBack(b); }
  }

  lemma BigEndianBack(b: seq<bv8>)
    requires |b| == 4
    ensures BigEndian(FromBigEndian(b)) == b
  {
    var x := FromBigEndian(b);
    BytesBack(b[0], b[1], b[2], b[3]);
  }

  lemma BytesBack(b0: bv8, b1: bv8, b2: bv8, b3: bv8)
    ensures var x := (b0 as bv32 << 24) | (b1 as bv32 << 16) | (b2 as bv32 << 8) | b3 as bv32;
            && (x >> 24) as bv8 == b0 && ((x >> 16) & 0xff) as bv8 == b1
            && ((x >> 8) & 0xff) as bv8 == b2 && (x & 0xff) as bv8 == b3
  {
  }
}
