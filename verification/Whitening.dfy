/** Where the whitening sequence comes from (section 10.4.1 of CCSDS 131.0-B-3): a register with
    the polynomial h(x) = x^8 + x^7 + x^5 + x^3 + 1 that starts with all ones. */
module Whitening {
  import opened Base
  import opened GaloisField
  import opened RsCodec
  import opened Fec

  /** The register holds eight bits of the sequence, the oldest in the highest place.  The bit
      that follows them is the sum of those 8, 5, 3 and 1 places before it. */
  function Shift(b: bv8): bv8 {
    (b << 1) | (((b >> 7) ^ (b >> 4) ^ (b >> 2) ^ b) & 1)
  }

  /** The next eight bits. */
  function NextByte(b: bv8): bv8 {
    Shift(Shift(Shift(Shift(Shift(Shift(Shift(Shift(b))))))))
  }

  /** Byte n of the sequence. */
  function Sequence(n: nat): bv8 {
    if n == 0 then 0xff else NextByte(Sequence(n - 1))
  }

  ghost predicate RowSteps(row: seq<bv8>) {
    |row| == 16 &&
    NextByte(row[0]) == row[1] && NextByte(row[1]) == row[2] && NextByte(row[2]) == row[3] &&
    NextByte(row[3]) == row[4] && NextByte(row[4]) == row[5] && NextByte(row[5]) == row[6] &&
    NextByte(row[6]) == row[7] && NextByte(row[7]) == row[8] && NextByte(row[8]) == row[9] &&
    NextByte(row[9]) == row[10] && NextByte(row[10]) == row[11] && NextByte(row[11]) == row[12] &&
    NextByte(row[12]) == row[13] && NextByte(row[13]) == row[14] && NextByte(row[14]) == row[15]
  }

  lemma Rows0()
    ensures RowSteps(WHITENING[0]) && RowSteps(WHITENING[1])
  {
  }

  lemma Rows1()
    ensures RowSteps(WHITENING[2]) && RowSteps(WHITENING[3])
  {
  }

  lemma Rows2()
    ensures RowSteps(WHITENING[4]) && RowSteps(WHITENING[5])
  {
  }

  lemma Rows3()
    ensures RowSteps(WHITENING[6]) && RowSteps(WHITENING[7])
  {
  }

  lemma Rows4()
    ensures RowSteps(WHITENING[8]) && RowSteps(WHITENING[9])
  {
  }

  lemma Rows5()
    ensures RowSteps(WHITENING[10]) && RowSteps(WHITENING[11])
  {
  }

  lemma Rows6()
    ensures RowSteps(WHITENING[12]) && RowSteps(WHITENING[13])
  {
  }

  lemma Rows7()
    ensures RowSteps(WHITENING[14]) && RowSteps(WHITENING[15])
  {
  }

  lemma RowOf(r: nat)
    requires r < 16
    ensures RowSteps(WHITENING[r])
  {
    hide RowSteps;
    if r < 2 { Rows0(); } else if r < 4 { Rows1(); } else if r < 6 { Rows2(); } else if r < 8 { Rows3(); }
    else if r < 10 { Rows4(); } else if r < 12 { Rows5(); } else if r < 14 { Rows6(); } else { Rows7(); }
  }

  lemma RowStep(row: seq<bv8>, j: nat)
    requires RowSteps(row) && j < 15
    ensures NextByte(row[j]) == row[j + 1]
  {
    hide NextByte;
    match j
    case 0 => case 1 => case 2 => case 3 => case 4 => case 5 => case 6 => case 7 =>
    case 8 => case 9 => case 10 => case 11 => case 12 => case 13 => case _ =>
  }

  /** From the last byte of a row to the first of the next. */
  lemma Turns(r: nat)
    requires r < 15
    ensures NextByte(WHITENING[r][15]) == WHITENING[r + 1][0]
  {
    match r
    case 0 => case 1 => case 2 => case 3 => case 4 => case 5 => case 6 => case 7 =>
    case 8 => case 9 => case 10 => case 11 => case 12 => case 13 => case _ =>
  }

  function Row(r: nat): (row: seq<bv8>)
    requires r < 16
    ensures |row| == 16
  {
    WHITENING[r]
  }

  lemma EntryOf(i: nat)
    requires i < 256
    ensures Whitening(i) == Row(i / 16)[i % 16]
  {
  }

  lemma NextEntry(r: nat, j: nat)
    requires r < 16 && j < 16 && (r < 15 || j < 15)
    ensures NextByte(Row(r)[j]) == if j < 15 then Row(r)[j + 1] else Row(r + 1)[0]
  {
    hide NextByte, RowSteps;
    if j < 15 {
      RowOf(r);
      RowStep(WHITENING[r], j);
    } else {
      Turns(r);
    }
  }

  /** Entry i of the table is byte i of the sequence. */
  lemma {:induction false} TableIsSequence(i: nat)
    requires i < 256
    ensures Whitening(i) == Sequence(i)
  {
    hide NextByte, Row, Whitening;
    EntryOf(i);
    if i == 0 {
      FirstEntry();
    } else {
      TableIsSequence(i - 1);
      EntryOf(i - 1);
      NextEntry((i - 1) / 16, (i - 1) % 16);
      assert if (i - 1) % 16 < 15 then i / 16 == (i - 1) / 16 && i % 16 == (i - 1) % 16 + 1
          else i / 16 == (i - 1) / 16 + 1 && i % 16 == 0;
    }
  }

  lemma FirstEntry()
    ensures Row(0)[0] == 0xff
  {
  }

  /** What goes on the air: with the sequence taken away it is a code word that begins with the
      frame. */
  lemma OnAir(m: seq<bv8>)
    requires |m| <= RS_MSGLEN
    ensures var (ret, air) := FecEncoded(m);
            && ret == SKY_RET_OK && |air| == |m| + RS_PARITYS
            && var plain := seq(|air|, i requires 0 <= i < |air| => Add(air[i], Sequence(i)));
               Codeword(plain) && plain[..|m|] == m
  {
    hide NextByte, Whitening, Parity, Codeword, Sequence, Add;
    var word := m + Parity(m);
    var air := FecEncoded(m).1;
    EncodedIsCodeword(m);
    var plain := seq(|air|, i requires 0 <= i < |air| => Add(air[i], Sequence(i)));
    forall i | 0 <= i < |air| ensures plain[i] == word[i] {
      TableIsSequence(i);
      AddAssoc(word[i], Whitening(i), Whitening(i));
      AddZero(Whitening(i));
      AddZero(word[i]);
    }
    assert plain == word;
  }
}
