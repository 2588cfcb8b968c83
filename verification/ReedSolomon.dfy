/** The (255,223) Reed-Solomon code of section 4 of CCSDS 131.0-B-3, in conventional
    basis (src/ext/libfec/encode_rs.h, decode_rs.h, fixed.h). */
module ReedSolomon {
  import opened GaloisField

  const NROOTS := 32
  const FCR := 112
  const PRIM := 11

  /** CCSDS_poly: the logarithms of the coefficients of the generator polynomial */
  const GENPOLY: seq<nat> := [
    0, 249, 59, 66, 4, 43, 126, 251, 97, 30, 3, 213, 50, 66, 170, 5,
    24, 5, 170, 66, 50, 213, 3, 30, 97, 251, 126, 43, 4, 66, 59, 249,
    0]

  function Gen(k: nat): nat
    requires k <= NROOTS
  {
    GENPOLY[k]
  }

  /** A power of alpha. */
  function Pow(n: nat): bv8 {
    Times(1, n)
  }

  // ------------------------------------------------------- the roots of the generator
  //
  // With y = alpha^11, the generator g(x) is the product of all x - y^m for m from 112 to
  // 143.  It is the polynomial that satisfies
  //     g(y x) (x - y^143) = y^32 g(x) (x - y^111),
  // and this is a condition on each pair of neighbouring coefficients.

  ghost predicate SumsEqual(a: nat, b: nat, c: nat, d: nat) {
    a < NN && b < NN && c < NN && d < NN && Add(AlphaTo(a), AlphaTo(b)) == Add(AlphaTo(c), AlphaTo(d))
  }

  ghost predicate BalancedInTable(g: nat, h: nat, k: nat)
    requires k > 0
  {
    SumsEqual((g + 11 * (143 + k)) % NN, (g + 11 * 143) % NN, (h + 11 * (k - 1)) % NN, (h + 11 * 32) % NN)
  }

  ghost predicate Entry(n: nat, x: bv8) {
    n < NN && AlphaTo(n) == x
  }

  lemma Entries0()
    ensures Entry(0, 0x01) && Entry(5, 0x20) && Entry(37, 0xae) && Entry(47, 0x67)
    ensures Entry(48, 0xce) && Entry(81, 0x98) && Entry(91, 0x99) && Entry(97, 0x61)
    ensures Entry(99, 0x03) && Entry(102, 0x18) && Entry(109, 0x38) && Entry(124, 0xa1)
    ensures Entry(142, 0x22) && Entry(156, 0x82) && Entry(163, 0xfd)
  {
  }

  lemma Sums0()
    ensures SumsEqual(48, 37, 0, 97) && SumsEqual(124, 102, 5, 91) && SumsEqual(142, 109, 81, 156)
        && SumsEqual(91, 47, 99, 163)
  {
    hide AlphaTo;
    Entries0();
  }

  lemma Entries1()
    ensures Entry(39, 0x31) && Entry(48, 0xce) && Entry(73, 0x9e) && Entry(86, 0xd3)
    ensures Entry(93, 0xed) && Entry(98, 0xc2) && Entry(101, 0x0c) && Entry(116, 0xe5)
    ensures Entry(140, 0xcb) && Entry(141, 0x11) && Entry(169, 0x96) && Entry(192, 0xb0)
    ensures Entry(223, 0x64) && Entry(228, 0xb8) && Entry(235, 0x9f)
  {
  }

  lemma Sums1()
    ensures SumsEqual(141, 86, 48, 101) && SumsEqual(235, 169, 98, 140) && SumsEqual(116, 39, 192, 223)
        && SumsEqual(228, 140, 73, 93)
  {
    hide AlphaTo;
    Entries1();
  }

  lemma Entries2()
    ensures Entry(1, 0x02) && Entry(46, 0xf0) && Entry(55, 0xdc) && Entry(73, 0x9e)
    ensures Entry(79, 0x26) && Entry(93, 0xed) && Entry(100, 0x06) && Entry(113, 0x8e)
    ensures Entry(122, 0x8a) && Entry(127, 0x1a) && Entry(129, 0x68) && Entry(156, 0x82)
    ensures Entry(172, 0x25) && Entry(185, 0xf2) && Entry(194, 0x49) && Entry(225, 0x17)
  {
  }

  lemma Sums2()
    ensures SumsEqual(172, 73, 185, 194) && SumsEqual(156, 46, 129, 127) && SumsEqual(122, 1, 113, 100)
        && SumsEqual(225, 93, 79, 55)
  {
    hide AlphaTo;
    Entries2();
  }

  lemma Entries3()
    ensures Entry(12, 0xdd) && Entry(48, 0xce) && Entry(67, 0xac) && Entry(69, 0x39)
    ensures Entry(102, 0x18) && Entry(109, 0x38) && Entry(112, 0x47) && Entry(147, 0xd5)
    ensures Entry(163, 0xfd) && Entry(170, 0xab) && Entry(182, 0xbc) && Entry(209, 0x90)
    ensures Entry(213, 0x2a) && Entry(243, 0x1f) && Entry(252, 0x51)
  {
  }

  lemma Sums3()
    ensures SumsEqual(252, 109, 182, 147) && SumsEqual(112, 213, 209, 163) && SumsEqual(213, 48, 69, 12)
        && SumsEqual(243, 67, 170, 102)
  {
    hide AlphaTo;
    Entries3();
  }

  lemma Entries4()
    ensures Entry(12, 0xdd) && Entry(20, 0xec) && Entry(48, 0xce) && Entry(58, 0xfc)
    ensures Entry(63, 0x6b) && Entry(93, 0xed) && Entry(102, 0x18) && Entry(109, 0x38)
    ensures Entry(113, 0x8e) && Entry(121, 0x45) && Entry(156, 0x82) && Entry(163, 0xfd)
    ensures Entry(192, 0xb0) && Entry(200, 0x14) && Entry(213, 0x2a) && Entry(235, 0x9f)
  {
  }

  lemma Sums4()
    ensures SumsEqual(235, 48, 200, 121) && SumsEqual(156, 213, 192, 102) && SumsEqual(63, 109, 113, 12)
        && SumsEqual(58, 93, 20, 163)
  {
    hide AlphaTo;
    Entries4();
  }

  lemma Entries5()
    ensures Entry(1, 0x02) && Entry(15, 0xf4) && Entry(28, 0x8b) && Entry(33, 0x3a)
    ensures Entry(46, 0xf0) && Entry(55, 0xdc) && Entry(71, 0xe4) && Entry(73, 0x9e)
    ensures Entry(100, 0x06) && Entry(127, 0x1a) && Entry(140, 0xcb) && Entry(147, 0xd5)
    ensures Entry(149, 0x5a) && Entry(189, 0x16) && Entry(232, 0x23) && Entry(245, 0x7c)
  {
  }

  lemma Sums5()
    ensures SumsEqual(232, 1, 15, 147) && SumsEqual(33, 46, 189, 55) && SumsEqual(71, 73, 245, 100)
        && SumsEqual(149, 140, 28, 127)
  {
    hide AlphaTo;
    Entries5();
  }

  lemma Entries6()
    ensures Entry(16, 0x6f) && Entry(39, 0x31) && Entry(47, 0x67) && Entry(59, 0x7f)
    ensures Entry(85, 0xaa) && Entry(86, 0xd3) && Entry(93, 0xed) && Entry(100, 0x06)
    ensures Entry(106, 0x07) && Entry(128, 0x34) && Entry(140, 0xcb) && Entry(157, 0x83)
    ensures Entry(169, 0x96) && Entry(194, 0x49) && Entry(200, 0x14) && Entry(223, 0x64)
  {
  }

  lemma Sums6()
    ensures SumsEqual(59, 39, 106, 194) && SumsEqual(200, 169, 16, 93) && SumsEqual(128, 86, 157, 223)
        && SumsEqual(100, 47, 85, 140)
  {
    hide AlphaTo;
    Entries6();
  }

  lemma Entries7()
    ensures Entry(37, 0xae) && Entry(43, 0x1e) && Entry(57, 0x7e) && Entry(80, 0x4c)
    ensures Entry(91, 0x99) && Entry(101, 0x0c) && Entry(102, 0x18) && Entry(109, 0x38)
    ensures Entry(123, 0x93) && Entry(130, 0xd0) && Entry(134, 0xbf) && Entry(140, 0xcb)
    ensures Entry(156, 0x82) && Entry(163, 0xfd) && Entry(173, 0x4a) && Entry(177, 0x35)
  {
  }

  lemma Sums7()
    ensures SumsEqual(173, 109, 57, 101) && SumsEqual(177, 102, 130, 163) && SumsEqual(123, 37, 134, 156)
        && SumsEqual(140, 43, 80, 91)
  {
    hide AlphaTo;
    Entries7();
  }

  lemma Balanced0(k: nat)
    requires 1 <= k < 5
    ensures BalancedInTable(GENPOLY[k], GENPOLY[k - 1], k)
  {
    hide SumsEqual;
    Sums0();
    assert GENPOLY[0] == 0 && GENPOLY[1] == 249 && GENPOLY[2] == 59 && GENPOLY[3] == 66 && GENPOLY[4] == 4;
  }

  lemma Balanced1(k: nat)
    requires 5 <= k < 9
    ensures BalancedInTable(GENPOLY[k], GENPOLY[k - 1], k)
  {
    hide SumsEqual;
    Sums1();
    assert GENPOLY[4] == 4 && GENPOLY[5] == 43 && GENPOLY[6] == 126 && GENPOLY[7] == 251 && GENPOLY[8] == 97;
  }

  lemma Balanced2(k: nat)
    requires 9 <= k < 13
    ensures BalancedInTable(GENPOLY[k], GENPOLY[k - 1], k)
  {
    hide SumsEqual;
    Sums2();
    assert GENPOLY[8] == 97 && GENPOLY[9] == 30 && GENPOLY[10] == 3 && GENPOLY[11] == 213 && GENPOLY[12] == 50;
  }

  lemma Balanced3(k: nat)
    requires 13 <= k < 17
    ensures BalancedInTable(GENPOLY[k], GENPOLY[k - 1], k)
  {
    hide SumsEqual;
    Sums3();
    assert GENPOLY[12] == 50 && GENPOLY[13] == 66 && GENPOLY[14] == 170 && GENPOLY[15] == 5 && GENPOLY[16] == 24;
  }

  lemma Balanced4(k: nat)
    requires 17 <= k < 21
    ensures BalancedInTable(GENPOLY[k], GENPOLY[k - 1], k)
  {
    hide SumsEqual;
    Sums4();
    assert GENPOLY[16] == 24 && GENPOLY[17] == 5 && GENPOLY[18] == 170 && GENPOLY[19] == 66 && GENPOLY[20] == 50;
  }

  lemma Balanced5(k: nat)
    requires 21 <= k < 25
    ensures BalancedInTable(GENPOLY[k], GENPOLY[k - 1], k)
  {
    hide SumsEqual;
    Sums5();
    assert GENPOLY[20] == 50 && GENPOLY[21] == 213 && GENPOLY[22] == 3 && GENPOLY[23] == 30 && GENPOLY[24] == 97;
  }

  lemma Balanced6(k: nat)
    requires 25 <= k < 29
    ensures BalancedInTable(GENPOLY[k], GENPOLY[k - 1], k)
  {
    hide SumsEqual;
    Sums6();
    assert GENPOLY[24] == 97 && GENPOLY[25] == 251 && GENPOLY[26] == 126 && GENPOLY[27] == 43 && GENPOLY[28] == 4;
  }

  lemma Balanced7(k: nat)
    requires 29 <= k < 33
    ensures BalancedInTable(GENPOLY[k], GENPOLY[k - 1], k)
  {
    hide SumsEqual;
    Sums7();
    assert GENPOLY[28] == 4 && GENPOLY[29] == 66 && GENPOLY[30] == 59 && GENPOLY[31] == 249 && GENPOLY[32] == 0;
  }

  ghost predicate Balanced(k: nat)
    requires 0 < k <= NROOTS
  {
    Add(Pow(Gen(k) + 11 * (143 + k)), Pow(Gen(k) + 11 * 143))
    == Add(Pow(Gen(k - 1) + 11 * (k - 1)), Pow(Gen(k - 1) + 11 * 32))
  }

  lemma PowInTable(n: nat)
    ensures Pow(n) == AlphaTo(n % NN)
  {
    hide Times, AlphaTo;
    TimesModulo(1, n);
    AlphaIsPower(n % NN);
  }

  lemma Neighbours(k: nat)
    requires 0 < k <= NROOTS
    ensures Balanced(k)
  {
    hide Gen, AlphaTo, Pow, Add;
    var g, h := Gen(k), Gen(k - 1);
    assert BalancedInTable(g, h, k) by { NeighboursInTable(k); }
    PowInTable(g + 11 * (143 + k));
    PowInTable(g + 11 * 143);
    PowInTable(h + 11 * (k - 1));
    PowInTable(h + 11 * 32);
  }

  lemma NeighboursInTable(k: nat)
    requires 0 < k <= NROOTS
    ensures BalancedInTable(Gen(k), Gen(k - 1), k)
  {
    hide BalancedInTable;
    match (k - 1) / 4
    case 0 => Balanced0(k);
    case 1 => Balanced1(k);
    case 2 => Balanced2(k);
    case 3 => Balanced3(k);
    case 4 => Balanced4(k);
    case 5 => Balanced5(k);
    case 6 => Balanced6(k);
    case _ => Balanced7(k);
  }

  /** alpha^11 is primitive, too: 11 * 116 is 1 modulo 255. */
  lemma PowNotOne(j: nat)
    requires 0 < j < NN
    ensures Pow(11 * j) != 1
  {
    hide Times;
    if Pow(11 * j) == 1 {
      OneOnlyAtPeriod(11 * j);
    }
  }

  // ------------------------------------------------- from the coefficients to the roots

  /** The exponent of (alpha^e)^k. */
  function Exponent(e: nat, k: nat): nat {
    e * k
  }

  /** The first n terms of the generator polynomial at alpha^e. */
  function GenSum(e: nat, n: nat): bv8
    requires n <= NROOTS + 1
    decreases n
  {
    if n == 0 then 0 else Add(GenSum(e, n - 1), Pow(Gen(n - 1) + Exponent(e, n - 1)))
  }

  lemma TimesPow(a: nat, k: nat)
    ensures Times(Pow(a), k) == Pow(a + k)
  {
    TimesAdd(1, a, k);
  }

  /** The difference of the two sides of the equation at x = y^m, where a stands for g(y x)
      and b for g(x). */
  function Difference(m: nat, a: bv8, b: bv8): bv8 {
    Add(Add(Times(a, 11 * m), Times(a, 11 * 143)), Add(Times(b, 11 * (m + 32)), Times(b, 11 * 143)))
  }

  /** What the first n terms leave over: coefficient g of the term before times
      (y^(n-1) + y^32) x^n. */
  function LeftOver(m: nat, g: nat, n: nat): bv8
    requires n > 0
  {
    Add(Pow(g + 11 * (n - 1) + 11 * m * n), Pow(g + 11 * 32 + 11 * m * n))
  }

  lemma DifferenceLinear(m: nat, a: bv8, b: bv8, p: bv8, q: bv8)
    ensures Difference(m, Add(a, p), Add(b, q)) == Add(Difference(m, a, b), Difference(m, p, q))
  {
    hide Add, Times;
    var c, d := 11 * 143, 11 * (m + 32);
    TimesLinear(a, p, 11 * m);
    TimesLinear(a, p, c);
    TimesLinear(b, q, d);
    TimesLinear(b, q, c);
    AddSwap(Times(a, 11 * m), Times(p, 11 * m), Times(a, c), Times(p, c));
    AddSwap(Times(b, d), Times(q, d), Times(b, c), Times(q, c));
    AddSwap(Add(Times(a, 11 * m), Times(a, c)), Add(Times(p, 11 * m), Times(p, c)),
            Add(Times(b, d), Times(b, c)), Add(Times(q, d), Times(q, c)));
  }

  /** What the next term adds: a new left-over, and a balance against the old one. */
  lemma NextTerm(m: nat, g: nat, n: nat)
    ensures Difference(m, Pow(g + 11 * (m + 1) * n), Pow(g + 11 * m * n))
            == Add(LeftOver(m, g, n + 1), Times(Add(Pow(g + 11 * (143 + n)), Pow(g + 11 * 143)), 11 * m * n))
  {
    hide Gen, Pow, Add, Times;
    var x := 11 * m * n;
    assert 11 * (m + 1) * n == x + 11 * n && 11 * m * (n + 1) == x + 11 * m;
    TimesPow(g + 11 * (m + 1) * n, 11 * m);
    TimesPow(g + 11 * (m + 1) * n, 11 * 143);
    TimesPow(g + x, 11 * (m + 32));
    TimesPow(g + x, 11 * 143);
    TimesLinear(Pow(g + 11 * (143 + n)), Pow(g + 11 * 143), x);
    TimesPow(g + 11 * (143 + n), x);
    TimesPow(g + 11 * 143, x);
    AddSwap(Pow(g + 11 * n + x + 11 * m), Pow(g + 11 * (143 + n) + x), Pow(g + 11 * 32 + x + 11 * m),
        Pow(g + 11 * 143 + x));
  }

  lemma OldLeftOver(m: nat, n: nat)
    requires 0 < n <= NROOTS
    ensures LeftOver(m, Gen(n - 1), n)
            == Times(Add(Pow(Gen(n) + 11 * (143 + n)), Pow(Gen(n) + 11 * 143)), 11 * m * n)
  {
    hide Gen, Pow, Add, Times;
    Neighbours(n);
    var h := Gen(n - 1);
    TimesLinear(Pow(h + 11 * (n - 1)), Pow(h + 11 * 32), 11 * m * n);
    TimesPow(h + 11 * (n - 1), 11 * m * n);
    TimesPow(h + 11 * 32, 11 * m * n);
  }

  lemma {:induction false} Telescoped(m: nat, n: nat)
    requires 0 < n <= NROOTS + 1
    ensures Difference(m, GenSum(11 * (m + 1), n), GenSum(11 * m, n)) == LeftOver(m, Gen(n - 1), n)
    decreases n
  {
    hide Gen, Pow, Add, Times, Difference, LeftOver, Exponent;
    var k := n - 1;
    var g := Gen(k);
    var a, b := GenSum(11 * (m + 1), k), GenSum(11 * m, k);
    DifferenceLinear(m, a, b, Pow(g + Exponent(11 * (m + 1), k)), Pow(g + Exponent(11 * m, k)));
    if k > 0 { Telescoped(m, k); }
    TermAdds(m, k, Difference(m, a, b));
  }

  lemma TermAdds(m: nat, k: nat, before: bv8)
    requires k <= NROOTS && (if k == 0 then before == Difference(m, 0, 0) else before == LeftOver(m, Gen(k - 1), k))
    ensures Add(before, Difference(m, Pow(Gen(k) + Exponent(11 * (m + 1), k)), Pow(Gen(k) + Exponent(11 * m, k))))
            == LeftOver(m, Gen(k), k + 1)
  {
    hide Gen, Pow, Add, Times, Difference, LeftOver;
    var g := Gen(k);
    NextTerm(m, g, k);
    var new_, old_ := LeftOver(m, g, k + 1), Times(Add(Pow(g + 11 * (143 + k)), Pow(g + 11 * 143)), 11 * m * k);
    if k > 0 {
      OldLeftOver(m, k);
      AddComm(new_, old_);
      AddAssoc(old_, old_, new_);
      AddZero(old_);
      AddZero(new_);
    } else {
      FirstTerm(m, new_, old_);
    }
  }

  lemma FirstTerm(m: nat, x: bv8, y: bv8)
    requires y == Times(Add(Pow(Gen(0) + 11 * 143), Pow(Gen(0) + 11 * 143)), 0)
    ensures Difference(m, 0, 0) == 0 && Add(0, Add(x, y)) == x
  {
    hide Pow, Add;
    TimesZero(11 * m);
    TimesZero(11 * 143);
    TimesZero(11 * (m + 32));
    AddZero(0);
    AddZero(Pow(Gen(0) + 11 * 143));
    AddZero(x);
  }

  /** The equation holds at every power of y. */
  lemma Equation(m: nat)
    ensures Difference(m, GenSum(11 * (m + 1), 33), GenSum(11 * m, 33)) == 0
  {
    hide Gen, Pow, Add, Times, Difference;
    Telescoped(m, 33);
    AddZero(Pow(Gen(32) + 11 * 32 + 11 * m * 33));
  }

  /** Hence a root at y^(m+1), or m being 143, makes y^m a root, down to m = 112. */
  lemma RootBelow(m: nat)
    requires 112 <= m <= 143 && (m == 143 || GenSum(11 * (m + 1), 33) == 0)
    ensures GenSum(11 * m, 33) == 0
  {
    hide Gen, Pow, Add, Times, GenSum, IndexOf;
    var a, b := GenSum(11 * (m + 1), 33), GenSum(11 * m, 33);
    Equation(m);
    TimesZero(11 * m);
    TimesZero(11 * 143);
    AddZero(Times(a, 11 * m));
    AddZero(0);
    AddZero(Add(Times(b, 11 * (m + 32)), Times(b, 11 * 143)));
    AddEqual(Times(b, 11 * (m + 32)), Times(b, 11 * 143));
    if b != 0 {
      IndexIsLog(b);
      SamePower(IndexOf(b), 11 * 143, 11 * (m - 111));
      PowNotOne(m - 111);
    }
  }

  lemma SamePower(b: nat, c: nat, d: nat)
    requires Times(Times(1, b), c + d) == Times(Times(1, b), c)
    ensures Pow(d) == 1
  {
    hide Times;
    TimesAdd(1, b, c + d);
    TimesAdd(1, b, c);
    TimesAdd(1, d, b + c);
    TimesInjective(Times(1, d), 1, b + c);
  }

  lemma {:induction false} RootsFrom(m: nat)
    requires 112 <= m <= 143
    ensures GenSum(11 * m, 33) == 0
    decreases 143 - m
  {
    hide GenSum;
    if m < 143 { RootsFrom(m + 1); }
    RootBelow(m);
  }

  /** The exponent of the i-th root. */
  function Root(i: nat): nat {
    (FCR + i) * PRIM
  }

  /** The tabulated polynomial vanishes at all 32 roots. */
  lemma GeneratorRoots(i: nat)
    requires i < NROOTS
    ensures GenSum(Root(i), NROOTS + 1) == 0
  {
    hide GenSum;
    RootsFrom(FCR + i);
  }
}
