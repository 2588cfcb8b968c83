/** Encoding and syndrome computation (src/ext/libfec/encode_rs.h, decode_rs.h:81-108). */
module RsCodec {
  import opened GaloisField
  import opened ReedSolomon

  // ------------------------------------------------------------------------ polynomials

  /** A word as a polynomial, highest coefficient first, evaluated at alpha^e by Horner's
      rule starting from acc. */
  function Horner(acc: bv8, w: seq<bv8>, e: nat): bv8
    decreases |w|
  {
    if w == [] then acc else Horner(Add(Times(acc, e), w[0]), w[1..], e)
  }

  function Syndrome(w: seq<bv8>, i: nat): bv8 {
    Horner(0, w, Root(i))
  }

  /** A code word is a multiple of the generator: it vanishes at all its roots. */
  ghost predicate Codeword(w: seq<bv8>) {
    forall i :: 0 <= i < NROOTS ==> Syndrome(w, i) == 0
  }

  function Sum(v: seq<bv8>, w: seq<bv8>): (s: seq<bv8>)
    requires |v| == |w|
    ensures |s| == |v|
  {
    seq(|v|, k requires 0 <= k < |v| => Add(v[k], w[k]))
  }

  lemma ExponentStep(e: nat, k: nat)
    ensures Exponent(e, k + 1) == e + Exponent(e, k) && Exponent(e, 0) == 0 && Exponent(e, 1) == e
  {
  }

  lemma HornerZero(w: seq<bv8>, e: nat)
    requires w != []
    ensures Horner(0, w, e) == Horner(w[0], w[1..], e)
  {
    hide Add, Times;
    TimesZero(e);
    AddZero(w[0]);
  }

  /** The start value is multiplied by one power per symbol. */
  lemma {:induction false} HornerStart(acc: bv8, w: seq<bv8>, e: nat)
    ensures Horner(acc, w, e) == Add(Times(acc, Exponent(e, |w|)), Horner(0, w, e))
    decreases |w|
  {
    hide Add, Times, Exponent;
    if w == [] {
      ExponentStep(e, 0);
      TimesAdd(acc, 0, 0);
      AddZero(acc);
      TimesNone(acc);
    } else {
      var k := |w| - 1;
      var rest := w[1..];
      ExponentStep(e, k);
      HornerStart(Add(Times(acc, e), w[0]), rest, e);
      HornerZero(w, e);
      HornerStart(w[0], rest, e);
      TimesLinear(Times(acc, e), w[0], Exponent(e, k));
      TimesAdd(acc, e, Exponent(e, k));
      AddAssoc(Times(acc, Exponent(e, k + 1)), Times(w[0], Exponent(e, k)), Horner(0, rest, e));
    }
  }

  lemma TimesNone(x: bv8)
    ensures Times(x, 0) == x
  {
  }

  lemma {:induction false} HornerAppend(acc: bv8, v: seq<bv8>, w: seq<bv8>, e: nat)
    ensures Horner(acc, v + w, e) == Horner(Horner(acc, v, e), w, e)
    decreases |v|
  {
    hide Add, Times;
    if v == [] {
      assert v + w == w;
    } else {
      assert (v + w)[1..] == v[1..] + w;
      HornerAppend(Add(Times(acc, e), v[0]), v[1..], w, e);
    }
  }

  lemma {:induction false} HornerSum(a: bv8, b: bv8, v: seq<bv8>, w: seq<bv8>, e: nat)
    requires |v| == |w|
    ensures Horner(Add(a, b), Sum(v, w), e) == Add(Horner(a, v, e), Horner(b, w, e))
    decreases |v|
  {
    hide Add, Times;
    if v != [] {
      assert Sum(v, w)[1..] == Sum(v[1..], w[1..]);
      TimesLinear(a, b, e);
      AddSwap(Times(a, e), Times(b, e), v[0], w[0]);
      HornerSum(Add(Times(a, e), v[0]), Add(Times(b, e), w[0]), v[1..], w[1..], e);
    }
  }

  // ----------------------------------------------------------------- the shift register

  /** The k lowest coefficients of f times the generator, highest first. */
  function Coefficients(f: bv8, k: nat): (c: seq<bv8>)
    requires k <= NROOTS
    ensures |c| == k
  {
    seq(k, j requires 0 <= j < k => Times(f, Gen(k - 1 - j)))
  }

  /** One turn of the encoder's loop. */
  function Step(p: seq<bv8>, d: bv8): (q: seq<bv8>)
    requires |p| == NROOTS
    ensures |q| == NROOTS
  {
    Sum(p[1..] + [0], Coefficients(Add(d, p[0]), NROOTS))
  }

  function Zeros(n: nat): seq<bv8> {
    seq(n, _ => 0)
  }

  function Parity(data: seq<bv8>): (p: seq<bv8>)
    ensures |p| == NROOTS
  {
    if data == [] then Zeros(NROOTS) else Step(Parity(data[..|data| - 1]), data[|data| - 1])
  }

  lemma CoefficientsTail(f: bv8, k: nat)
    requires 0 < k <= NROOTS
    ensures Coefficients(f, k)[0] == Times(f, Gen(k - 1)) && Coefficients(f, k)[1..] == Coefficients(f, k - 1)
  {
    hide Times, Gen;
  }

  /** f = alpha^n times the generator, without its highest term, evaluated. */
  lemma {:induction false} CoefficientsValue(acc: bv8, n: nat, k: nat, e: nat)
    requires k <= NROOTS
    ensures Horner(acc, Coefficients(Pow(n), k), e) == Add(Times(acc, Exponent(e, k)), Times(GenSum(e, k), n))
    decreases k
  {
    hide Add, Times, Gen, Pow, Coefficients, Exponent;
    if k == 0 {
      ExponentStep(e, 0);
      TimesNone(acc);
      TimesZero(n);
      AddZero(acc);
    } else {
      var f, g, x := Pow(n), Gen(k - 1), Exponent(e, k - 1);
      CoefficientsTail(f, k);
      CoefficientsValue(Add(Times(acc, e), Times(f, g)), n, k - 1, e);
      ExponentStep(e, k - 1);
      TimesLinear(Times(acc, e), Times(f, g), x);
      TimesAdd(acc, e, x);
      TimesAdd(f, g, x);
      TimesPow(n, g + x);
      TimesPow(g + x, n);
      var s := GenSum(e, k - 1);
      TimesLinear(s, Pow(g + x), n);
      var a, b, c := Times(acc, Exponent(e, k)), Pow(n + g + x), Times(s, n);
      AddAssoc(a, b, c);
      AddComm(b, c);
    }
  }

  /** At a root the highest term makes up for all others. */
  lemma FeedbackValue(f: bv8, e: nat)
    requires GenSum(e, NROOTS + 1) == 0
    ensures Horner(0, Coefficients(f, NROOTS), e) == Times(f, Exponent(e, NROOTS))
  {
    hide Add, Times, Pow, Coefficients, Exponent, GenSum, IndexOf, Horner;
    var x := Exponent(e, NROOTS);
    TimesZero(x);
    if f == 0 {
      ZeroCoefficients();
      HornerZeros(NROOTS, e);
    } else {
      IndexIsLog(f);
      var n := IndexOf(f);
      assert f == Pow(n) by { PowIs(n); }
      CoefficientsValue(0, n, NROOTS, e);
      HighestTerm(e);
      TimesPow(x, n);
      TimesPow(n, x);
      AddZero(Pow(n + x));
    }
  }

  lemma PowIs(n: nat)
    ensures Pow(n) == Times(1, n)
  {
  }

  lemma HighestTerm(e: nat)
    requires GenSum(e, NROOTS + 1) == 0
    ensures GenSum(e, NROOTS) == Pow(Exponent(e, NROOTS))
  {
    hide Add, Pow, Exponent;
    AddEqual(GenSum(e, NROOTS), Pow(Exponent(e, NROOTS)));
  }

  lemma ZeroCoefficients()
    ensures Coefficients(0, NROOTS) == Zeros(NROOTS)
  {
    hide Times;
    forall j | 0 <= j < NROOTS ensures Coefficients(0, NROOTS)[j] == 0 { TimesZero(Gen(NROOTS - 1 - j)); }
  }

  lemma {:induction false} HornerZeros(n: nat, e: nat)
    ensures Horner(0, Zeros(n), e) == 0
    decreases n
  {
    hide Add, Times;
    if n > 0 {
      TimesZero(e);
      AddZero(0);
      assert Zeros(n)[1..] == Zeros(n - 1);
      HornerZeros(n - 1, e);
    }
  }

  /** One turn multiplies by the root's x and adds d x^32, as reduction modulo the generator
      must. */
  lemma StepValue(p: seq<bv8>, d: bv8, e: nat)
    requires |p| == NROOTS && GenSum(e, NROOTS + 1) == 0
    ensures Horner(0, Step(p, d), e) == Add(Times(Horner(0, p, e), e), Times(d, Exponent(e, NROOTS)))
  {
    hide Add, Times, Coefficients, Exponent, GenSum, Horner, Sum;
    var f, rest, x := Add(d, p[0]), p[1..], Exponent(e, NROOTS);
    FeedbackValue(f, e);
    AddZero(0);
    HornerSum(0, 0, rest + [0], Coefficients(f, NROOTS), e);
    ShiftValue(rest, e);
    HornerZero(p, e);
    HornerStart(p[0], rest, e);
    ExponentStep(e, NROOTS - 1);
    var h := Horner(0, rest, e);
    TimesLinear(Times(p[0], Exponent(e, NROOTS - 1)), h, e);
    TimesAdd(p[0], Exponent(e, NROOTS - 1), e);
    TimesLinear(d, p[0], x);
    var s, t, u := Times(h, e), Times(d, x), Times(p[0], x);
    AddComm(t, u);
    AddAssoc(s, u, t);
    AddComm(s, u);
  }

  lemma ShiftValue(rest: seq<bv8>, e: nat)
    ensures Horner(0, rest + [0], e) == Times(Horner(0, rest, e), e)
  {
    hide Add, Times;
    HornerAppend(0, rest, [0], e);
    AddZero(Times(Horner(0, rest, e), e));
    var h := Horner(0, rest, e);
    assert Horner(h, [0], e) == Horner(Add(Times(h, e), 0), [], e);
  }

  /** The register always holds the message, times x^32, reduced. */
  lemma {:induction false} ParityValue(data: seq<bv8>, e: nat)
    requires GenSum(e, NROOTS + 1) == 0
    ensures Horner(0, Parity(data), e) == Times(Horner(0, data, e), Exponent(e, NROOTS))
  {
    hide Add, Times, Exponent, GenSum, Step;
    var x := Exponent(e, NROOTS);
    if data == [] {
      HornerZeros(NROOTS, e);
      TimesZero(x);
    } else {
      var n := |data| - 1;
      var before, d := data[..n], data[n];
      ParityValue(before, e);
      StepValue(Parity(before), d, e);
      assert data == before + [d];
      HornerAppend(0, before, [d], e);
      var h := Horner(0, before, e);
      assert Horner(h, [d], e) == Horner(Add(Times(h, e), d), [], e);
      TimesLinear(Times(h, e), d, x);
      TimesAdd(h, e, x);
      TimesAdd(h, x, e);
    }
  }

  /** Every message followed by its parity is a code word: all 32 syndromes are zero. */
  lemma EncodedIsCodeword(data: seq<bv8>)
    ensures Codeword(data + Parity(data))
  {
    hide Add, Times, Exponent, GenSum, Parity, Horner, Root;
    forall i | 0 <= i < NROOTS ensures Syndrome(data + Parity(data), i) == 0 {
      var e := Root(i);
      GeneratorRoots(i);
      ParityValue(data, e);
      HornerAppend(0, data, Parity(data), e);
      HornerStart(Horner(0, data, e), Parity(data), e);
      AddZero(Horner(0, Parity(data), e));
    }
  }

  // ------------------------------------------------------- code words are the encodings

  /** The symbols of w times alpha^e. */
  function Scale(w: seq<bv8>, e: nat): (s: seq<bv8>)
    ensures |s| == |w|
  {
    seq(|w|, k requires 0 <= k < |w| => Times(w[k], e))
  }

  lemma {:induction false} HornerScale(acc: bv8, w: seq<bv8>, d: nat, e: nat)
    ensures Horner(Times(acc, d), Scale(w, d), e) == Times(Horner(acc, w, e), d)
    decreases |w|
  {
    hide Add, Times;
    if w != [] {
      assert Scale(w, d)[1..] == Scale(w[1..], d);
      TimesLinear(Times(acc, e), w[0], d);
      TimesAdd(acc, e, d);
      TimesAdd(acc, d, e);
      HornerScale(Add(Times(acc, e), w[0]), w[1..], d, e);
    }
  }

  /** The quotient of w by x - alpha^e: the values Horner's rule passes through. */
  function Quotient(w: seq<bv8>, e: nat): (q: seq<bv8>)
    requires w != []
    ensures |q| == |w| - 1
  {
    seq(|w| - 1, k requires 0 <= k < |w| - 1 => Horner(0, w[..k + 1], e))
  }

  lemma HornerPrefix(w: seq<bv8>, k: nat, e: nat)
    requires k < |w|
    ensures Horner(0, w[..k + 1], e) == Add(Times(Horner(0, w[..k], e), e), w[k])
  {
    hide Add, Times;
    assert w[..k + 1] == w[..k] + [w[k]];
    HornerAppend(0, w[..k], [w[k]], e);
    var h := Horner(0, w[..k], e);
    assert Horner(h, [w[k]], e) == Horner(Add(Times(h, e), w[k]), [], e);
  }

  /** Multiplying the quotient by x - alpha^e gives w back if alpha^e is a root. */
  lemma Division(w: seq<bv8>, e: nat)
    requires w != [] && Horner(0, w, e) == 0
    ensures var q := Quotient(w, e); w == Sum(q + [0], [0] + Scale(q, e))
  {
    hide Add, Times, Horner;
    var q := Quotient(w, e);
    forall k | 0 <= k < |w| ensures w[k] == Sum(q + [0], [0] + Scale(q, e))[k] {
      HornerPrefix(w, k, e);
      assert w[..|w|] == w;
      var h := Horner(0, w[..k], e);
      assert (q + [0])[k] == Add(Times(h, e), w[k]);
      assert ([0] + Scale(q, e))[k] == Times(h, e) by {
        if k == 0 {
          NoSymbols(e);
          TimesZero(e);
        }
      }
      AddComm(Times(h, e), w[k]);
      AddAssoc(w[k], Times(h, e), Times(h, e));
      AddZero(Times(h, e));
      AddZero(w[k]);
    }
  }

  lemma NoSymbols(e: nat)
    ensures Horner(0, [], e) == 0
  {
  }

  /** At another root the quotient must vanish too. */
  lemma QuotientRoot(w: seq<bv8>, i: nat, j: nat)
    requires w != [] && i < j < NROOTS && Syndrome(w, i) == 0 && Syndrome(w, j) == 0
    ensures Syndrome(Quotient(w, Root(i)), j) == 0
  {
    hide Add, Times, Horner, IndexOf, Scale, Sum, Pow;
    var d, e := Root(i), Root(j);
    var q := Quotient(w, d);
    var h := Horner(0, q, e);
    Division(w, d);
    AddZero(0);
    HornerSum(0, 0, q + [0], [0] + Scale(q, d), e);
    ShiftValue(q, e);
    HornerZero([0] + Scale(q, d), e);
    assert ([0] + Scale(q, d))[1..] == Scale(q, d);
    TimesZero(d);
    HornerScale(0, q, d, e);
    AddEqual(Times(h, e), Times(h, d));
    if h != 0 {
      IndexIsLog(h);
      RootGap(i, j);
      SamePower(IndexOf(h), d, PRIM * (j - i));
      PowNotOne(j - i);
    }
  }

  lemma RootGap(i: nat, j: nat)
    requires i < j
    ensures Root(j) == Root(i) + PRIM * (j - i)
  {
  }

  /** A polynomial with as many of the roots as it has coefficients is zero. */
  lemma {:induction false} OnlyZero(w: seq<bv8>, i: nat)
    requires i + |w| <= NROOTS
    requires forall j :: i <= j < i + |w| ==> Syndrome(w, j) == 0
    ensures w == Zeros(|w|)
    decreases |w|
  {
    hide Add, Times, Horner, Scale, Sum, Root, Quotient;
    if w != [] {
      var q := Quotient(w, Root(i));
      forall j | i + 1 <= j < i + 1 + |q| ensures Syndrome(q, j) == 0 { QuotientRoot(w, i, j); }
      OnlyZero(q, i + 1);
      assert Syndrome(w, i) == 0;
      Division(w, Root(i));
      ZeroProduct(q, Root(i));
    }
  }

  lemma ZeroProduct(q: seq<bv8>, e: nat)
    requires q == Zeros(|q|)
    ensures Sum(q + [0], [0] + Scale(q, e)) == Zeros(|q| + 1)
  {
    hide Add, Times;
    TimesZero(e);
    AddZero(0);
  }

  /** The decoder finds no error exactly in the words the encoder produces. */
  lemma CodewordIffEncoded(data: seq<bv8>, p: seq<bv8>)
    requires |p| == NROOTS
    ensures Codeword(data + p) <==> p == Parity(data)
  {
    hide Add, Times, Horner, Root, Parity, Sum, Exponent;
    EncodedIsCodeword(data);
    if Codeword(data + p) {
      var q := Parity(data);
      forall i | 0 <= i < NROOTS ensures Syndrome(Sum(p, q), i) == 0 {
        var e := Root(i);
        assert Syndrome(data + p, i) == 0 && Syndrome(data + q, i) == 0;
        HornerAppend(0, data, p, e);
        HornerAppend(0, data, q, e);
        HornerStart(Horner(0, data, e), p, e);
        HornerStart(Horner(0, data, e), q, e);
        AddEqual(Times(Horner(0, data, e), Exponent(e, NROOTS)), Horner(0, p, e));
        AddEqual(Times(Horner(0, data, e), Exponent(e, NROOTS)), Horner(0, q, e));
        AddZero(0);
        HornerSum(0, 0, p, q, e);
        AddZero(Horner(0, p, e));
      }
      OnlyZero(Sum(p, q), 0);
      SumZero(p, q);
    }
  }

  lemma SumZero(p: seq<bv8>, q: seq<bv8>)
    requires |p| == |q| && Sum(p, q) == Zeros(|p|)
    ensures p == q
  {
    hide Add;
    forall k | 0 <= k < |p| ensures p[k] == q[k] {
      assert Sum(p, q)[k] == 0;
      AddEqual(p[k], q[k]);
    }
  }
}
