/** The minimum distance of the code: code words of up to 255 symbols that differ at all
    differ in at least 33 of them. */
module RsDistance {
  import opened GaloisField
  import opened ReedSolomon
  import opened RsCodec

  /** A term of a sparse polynomial: its coefficient and its degree. */
  datatype Term = Term(value: bv8, degree: nat)

  /** The polynomial at (alpha^11)^m. */
  function Value(ts: seq<Term>, m: nat): bv8
    decreases |ts|
  {
    if ts == [] then 0 else Add(At(ts[0], m), Value(ts[1..], m))
  }

  function At(t: Term, m: nat): bv8 {
    Times(t.value, Exponent(PRIM * m, t.degree))
  }

  ghost predicate DistinctDegrees(ts: seq<Term>) {
    && (forall k :: 0 <= k < |ts| ==> ts[k].degree < NN)
    && (forall j, k :: 0 <= j < k < |ts| ==> ts[j].degree != ts[k].degree)
  }

  // ------------------------------------------------------- eliminating one term at a time

  /** The sum at y^(m+1) plus y^q times the sum at y^m has no term of degree q. */
  function Reduced(t: Term, q: nat): Term {
    t.(value := Add(Times(t.value, PRIM * t.degree), Times(t.value, PRIM * q)))
  }

  function AllReduced(ts: seq<Term>, q: nat): (r: seq<Term>)
    ensures |r| == |ts| && forall k :: 0 <= k < |ts| ==> r[k] == Reduced(ts[k], q)
    decreases |ts|
  {
    if ts == [] then [] else [Reduced(ts[0], q)] + AllReduced(ts[1..], q)
  }

  lemma TermReduced(t: Term, q: nat, m: nat)
    ensures Add(At(t, m + 1), Times(At(t, m), PRIM * q)) == At(Reduced(t, q), m)
  {
    hide Add, Times;
    var v, x, y, z := t.value, Exponent(PRIM * m, t.degree), PRIM * t.degree, PRIM * q;
    assert Exponent(PRIM * (m + 1), t.degree) == y + x;
    hide Exponent;
    TimesLinear(Times(v, y), Times(v, z), x);
    TimesAdd(v, y, x);
    TimesAdd(v, z, x);
    TimesAdd(v, x, z);
  }

  lemma {:induction false} ValueReduced(ts: seq<Term>, q: nat, m: nat)
    ensures Add(Value(ts, m + 1), Times(Value(ts, m), PRIM * q)) == Value(AllReduced(ts, q), m)
    decreases |ts|
  {
    hide Add, Times, At, Reduced;
    if ts == [] {
      TimesZero(PRIM * q);
      AddZero(0);
    } else {
      var rest := ts[1..];
      TermReduced(ts[0], q, m);
      ValueReduced(rest, q, m);
      TimesLinear(At(ts[0], m), Value(rest, m), PRIM * q);
      AddSwap(At(ts[0], m + 1), Value(rest, m + 1), Times(At(ts[0], m), PRIM * q), Times(Value(rest, m), PRIM * q));
      assert AllReduced(ts, q)[1..] == AllReduced(rest, q);
    }
  }

  lemma OwnTermVanishes(t: Term, m: nat)
    ensures At(Reduced(t, t.degree), m) == 0
  {
    hide Add, Times, Exponent;
    AddZero(Times(t.value, PRIM * t.degree));
    TimesZero(Exponent(PRIM * m, t.degree));
  }

  lemma ReducedZero(t: Term, q: nat)
    requires t.degree < NN && q < NN && t.degree != q && Reduced(t, q).value == 0
    ensures t.value == 0
  {
    hide Add, Times, IndexOf, Pow;
    var v, p := t.value, t.degree;
    AddEqual(Times(v, PRIM * p), Times(v, PRIM * q));
    if v != 0 {
      IndexIsLog(v);
      if p > q {
        SamePower(IndexOf(v), PRIM * q, PRIM * (p - q));
        PowNotOne(p - q);
      } else {
        SamePower(IndexOf(v), PRIM * p, PRIM * (q - p));
        PowNotOne(q - p);
      }
    }
  }

  /** As many consecutive zeros as there are terms leave only zero terms. */
  lemma {:induction false} AllZero(ts: seq<Term>, from: nat)
    requires DistinctDegrees(ts)
    requires forall m :: from <= m < from + |ts| ==> Value(ts, m) == 0
    ensures forall k :: 0 <= k < |ts| ==> ts[k].value == 0
    decreases |ts|
  {
    hide Add, Times, At, Reduced;
    if ts != [] {
      var rest, q := ts[1..], ts[0].degree;
      var less := AllReduced(rest, q);
      assert DistinctDegrees(less) by { ReducedDegrees(rest, q, ts[0]); }
      forall m | from <= m < from + |less| ensures Value(less, m) == 0 {
        assert Value(ts, m) == 0 && Value(ts, m + 1) == 0;
        ValueReduced(ts, q, m);
        OwnTermVanishes(ts[0], m);
        TimesZero(PRIM * q);
        AddZero(0);
        AddZero(Value(less, m));
        assert AllReduced(ts, q)[1..] == less;
      }
      AllZero(less, from);
      forall k | 0 <= k < |rest| ensures rest[k].value == 0 {
        assert less[k].value == 0;
        ReducedZero(rest[k], q);
      }
      assert Value(ts, from) == 0;
      ZeroTerms(rest, from);
      AddZero(At(ts[0], from));
      ZeroAt(ts[0], from);
    }
  }

  lemma ReducedDegrees(rest: seq<Term>, q: nat, t: Term)
    requires DistinctDegrees([t] + rest)
    ensures DistinctDegrees(AllReduced(rest, q))
  {
    var all, less := [t] + rest, AllReduced(rest, q);
    forall j, k | 0 <= j < k < |less| ensures less[j].degree != less[k].degree {
      assert all[j + 1].degree != all[k + 1].degree;
    }
    forall k | 0 <= k < |less| ensures less[k].degree < NN { assert all[k + 1].degree < NN; }
  }

  lemma {:induction false} ZeroTerms(ts: seq<Term>, m: nat)
    requires forall k :: 0 <= k < |ts| ==> ts[k].value == 0
    ensures Value(ts, m) == 0
    decreases |ts|
  {
    hide Add, Times, Exponent;
    if ts != [] {
      ZeroTerms(ts[1..], m);
      TimesZero(Exponent(PRIM * m, ts[0].degree));
      AddZero(0);
    }
  }

  lemma ZeroAt(t: Term, m: nat)
    requires At(t, m) == 0
    ensures t.value == 0
  {
    hide Times, Exponent;
    var x := Exponent(PRIM * m, t.degree);
    TimesZero(x);
    TimesInjective(t.value, 0, x);
  }

  // ----------------------------------------------------------------------- words as terms

  /** The nonzero symbols of a word. */
  function Support(w: seq<bv8>): (ts: seq<Term>)
    ensures forall k :: 0 <= k < |ts| ==> ts[k].degree < |w| && ts[k].value != 0
    decreases |w|
  {
    if w == [] then [] else (if w[0] == 0 then [] else [Term(w[0], |w| - 1)]) + Support(w[1..])
  }

  lemma {:induction false} SupportDistinct(w: seq<bv8>)
    requires |w| <= NN
    ensures DistinctDegrees(Support(w))
    decreases |w|
  {
    if w != [] { SupportDistinct(w[1..]); }
  }

  lemma {:induction false} SupportValue(w: seq<bv8>, m: nat)
    ensures Horner(0, w, PRIM * m) == Value(Support(w), m)
    decreases |w|
  {
    hide Add, Times, Exponent;
    if w != [] {
      var e, rest := PRIM * m, w[1..];
      SupportValue(rest, m);
      HornerZero(w, e);
      HornerStart(w[0], rest, e);
      TimesZero(Exponent(e, |rest|));
      AddZero(Value(Support(rest), m));
      if w[0] != 0 {
        assert Support(w)[1..] == Support(rest);
      } else {
        assert Support(w) == Support(rest);
      }
    }
  }

  /** In how many places do the words differ? */
  function Distance(v: seq<bv8>, w: seq<bv8>): nat
    requires |v| == |w|
    decreases |v|
  {
    if v == [] then 0 else (if v[0] == w[0] then 0 else 1) + Distance(v[1..], w[1..])
  }

  lemma {:induction false} SupportSize(v: seq<bv8>, w: seq<bv8>)
    requires |v| == |w|
    ensures |Support(Sum(v, w))| == Distance(v, w)
    decreases |v|
  {
    hide Add;
    if v != [] {
      assert Sum(v, w)[1..] == Sum(v[1..], w[1..]);
      SupportSize(v[1..], w[1..]);
      AddEqual(v[0], w[0]);
    }
  }

  /** Up to 32 wrong symbols, wherever they are, never go unnoticed. */
  lemma ErrorsDetected(v: seq<bv8>, w: seq<bv8>)
    requires Codeword(v) && |w| == |v| <= NN && 0 < Distance(v, w) <= NROOTS
    ensures !Codeword(w)
  {
    hide Add, Horner, Support, Value, Sum, Distance;
    var x := Sum(v, w);
    var ts := Support(x);
    SupportSize(v, w);
    SupportDistinct(x);
    var first := ts[0];
    assert first.value != 0;
    if Codeword(w) {
      forall m | FCR <= m < FCR + |ts| ensures Value(ts, m) == 0 {
        assert Syndrome(v, m - FCR) == 0 && Syndrome(w, m - FCR) == 0;
        AddZero(0);
        HornerSum(0, 0, v, w, PRIM * m);
        SupportValue(x, m);
      }
      AllZero(ts, FCR);
    }
  }
}
