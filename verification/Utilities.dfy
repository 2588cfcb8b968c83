/** Modular arithmetic (src/utilities.c). */
module Utilities {
  /** The remainder operator of C, which truncates towards zero. */
  function CRemainder(x: int, m: int): int
    requires m > 0
  {
    if x >= 0 then x % m else -((-x) % m)
  }

  function Abs(x: int): int {
    if x >= 0 then x else -x
  }

  /** positive_modulo: division only for operands that are large compared to the
      modulus, repeated addition and subtraction otherwise. */
  method PositiveModulo(x: int, m: int) returns (r: int)
    requires m > 0
    ensures r == x % m
  {
    if Abs(x) > m * 12 {
      r := CRemainder(CRemainder(x, m) + m, m);
      RemainderIsModulo(x, m);
    } else {
      r := x;
      while r < 0
        invariant r % m == x % m
        decreases -r
      {
        ModShift(r, m);
        r := r + m;
      }
      while r >= m
        invariant 0 <= r && r % m == x % m
      {
        ModShift(r - m, m);
        r := r - m;
      }
      ModSmall(r, m);
    }
  }

  lemma ModSmall(x: int, m: int)
    requires 0 <= x < m
    ensures x % m == x
  {
  }

  /** x is determined by its quotient and remainder. */
  lemma ModUnique(x: int, q: int, r: int, m: int)
    requires 0 <= r < m && x == q * m + r
    ensures x % m == r
  {
    var d := x / m - q;
    assert x == (x / m) * m + x % m;
    assert d * m == r - x % m by {
      assert d * m == (x / m) * m - q * m;
    }
    if d >= 1 {
      assert d * m >= m by { MulMono(d, m); }
    } else if d <= -1 {
      assert -d * m >= m by { MulMono(-d, m); }
    }
  }

  lemma QuotientIs(x: int, q: int, r: int, m: int)
    requires 0 <= r < m && x == q * m + r
    ensures x / m == q
  {
    ModUnique(x, q, r, m);
    var d := x / m - q;
    assert d * m == 0 by {
      assert x == (x / m) * m + x % m;
      assert d * m == (x / m) * m - q * m;
    }
    if d >= 1 { MulMono(d, m); } else if d <= -1 { MulMono(-d, m); }
  }

  lemma MulMono(d: int, m: int)
    requires d >= 1 && m >= 0
    ensures d * m >= m
  {
  }

  lemma ModShift(x: int, m: int)
    requires m > 0
    ensures (x + m) % m == x % m
  {
    assert x + m == (x / m + 1) * m + x % m;
    ModUnique(x + m, x / m + 1, x % m, m);
  }

  lemma RemainderIsModulo(x: int, m: int)
    requires m > 0
    ensures 0 <= CRemainder(x, m) + m && CRemainder(CRemainder(x, m) + m, m) == x % m
  {
    if x >= 0 {
      ModShift(x % m, m);
      ModSmall(x % m, m);
    } else {
      var r := (-x) % m;
      assert -x == ((-x) / m) * m + r;
      if r == 0 {
        assert x == (-((-x) / m)) * m + 0;
        ModUnique(x, -((-x) / m), 0, m);
        ModUnique(m, 1, 0, m);
      } else {
        assert x == (-((-x) / m) - 1) * m + (m - r);
        ModUnique(x, -((-x) / m) - 1, m - r, m);
        ModSmall(m - r, m);
      }
    }
  }

  /** Reducing an operand first does not change the result. */
  lemma ModAdd(x: int, k: int, m: int)
    requires m > 0
    ensures (x % m + k) % m == (x + k) % m
  {
    var y := x % m + k;
    var q, r := y / m, y % m;
    assert x + k == (x / m + q) * m + r by {
      assert x == (x / m) * m + x % m;
      assert y == q * m + r;
    }
    ModUnique(x + k, x / m + q, r, m);
  }

  lemma ModSub(x: int, y: int, m: int)
    requires m > 0
    ensures (x % m - y % m) % m == (x - y) % m
  {
    ModAdd(x, -(y % m), m);
    var d := x - y;
    assert x - y % m == d + (y / m) * m;
    ModMultiple(d, y / m, m);
  }

  lemma ModMultiple(x: int, q: int, m: int)
    requires m > 0
    ensures (x + q * m) % m == x % m
  {
    assert x + q * m == (x / m + q) * m + x % m;
    ModUnique(x + q * m, x / m + q, x % m, m);
  }

  /** Within a window of m numbers a residue occurs once. */
  lemma ModInjective(x: int, y: int, m: int)
    requires x <= y < x + m && x % m == y % m
    ensures x == y
  {
    ModSub(y, x, m);
    ModSmall(y - x, m);
    ModSmall(0, m);
  }
}
