/**
  The checked multiplication that sizes option value counts.

  A fixed-width integer type is its range [min, max]: two's complement when signed
  (min == -max - 1), starting at zero when unsigned. Division truncates toward zero,
  as C++ division does.
 */
module CheckedArithmetic {

  datatype IntType = IntType(min: int, max: int)

  /** The integer types of C++: signed two's complement or unsigned. */
  predicate IsIntType(t: IntType) {
    t.max >= 1 && (t.min == -t.max - 1 || t.min == 0)
  }

  predicate Fits(t: IntType, x: int) {
    t.min <= x <= t.max
  }

  function Abs(x: int): (r: int)
    ensures 0 <= r
  {
    if x < 0 then -x else x
  }

  /** C++ integer division: the quotient is truncated toward zero. */
  function TruncatedDiv(a: int, b: int): int
    requires b != 0
  {
    if (a < 0) == (b < 0) then Abs(a) / Abs(b) else -(Abs(a) / Abs(b))
  }

  /**
    `std::abs` of the most negative value is undefined and division by zero is undefined:
    both are ruled out by the requires, which every call has to discharge.
   */
  predicate OverflowCheck(t: IntType, a: int, b: int)
    requires IsIntType(t) && Fits(t, a) && Fits(t, b)
    requires a != 0
    requires t.min < 0 ==> a != t.min && b != t.min
  {
    if t.min < 0 then
      if (a > 0) == (b > 0) then TruncatedDiv(t.max, Abs(a)) < Abs(b)
      else TruncatedDiv(t.min, Abs(a)) > -Abs(b)
    else
      TruncatedDiv(t.max, a) < b
  }

  /** A quotient bounds the other factor exactly when the product stays within the dividend. */
  lemma {:induction false} QuotientBoundsFactor(m: int, a: int, b: int)
    requires m >= 0 && a > 0 && b >= 0
    ensures m / a < b <==> m < a * b
  {
    var q, r := m / a, m % a;
    assert m == a * q + r && 0 <= r < a;
    if q < b {
      assert a * q + a <= a * b by { assert a * (q + 1) <= a * b; assert a * (q + 1) == a * q + a; }
    } else {
      assert a * b <= a * q;
    }
  }

  lemma {:induction false} ProductOfMagnitudes(a: int, b: int)
    ensures Abs(a) * Abs(b) == Abs(a * b)
    ensures a != 0 && b != 0 ==> (a * b > 0 <==> (a > 0) == (b > 0)) && a * b != 0
  {
    if a > 0 && b > 0 {
      assert a * b > 0;
    } else if a > 0 && b < 0 {
      assert a * (-b) > 0;
      assert a * b == -(a * (-b));
    } else if a < 0 && b > 0 {
      assert (-a) * b > 0;
      assert a * b == -((-a) * b);
    } else if a < 0 && b < 0 {
      assert (-a) * (-b) > 0;
      assert a * b == (-a) * (-b);
    }
  }

  /** The overflow test is exact: it fires if and only if the product is not representable. */
  lemma {:induction false} OverflowCheckExact(t: IntType, a: int, b: int)
    requires IsIntType(t) && Fits(t, a) && Fits(t, b)
    requires a != 0 && b != 0
    requires t.min < 0 ==> a != t.min && b != t.min
    ensures OverflowCheck(t, a, b) <==> !Fits(t, a * b)
  {
    ProductOfMagnitudes(a, b);
    QuotientBoundsFactor(t.max, Abs(a), Abs(b));
    QuotientBoundsFactor(Abs(t.min), Abs(a), Abs(b));
  }

  lemma {:induction false} ProductGrows(m: int, b: int, c: int)
    requires m >= 0 && b <= c
    ensures m * b <= m * c
  {
    assert m * c - m * b == m * (c - b);
  }

  /** A factor that is the most negative value fits only a multiplication by 0 or 1. */
  lemma {:induction false} MinimumOverflows(t: IntType, a: int, b: int)
    requires IsIntType(t) && t.min < 0
    requires a == t.min && Fits(t, b) && b != 0 && b != 1
    ensures !Fits(t, a * b)
  {
    if b >= 2 {
      ProductGrows(-a, 2, b);
      assert a * b == -((-a) * b);
    } else {
      ProductGrows(-a, 1, -b);
      assert a * b == (-a) * (-b);
    }
  }

  /**
    `a *= b` when it does not overflow. The result is true exactly when the mathematical
    product is representable; otherwise `a` keeps its value.
   */
  method CheckedMultiply(t: IntType, a: int, b: int) returns (ok: bool, product: int)
    requires IsIntType(t) && Fits(t, a) && Fits(t, b)
    ensures ok <==> Fits(t, a * b)
    ensures product == if Fits(t, a * b) then a * b else a
  {
    product := a;
    if product == 0 || b == 0 || product == 1 || b == 1 {
      product := product * b;
      return true, product;
    }
    if product == t.min || b == t.min {
      // reached only for signed types: an unsigned minimum is 0
      if product == t.min {
        MinimumOverflows(t, product, b);
      } else {
        MinimumOverflows(t, b, product);
        assert product * b == b * product;
      }
      return false, product;
    }
    OverflowCheckExact(t, product, b);
    if OverflowCheck(t, product, b) {
      return false, product;
    }
    product := product * b;
    ok := true;
  }

  const INT32 := IntType(-0x8000_0000, 0x7FFF_FFFF)
  const EXPECTED_MAX_VECTOR_SIZE := 0x2000_0000

  /** The most items an option takes: the exact product of its two limits, or the sentinel. */
  method GetItemsExpectedMax(typeSizeMax: int, expectedMax: int) returns (items: int)
    requires Fits(INT32, typeSizeMax) && Fits(INT32, expectedMax)
    ensures Fits(INT32, items)
    ensures Fits(INT32, typeSizeMax * expectedMax) ==> items == typeSizeMax * expectedMax
    ensures !Fits(INT32, typeSizeMax * expectedMax) ==> items == EXPECTED_MAX_VECTOR_SIZE
  {
    var ok, t := CheckedMultiply(INT32, typeSizeMax, expectedMax);
    items := if ok then t else EXPECTED_MAX_VECTOR_SIZE;
  }
}
