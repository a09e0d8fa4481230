/**
  Rust's fixed-width integers and the two pieces of their arithmetic that the
  judgement core relies on: `checked_mul`, which reports overflow instead of
  wrapping, and `/`, which truncates toward zero (Dafny's `/` on `int` is
  Euclidean, so the two differ on negative operands).
 */
module Primitives {

  newtype i32 = x: int | -0x8000_0000 <= x < 0x8000_0000
  newtype i64 = x: int | -0x8000_0000_0000_0000 <= x < 0x8000_0000_0000_0000
  newtype u8 = x: int | 0 <= x < 0x100

  const I32_MIN: int := -0x8000_0000
  const I32_MAX: int := 0x7fff_ffff

  predicate FitsI32(x: int) {
    I32_MIN <= x <= I32_MAX
  }

  datatype Option<T> = None | Some(value: T)

  /** Rust's `a / b` for a positive divisor: the quotient truncated toward zero. */
  function TruncDiv(a: int, b: int): (q: int)
    requires b > 0
    ensures 0 <= a ==> q * b <= a < q * b + b
    ensures a < 0 ==> q * b - b < a <= q * b
    ensures 0 <= a ==> 0 <= q <= a
    ensures a < 0 ==> a <= q <= 0
  {
    EuclideanDivision(if 0 <= a then a else -a, b);
    if 0 <= a then a / b else -((-a) / b)
  }

  lemma EuclideanDivision(n: int, b: int)
    requires 0 <= n && b > 0
    ensures (n / b) * b <= n < (n / b) * b + b
    ensures 0 <= n / b <= n
  {
    var q, r := n / b, n % b;
    assert n == q * b + r && 0 <= r < b;
    if q < 0 {
      MultiplyMonotonic(q, -1, b);
    } else {
      MultiplyMonotonic(1, b, q);
    }
  }
  lemma MultiplyMonotonic(x: int, y: int, b: int)
    requires 0 <= b && x <= y
    ensures x * b <= y * b
  {
    assert y * b - x * b == (y - x) * b;
  }
  /** The quotient is the only integer that brackets the dividend. */
  lemma TruncDivUnique(a: int, b: int, q: int)
    requires b > 0
    requires 0 <= a ==> q * b <= a < q * b + b
    requires a < 0 ==> q * b - b < a <= q * b
    ensures TruncDiv(a, b) == q
  {
    var t := TruncDiv(a, b);
    if t < q {
      assert (q - 1) * b == q * b - b;
      MultiplyMonotonic(t, q - 1, b);
    } else if t > q {
      assert (q + 1) * b == q * b + b;
      MultiplyMonotonic(q + 1, t, b);
    }
  }
  /** Rust's division is odd in its dividend. */
  lemma TruncDivNegate(a: int, b: int)
    requires b > 0
    ensures TruncDiv(-a, b) == -TruncDiv(a, b)
  {
  }
  /** Two truncating divisions in a row are one division by the product,
      as with Rust's `a / b / c` for positive `b` and `c`. */
  lemma TruncDivTwice(a: int, b: int, c: int)
    requires b > 0 && c > 0
    ensures TruncDiv(TruncDiv(a, b), c) == TruncDiv(a, b * c)
  {
    if 0 <= a {
      TruncDivTwiceNonNegative(a, b, c);
    } else {
      TruncDivTwiceNonNegative(-a, b, c);
      TruncDivNegate(a, b);
      TruncDivNegate(TruncDiv(-a, b), c);
      TruncDivNegate(a, b * c);
    }
  }
  lemma TruncDivTwiceNonNegative(a: int, b: int, c: int)
    requires 0 <= a && b > 0 && c > 0
    ensures TruncDiv(TruncDiv(a, b), c) == TruncDiv(a, b * c)
  {
    var q1 := TruncDiv(a, b);
    var q := TruncDiv(q1, c);
    assert q * c <= q1 < q * c + c;
    assert q1 * b <= a < q1 * b + b;
    MultiplyMonotonic(q * c, q1, b);
    MultiplyMonotonic(q1 + 1, q * c + c, b);
    assert (q * c) * b == q * (b * c);
    assert (q1 + 1) * b == q1 * b + b;
    assert (q * c + c) * b == q * (b * c) + b * c;
    TruncDivUnique(a, b * c, q);
  }

  /** Truncating division undoes multiplication by the same positive divisor. */
  lemma TruncDivCancel(a: int, b: int)
    requires b > 0
    ensures TruncDiv(a * b, b) == a
  {
    TruncDivUnique(a * b, b, a);
  }

  /** Rust's `i32::checked_mul`: `None` exactly when the product leaves the i32 range. */
  function CheckedMul(a: i32, b: i32): (r: Option<i32>)
    ensures r.Some? <==> FitsI32(a as int * b as int)
    ensures r.Some? ==> r.value as int == a as int * b as int
  {
    if FitsI32(a as int * b as int) then Some((a as int * b as int) as i32) else None
  }
}
