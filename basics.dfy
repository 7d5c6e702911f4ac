/** Shared value types of the analyzer and the C++ numeric conversions it relies on. */
module Basics {

  datatype Option<+T> = None | Some(value: T)

  /** A signed 16-bit PCM sample (`ALshort` / `short`). */
  newtype Short = x: int | -32768 <= x < 32768

  /** An integer pixel position (`cv::Point`); `Point(0, 0)` is its default value. */
  datatype Point = Point(x: int, y: int)

  /** One slot of an FFT buffer (`fftw_complex`): real and imaginary part. */
  datatype Complex = Complex(re: real, im: real)

  /** Samples per capture frame and FFT size (`buffer_size`, `N`, `nsamples`). */
  const FrameLength: nat := 1024

  /** The C++ conversion `(int)x` of a floating-point value: truncation toward zero. */
  function TruncReal(x: real): (r: int)
    ensures 0.0 <= x ==> r as real <= x < r as real + 1.0
    ensures x < 0.0 ==> r as real - 1.0 < x <= r as real
  {
    if x >= 0.0 then x.Floor else -((-x).Floor)
  }

  /** Integer division that truncates toward zero, as C++ `/` does; `d` is positive. */
  function TruncDiv(a: int, d: int): (q: int)
    requires d > 0
    ensures 0 <= a ==> 0 <= q * d <= a < q * d + d
    ensures a < 0 ==> q * d - d < a <= q * d <= 0
  {
    var b := if a >= 0 then a else -a;
    var q := b / d;
    assert b == q * d + b % d && 0 <= b % d < d;
    if a >= 0 then q else -q
  }

  /** Truncation toward zero never reverses an order. */
  lemma TruncRealMonotone(x: real, y: real)
    requires x <= y
    ensures TruncReal(x) <= TruncReal(y)
  {
  }

  /** Floor is determined by the interval it brackets. */
  lemma FloorUnique(x: real, q: int)
    requires q as real <= x < q as real + 1.0
    ensures x.Floor == q
  {
  }

  /** Bounds on a real quotient follow from bounds on the dividend. */
  lemma RealQuotientBracket(a: real, d: real, q: real)
    requires d > 0.0
    requires q * d <= a < q * d + d
    ensures q <= a / d < q + 1.0
  {
    var r := a - q * d;
    assert a / d == q + r / d;
    assert r / d * d == r;
  }

  /** Dividing exactly in the reals and truncating gives C++'s truncated integer quotient. */
  lemma TruncDivAgreesWithReal(a: int, d: int)
    requires d > 0
    ensures TruncReal(a as real / d as real) == TruncDiv(a, d)
  {
    var q := TruncDiv(a, d);
    var x := a as real / d as real;
    assert (q * d) as real == q as real * d as real;
    if a >= 0 {
      RealQuotientBracket(a as real, d as real, q as real);
      FloorUnique(x, q);
    } else {
      RealQuotientBracket(-a as real, d as real, -q as real);
      assert -x == -a as real / d as real;
      FloorUnique(-x, -q);
    }
  }
}
