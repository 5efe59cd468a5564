/** Facts about real division that the ROI proofs use; stating them once keeps
    the nonlinear reasoning in small, separate obligations. */
module RealArith {

  /** Net gain over cost is gain over cost less one. */
  lemma NetOverCost(s: real, c: real)
    requires c > 0.0
    ensures (s - c) / c == s / c - 1.0
  {
    assert s / c - c / c == (s - c) / c;
    assert c / c == 1.0;
  }

  /** Division by a positive number keeps strict order. */
  lemma DivLt(a: real, b: real, c: real)
    requires a < b && c > 0.0
    ensures a / c < b / c
  {
    assert b / c - a / c == (b - a) / c;
  }

  /** Division by a positive number keeps order. */
  lemma DivLe(a: real, b: real, c: real)
    requires a <= b && c > 0.0
    ensures a / c <= b / c
  {
    assert b / c - a / c == (b - a) / c;
  }

  /** Comparing two fractions by cross-multiplying. */
  lemma RatioLe(a: real, b: real, c: real, d: real)
    requires b > 0.0 && d > 0.0 && a * d <= c * b
    ensures a / b <= c / d
  {
  }

  /** A fixed positive amount shrinks as it is spread over more. */
  lemma SpreadThinner(s: real, a: real, b: real)
    requires s > 0.0 && 0.0 < a < b
    ensures s / b < s / a
  {
    assert s * a < s * b;
  }

  /** Multiplying by a non-negative factor keeps order. */
  lemma MulLeftLe(k: real, a: real, b: real)
    requires k >= 0.0 && a <= b
    ensures k * a <= k * b
  {
    assert k * b - k * a == k * (b - a);
  }

  /** The sign of a product of two non-negative numbers. */
  lemma ProductSign(a: real, b: real)
    requires a >= 0.0 && b >= 0.0
    ensures a * b >= 0.0
    ensures a * b == 0.0 <==> a == 0.0 || b == 0.0
  {
    if a > 0.0 && b > 0.0 {
      assert a * b > 0.0;
    }
  }
}
