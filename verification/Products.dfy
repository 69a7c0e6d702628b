/** Products of reals. Each lemma hands out the product, or the difference of two, as a
    number of its own. */
module Products {

  lemma {:induction false} PositiveProduct(x: real, y: real) returns (q: real)
    requires x > 0.0 && y > 0.0
    ensures q > 0.0 && x * y == q
  {
    q := x * y;
  }

  lemma {:induction false} StrictScale(x: real, y: real, k: real) returns (gap: real)
    requires x < y && k > 0.0
    ensures gap > 0.0 && y * k == x * k + gap
  {
    gap := PositiveProduct(y - x, k);
  }

  lemma {:induction false} Scale(x: real, y: real, k: real) returns (gap: real)
    requires x <= y && k >= 0.0
    ensures gap >= 0.0 && y * k == x * k + gap
  {
    gap := (y - x) * k;
  }

  lemma {:induction false} DivideMonotone(a: real, b: real, d: real)
    requires a <= b && d > 0.0
    ensures a / d <= b / d
  {
    assert b / d - a / d == (b - a) / d;
  }
}
