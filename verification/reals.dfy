/** The few facts about products of reals that the scores and averages need. */
module Reals {
  /** `x` times `b` to the power `n`. */
  function Times(b: real, x: real, n: nat): real {
    if n == 0 then x else b * Times(b, x, n - 1)
  }

  lemma ProductPositive(a: real, b: real)
    requires a >= 0.0 && b >= 0.0
    ensures a * b >= 0.0 && (a > 0.0 && b > 0.0 ==> a * b > 0.0)
  {}

  lemma TimesPositive(a: real, b: real, c: real)
    requires a <= b && c > 0.0
    ensures a * c <= b * c
  {}

  lemma Product(a: real, b: real, hi: real)
    requires 0.0 <= a && 0.0 <= b <= hi
    ensures 0.0 <= a * b <= a * hi
    ensures a > 0.0 && b > 0.0 ==> a * b > 0.0
  {}

  lemma Scale(a: real, b: real, w: real)
    requires w > 0.0
    ensures a < b <==> a * w < b * w
  {
    if a < b {
      Product(b - a, w, w);
      assert (b - a) * w == b * w - a * w;
    } else {
      Product(a - b, w, w);
      assert (a - b) * w == a * w - b * w;
    }
  }

  lemma {:induction false} TimesMonotone(b: real, x: real, y: real, n: nat)
    requires 0.0 < b && x <= y
    ensures Times(b, x, n) <= Times(b, y, n)
  {
    if n > 0 {
      TimesMonotone(b, x, y, n - 1);
      TimesPositive(Times(b, x, n - 1), Times(b, y, n - 1), b);
    }
  }

  lemma {:induction false} TimesInside(b: real, x: real, y: real, n: nat)
    requires y == b * x
    ensures Times(b, y, n) == Times(b, x, n + 1)
  {
    if n > 0 {
      TimesInside(b, x, y, n - 1);
    }
  }

  /** `n` times `g`. */
  function Multiple(n: nat, g: real): real {
    if n == 0 then 0.0 else g + Multiple(n - 1, g)
  }

  lemma {:induction false} MultiplePositive(n: nat, g: real)
    requires g > 0.0
    ensures Multiple(n, g) >= 0.0
  {
    if n > 0 {
      MultiplePositive(n - 1, g);
    }
  }
}
