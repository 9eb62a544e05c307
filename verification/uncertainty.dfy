/** Steps 4 and 5 of the estimator: the deviation of the fitted line from the
    1:1 line at each reference reading, and the per-sample relative expanded
    uncertainty `k * sqrt(sigma2 - u_xi^2 + ec) * 100 / lcs`.

    The square root is numpy's `** (1/2)`; it is a parameter here, and every
    property that depends on it assumes only `IsSqrt`. A negative radicand
    (numpy answers NaN) and a zero secondary reading (NaN or an infinity)
    give `None`. */
module Uncertainty {
  import opened Wrappers
  import opened Regression

  // ---------------------------------------------------------------------
  // The square root

  /** `sqrt` is the non-negative square root on the non-negative reals. */
  ghost predicate IsSqrt(sqrt: real -> real) {
    forall x :: 0.0 <= x ==> 0.0 <= sqrt(x) && sqrt(x) * sqrt(x) == x
  }

  lemma SquareLess(p: real, q: real, pp: real, qq: real)
    requires 0.0 <= q < p && pp == p * p && qq == q * q
    ensures qq < pp
  {
    ProductPositive(p - q, p + q, pp - qq);
  }

  /** The square root is strictly increasing. */
  lemma SqrtStrictlyMonotone(sqrt: real -> real, a: real, b: real)
    requires IsSqrt(sqrt)
    requires 0.0 <= a < b
    ensures sqrt(a) < sqrt(b)
  {
    if sqrt(b) <= sqrt(a) {
      if sqrt(b) < sqrt(a) {
        SquareLess(sqrt(a), sqrt(b), a, b);
      }
      assert false;
    }
  }

  /** The square root is increasing. */
  lemma SqrtMonotone(sqrt: real -> real, a: real, b: real)
    requires IsSqrt(sqrt)
    requires 0.0 <= a <= b
    ensures sqrt(a) <= sqrt(b)
  {
    if a < b {
      SqrtStrictlyMonotone(sqrt, a, b);
    }
  }

  /** The square root vanishes exactly at zero. */
  lemma SqrtZeroIff(sqrt: real -> real, a: real)
    requires IsSqrt(sqrt) && 0.0 <= a
    ensures sqrt(a) == 0.0 <==> a == 0.0
  {
    if sqrt(a) != 0.0 {
      NonZeroSquare(sqrt(a), a);
    }
  }

  /** The square root of a square is the non-negative base. */
  lemma SqrtOfSquare(sqrt: real -> real, a: real, aa: real)
    requires IsSqrt(sqrt) && 0.0 <= a && aa == a * a
    ensures sqrt(aa) == a
  {
    SquareZeroIff(a, aa);
    var r := sqrt(aa);
    if r < a {
      SquareLess(a, r, aa, r * r);
    } else if a < r {
      SquareLess(r, a, r * r, aa);
    }
  }

  // ---------------------------------------------------------------------
  // Deviation from the 1:1 line

  /** `b0 + (b1 - 1) * x`: how far the fitted line lies above the identity
      line at reference reading `x`. */
  function Gap(fit: Line, x: real): (g: real)
    ensures g == Predict(fit, x) - x
  {
    fit.intercept + (fit.slope - 1.0) * x
  }

  /** `ec = (b0 + (b1 - 1) * x)^2`, the error variance due to the deviation
      of the fit from the 1:1 line. It is never negative and vanishes exactly
      where the fitted line meets the identity line. */
  function IdentityDeviation(fit: Line, x: real): (ec: real)
    ensures ec >= 0.0
    ensures ec == 0.0 <==> fit.intercept + (fit.slope - 1.0) * x == 0.0
  {
    var g := Gap(fit, x);
    SquareZeroIff(g, g * g);
    g * g
  }

  // ---------------------------------------------------------------------
  // Per-sample relative expanded uncertainty

  /** The quantity under the square root: `sigma2 - u_xi^2 + ec`. */
  function Radicand(sigma2: real, uxi: real, ec: real): real {
    sigma2 - uxi * uxi + ec
  }

  /** The radicand decreases as `|u_xi|` grows, and strictly so when `|u_xi|`
      strictly grows. */
  lemma RadicandDecreasesInUxi(sigma2: real, u1: real, u2: real, ec: real)
    requires u1 * u1 <= u2 * u2
    ensures Radicand(sigma2, u2, ec) <= Radicand(sigma2, u1, ec)
    ensures u1 * u1 < u2 * u2 ==> Radicand(sigma2, u2, ec) < Radicand(sigma2, u1, ec)
  {}

  lemma DivTimesBack(a: real, b: real, q: real)
    requires b != 0.0 && q == a / b
    ensures q * b == a
  {}

  /** The relative expanded uncertainty of one sample, in percent of its
      secondary reading `lcs`. It is defined exactly when the radicand is
      non-negative and `lcs` is non-zero, and then `r * lcs` is `k` times the
      root of the radicand, times 100. */
  function SampleReu(sigma2: real, uxi: real, ec: real, lcs: real, k: real,
                     sqrt: real -> real): (r: Option<real>)
    ensures r.Some? <==> Radicand(sigma2, uxi, ec) >= 0.0 && lcs != 0.0
    ensures r.Some? ==> r.value * lcs == k * sqrt(Radicand(sigma2, uxi, ec)) * 100.0
  {
    var rad := Radicand(sigma2, uxi, ec);
    if rad < 0.0 || lcs == 0.0 then
      None
    else
      var v := k * sqrt(rad) * 100.0 / lcs;
      DivTimesBack(k * sqrt(rad) * 100.0, lcs, v);
      Some(v)
  }

  /** Scaling the coverage factor scales the quotient; kept apart so that the
      solver meets this division on its own. */
  lemma ScaleQuotient(c: real, k: real, w: real, lcs: real)
    requires lcs != 0.0
    ensures c * k * w * 100.0 / lcs == c * (k * w * 100.0 / lcs)
  {}

  /** `c * v`, named so that equal arguments give equal products: behind a
      function symbol, `Scaled(c, x)` and `Scaled(c, y)` for `x == y` are
      equal by congruence, which the solver does not find reliably for the
      bare products. `ScaleEntry` and the `LinearInK` lemmas use it. */
  function Scaled(c: real, v: real): real {
    c * v
  }

  /** A defined estimate scaled by `c`; an undefined one stays undefined. */
  function ScaleEntry(x: Option<real>, c: real): Option<real> {
    if x.None? then None else Some(Scaled(c, x.value))
  }

  /** The estimate is linear in the coverage factor `k`: scaling `k` by `c`
      (to `ck`) scales a defined estimate by `c` and leaves an undefined one
      undefined. */
  lemma SampleReuLinearInK(sigma2: real, uxi: real, ec: real, lcs: real, k: real, c: real,
                           ck: real, sqrt: real -> real)
    requires ck == c * k
    ensures SampleReu(sigma2, uxi, ec, lcs, ck, sqrt)
         == ScaleEntry(SampleReu(sigma2, uxi, ec, lcs, k, sqrt), c)
  {
    var rad := Radicand(sigma2, uxi, ec);
    if rad >= 0.0 && lcs != 0.0 {
      ScaleQuotient(c, k, sqrt(rad), lcs);
      assert SampleReu(sigma2, uxi, ec, lcs, ck, sqrt).value
          == Scaled(c, SampleReu(sigma2, uxi, ec, lcs, k, sqrt).value);
    }
  }

  lemma QuotientMonotone(k: real, a: real, b: real, lcs: real)
    requires k >= 0.0 && a <= b && lcs > 0.0
    ensures k * a * 100.0 / lcs <= k * b * 100.0 / lcs
  {}

  lemma QuotientStrictlyMonotone(k: real, a: real, b: real, lcs: real)
    requires k > 0.0 && a < b && lcs > 0.0
    ensures k * a * 100.0 / lcs < k * b * 100.0 / lcs
  {}

  /** For a non-negative `k` and a positive secondary reading, a defined
      estimate is non-negative. */
  lemma SampleReuNonNegative(sigma2: real, uxi: real, ec: real, lcs: real, k: real,
                             sqrt: real -> real)
    requires IsSqrt(sqrt) && lcs > 0.0 && k >= 0.0
    ensures SampleReu(sigma2, uxi, ec, lcs, k, sqrt).Some? ==>
      SampleReu(sigma2, uxi, ec, lcs, k, sqrt).value >= 0.0
  {
    var rad := Radicand(sigma2, uxi, ec);
    if rad >= 0.0 {
      QuotientMonotone(k, 0.0, sqrt(rad), lcs);
    }
  }

  /** A larger reference uncertainty `|u_xi|` never raises the estimate of a
      sample with a positive secondary reading, as long as `k` is
      non-negative and the radicand stays non-negative. */
  lemma SampleReuMonotoneInUxi(sigma2: real, u1: real, u2: real, ec: real, lcs: real, k: real,
                               sqrt: real -> real)
    requires IsSqrt(sqrt)
    requires u1 * u1 <= u2 * u2
    requires lcs > 0.0 && k >= 0.0
    requires Radicand(sigma2, u2, ec) >= 0.0
    ensures SampleReu(sigma2, u1, ec, lcs, k, sqrt).Some?
    ensures SampleReu(sigma2, u2, ec, lcs, k, sqrt).Some?
    ensures SampleReu(sigma2, u2, ec, lcs, k, sqrt).value
         <= SampleReu(sigma2, u1, ec, lcs, k, sqrt).value
  {
    var r1, r2 := Radicand(sigma2, u1, ec), Radicand(sigma2, u2, ec);
    SqrtMonotone(sqrt, r2, r1);
    QuotientMonotone(k, sqrt(r2), sqrt(r1), lcs);
  }

  lemma QuotientStrictlyMonotoneNegative(k: real, a: real, b: real, lcs: real)
    requires k > 0.0 && 0.0 <= a < b && lcs < 0.0
    ensures k * b * 100.0 / lcs < k * a * 100.0 / lcs <= 0.0
  {}

  /** Two estimates `k * w * 100 / lcs` for roots `w2 < w1`: the one with
      the smaller root has the smaller magnitude. */
  lemma QuotientPair(k: real, w1: real, w2: real, lcs: real, v1: real, v2: real)
    requires k > 0.0 && 0.0 <= w2 < w1 && lcs != 0.0
    requires v1 == k * w1 * 100.0 / lcs && v2 == k * w2 * 100.0 / lcs
    ensures Abs(v2) < Abs(v1)
    ensures lcs > 0.0 ==> 0.0 <= v2 < v1
    ensures lcs < 0.0 ==> v1 < v2 <= 0.0
  {
    if lcs > 0.0 {
      QuotientStrictlyMonotone(k, w2, w1, lcs);
      QuotientMonotone(k, 0.0, w2, lcs);
    } else {
      QuotientStrictlyMonotoneNegative(k, w2, w1, lcs);
    }
  }

  /** The absolute value of `x`. */
  function Abs(x: real): (r: real)
    ensures r >= 0.0 && (r == x || r == -x)
  {
    if x < 0.0 then -x else x
  }

  /** With `k` positive and a non-zero secondary reading, a strictly larger
      `|u_xi|` strictly shrinks the magnitude of the estimate: it lowers a
      non-negative estimate (`lcs > 0`) and raises a non-positive one
      (`lcs < 0`), and the estimate stays defined at the smaller `|u_xi|`. */
  lemma SampleReuStrictlyMonotoneInUxi(sigma2: real, u1: real, u2: real, ec: real, lcs: real,
                                       k: real, sqrt: real -> real)
    requires IsSqrt(sqrt)
    requires u1 * u1 < u2 * u2
    requires lcs != 0.0 && k > 0.0
    requires Radicand(sigma2, u2, ec) >= 0.0
    ensures SampleReu(sigma2, u1, ec, lcs, k, sqrt).Some?
    ensures SampleReu(sigma2, u2, ec, lcs, k, sqrt).Some?
    ensures Abs(SampleReu(sigma2, u2, ec, lcs, k, sqrt).value)
          < Abs(SampleReu(sigma2, u1, ec, lcs, k, sqrt).value)
    ensures lcs > 0.0 ==>
      0.0 <= SampleReu(sigma2, u2, ec, lcs, k, sqrt).value < SampleReu(sigma2, u1, ec, lcs, k, sqrt).value
    ensures lcs < 0.0 ==>
      SampleReu(sigma2, u1, ec, lcs, k, sqrt).value < SampleReu(sigma2, u2, ec, lcs, k, sqrt).value <= 0.0
  {
    var r1, r2 := Radicand(sigma2, u1, ec), Radicand(sigma2, u2, ec);
    SqrtStrictlyMonotone(sqrt, r2, r1);
    var w1, w2 := sqrt(r1), sqrt(r2);
    var v1, v2 := SampleReu(sigma2, u1, ec, lcs, k, sqrt).value, SampleReu(sigma2, u2, ec, lcs, k, sqrt).value;
    assert v1 == k * w1 * 100.0 / lcs && v2 == k * w2 * 100.0 / lcs;
    QuotientPair(k, w1, w2, lcs, v1, v2);
  }

  /** A sample on which nothing deviates (no residual variance, no reference
      uncertainty, fit on the 1:1 line) has zero uncertainty, unless its
      secondary reading is zero. */
  lemma SampleReuZero(lcs: real, k: real, sqrt: real -> real)
    requires IsSqrt(sqrt)
    ensures SampleReu(0.0, 0.0, 0.0, lcs, k, sqrt) == if lcs == 0.0 then None else Some(0.0)
  {
    SqrtZeroIff(sqrt, 0.0);
    var rad := Radicand(0.0, 0.0, 0.0);
    assert rad == 0.0;
    var r := SampleReu(0.0, 0.0, 0.0, lcs, k, sqrt);
    if lcs != 0.0 {
      var w := sqrt(rad);
      assert w == 0.0;
      assert r.value * lcs == k * w * 100.0;
      ProductZero(lcs, r.value);
    }
  }
}
