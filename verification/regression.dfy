/** Steps 2 and 3 of the estimator: the ordinary-least-squares line of the
    secondary readings on the reference readings, its residual sum of squares
    and the residual variance `rss / (n - 2)`.

    The fit is written out in closed form, as `scipy.stats.linregress` (called
    by the Python function `reu`) computes it: slope = Sxy / Sxx over centred
    sums, intercept = mean(lcs) - slope * mean(ref). */
module Regression {
  import opened Wrappers
  import opened Masking

  /** The line `lcs = intercept + slope * ref`. */
  datatype Line = Line(intercept: real, slope: real)

  function Predict(line: Line, x: real): real {
    line.intercept + line.slope * x
  }

  /** The vertical residual of one sample against a line: `lcs - b0 - b1 * ref`. */
  function Residual(line: Line, sample: Sample): real {
    sample.lcs - line.intercept - line.slope * sample.ref
  }

  // ---------------------------------------------------------------------
  // Sums over the samples

  /** `f` summed over the samples. */
  function SumOf(s: seq<Sample>, f: Sample -> real): real {
    if |s| == 0 then 0.0 else f(s[0]) + SumOf(s[1..], f)
  }

  function RefOf(sample: Sample): real { sample.ref }
  function LcsOf(sample: Sample): real { sample.lcs }
  function One(sample: Sample): real { 1.0 }

  function SqDevTerm(m: real): Sample -> real {
    (sample: Sample) => (sample.ref - m) * (sample.ref - m)
  }

  function CrossDevTerm(mx: real, my: real): Sample -> real {
    (sample: Sample) => (sample.ref - mx) * (sample.lcs - my)
  }

  function ResidualTerm(line: Line): Sample -> real {
    (sample: Sample) => Residual(line, sample)
  }

  function RefResidualTerm(line: Line): Sample -> real {
    (sample: Sample) => sample.ref * Residual(line, sample)
  }

  function CentredResidualTerm(mx: real, line: Line): Sample -> real {
    (sample: Sample) => (sample.ref - mx) * Residual(line, sample)
  }

  function SquaredResidualTerm(line: Line): Sample -> real {
    (sample: Sample) => Residual(line, sample) * Residual(line, sample)
  }

  function SquaredLineTerm(d: Line): Sample -> real {
    (sample: Sample) => Predict(d, sample.ref) * Predict(d, sample.ref)
  }

  function MeanRef(s: seq<Sample>): real
    requires |s| > 0
  {
    SumOf(s, RefOf) / |s| as real
  }

  function MeanLcs(s: seq<Sample>): real
    requires |s| > 0
  {
    SumOf(s, LcsOf) / |s| as real
  }

  /** `Sxx`: squared deviations of the reference readings from `m`, summed. */
  function SqDev(s: seq<Sample>, m: real): (r: real)
    ensures r >= 0.0
  {
    SqDevNonNegative(s, m);
    SumOf(s, SqDevTerm(m))
  }

  /** `Sxy`: cross deviations `(ref - mx) * (lcs - my)`, summed. */
  function CrossDev(s: seq<Sample>, mx: real, my: real): real {
    SumOf(s, CrossDevTerm(mx, my))
  }

  /** Residual sum of squares of a line over the samples. */
  function Rss(s: seq<Sample>, line: Line): (r: real)
    ensures r >= 0.0
  {
    RssNonNegative(s, line);
    SumOf(s, SquaredResidualTerm(line))
  }

  /** All reference readings are equal (`scipy.stats.linregress` refuses to fit
      a line to two or more such readings). */
  predicate AllSameRef(s: seq<Sample>) {
    forall i :: 0 <= i < |s| ==> s[i].ref == s[0].ref
  }

  /** The line through the centroid `(mean ref, mean lcs)` with slope `b1`. */
  function CentroidLine(s: seq<Sample>, b1: real): Line
    requires |s| > 0
  {
    Line(MeanLcs(s) - b1 * MeanRef(s), b1)
  }

  /** The ordinary-least-squares fit of `lcs` on `ref`, in the closed form
      `scipy.stats.linregress` uses: slope `Sxy / Sxx` through the centroid.
      `Sxx` is non-zero because the reference readings are not all equal.
      `OlsNormalEquations` and `OlsMinimisesRss` show that it is the
      least-squares line. */
  function OlsFit(s: seq<Sample>): (fit: Line)
    requires !AllSameRef(s)
    ensures |s| >= 2
    ensures Predict(fit, MeanRef(s)) == MeanLcs(s)
  {
    SqDevPositive(s);
    var mx, my := MeanRef(s), MeanLcs(s);
    var sxy, sxx := CrossDev(s, mx, my), SqDev(s, mx);
    CentroidLineThrough(s, sxy / sxx);
    CentroidLine(s, sxy / sxx)
  }

  /** Every centroid line passes through the centroid `(mean ref, mean lcs)`. */
  lemma CentroidLineThrough(s: seq<Sample>, b1: real)
    requires |s| > 0
    ensures Predict(CentroidLine(s, b1), MeanRef(s)) == MeanLcs(s)
  {
    var mx, my := MeanRef(s), MeanLcs(s);
    assert CentroidLine(s, b1) == Line(my - b1 * mx, b1);
  }

  /** The residual variance `rss / (n - 2)`; with two samples this divides by
      zero, which numpy turns into NaN or an infinity in `reu`, here `None`. */
  function ResidualVariance(s: seq<Sample>, fit: Line): (v: Option<real>)
    requires |s| >= 2
    ensures v.None? <==> |s| == 2
    ensures v.Some? ==> v.value >= 0.0 && v.value * (|s| - 2) as real == Rss(s, fit)
  {
    if |s| == 2 then None else Some(Rss(s, fit) / (|s| - 2) as real)
  }

  // ---------------------------------------------------------------------
  // Constant reference readings

  /** With at least two distinct reference readings, `Sxx` about the mean is
      strictly positive. */
  lemma SqDevPositive(s: seq<Sample>)
    requires !AllSameRef(s)
    ensures |s| >= 2
    ensures SqDev(s, MeanRef(s)) > 0.0
  {
    var i :| 0 <= i < |s| && s[i].ref != s[0].ref;
    var m := MeanRef(s);
    var k := i;
    if s[i].ref == m {
      k := 0;
    }
    SqDevTermPositive(s[k], m);
    SqDevTermsNonNegative(s, m);
    SumOfPositive(s, SqDevTerm(m), k);
  }

  /** The centred sum of squares `Sxx` vanishes exactly when all reference
      readings coincide, so the "all x identical" guard of
      `scipy.stats.linregress` is the `Sxx != 0` condition of the closed-form
      slope. */
  lemma SqDevZeroIffConstant(s: seq<Sample>)
    requires |s| > 0
    ensures SqDev(s, MeanRef(s)) == 0.0 <==> AllSameRef(s)
  {
    if !AllSameRef(s) {
      SqDevPositive(s);
    } else {
      var c := s[0].ref;
      forall i | 0 <= i < |s|
        ensures PointwiseCombination(s, RefOf, One, One, One, One, c, 0.0, 0.0, 0.0, i)
      {}
      SumOfCombine(s, RefOf, One, One, One, One, c, 0.0, 0.0, 0.0);
      SumOfOne(s);
      DivTimes(c, |s| as real);
      assert MeanRef(s) == c;
      SumOfZero(s, SqDevTerm(c));
    }
  }

  // ---------------------------------------------------------------------
  // Arithmetic facts, kept apart so that the solver sees them in isolation

  lemma ProductPositive(a: real, b: real, p: real)
    requires a > 0.0 && b > 0.0 && p == a * b
    ensures p > 0.0
  {}

  /** `y` is the square of a non-zero `x`. The square is passed as a value of
      its own so that callers can name the term it appears as. */
  lemma NonZeroSquare(x: real, y: real)
    requires x != 0.0 && y == x * x
    ensures y > 0.0
  {
    if x > 0.0 {
      ProductPositive(x, x, y);
    } else {
      ProductPositive(-x, -x, y);
    }
  }

  /** `y` is the square of `x`: it is non-negative, and zero exactly when `x` is. */
  lemma SquareZeroIff(x: real, y: real)
    requires y == x * x
    ensures y >= 0.0
    ensures y == 0.0 <==> x == 0.0
  {
    if x != 0.0 {
      NonZeroSquare(x, y);
    }
  }

  lemma Distribute(c: real, u: real, v: real, w: real)
    requires w == u + v
    ensures c * w == c * u + c * v
  {}

  lemma DivTimes(a: real, b: real)
    requires b != 0.0
    ensures a / b * b == a
  {}

  // ---------------------------------------------------------------------
  // Generic facts about SumOf

  /** At sample `i`, `f` is the linear combination of `g1` .. `g4` with
      coefficients `c1` .. `c4`. */
  predicate PointwiseCombination(s: seq<Sample>, f: Sample -> real,
                                 g1: Sample -> real, g2: Sample -> real,
                                 g3: Sample -> real, g4: Sample -> real,
                                 c1: real, c2: real, c3: real, c4: real, i: int)
    requires 0 <= i < |s|
  {
    f(s[i]) == c1 * g1(s[i]) + c2 * g2(s[i]) + c3 * g3(s[i]) + c4 * g4(s[i])
  }

  /** A sum of terms that are pointwise a linear combination of four other
      terms is the same linear combination of their sums. */
  lemma {:induction false} SumOfCombine(s: seq<Sample>, f: Sample -> real,
                                        g1: Sample -> real, g2: Sample -> real,
                                        g3: Sample -> real, g4: Sample -> real,
                                        c1: real, c2: real, c3: real, c4: real)
    requires forall i :: 0 <= i < |s| ==>
      PointwiseCombination(s, f, g1, g2, g3, g4, c1, c2, c3, c4, i)
    ensures SumOf(s, f)
         == c1 * SumOf(s, g1) + c2 * SumOf(s, g2) + c3 * SumOf(s, g3) + c4 * SumOf(s, g4)
  {
    if |s| > 0 {
      var t := s[1..];
      forall i | 0 <= i < |t|
        ensures PointwiseCombination(t, f, g1, g2, g3, g4, c1, c2, c3, c4, i)
      {
        assert t[i] == s[i + 1];
        assert PointwiseCombination(s, f, g1, g2, g3, g4, c1, c2, c3, c4, i + 1);
      }
      SumOfCombine(t, f, g1, g2, g3, g4, c1, c2, c3, c4);
      assert PointwiseCombination(s, f, g1, g2, g3, g4, c1, c2, c3, c4, 0);
      Distribute(c1, g1(s[0]), SumOf(t, g1), SumOf(s, g1));
      Distribute(c2, g2(s[0]), SumOf(t, g2), SumOf(s, g2));
      Distribute(c3, g3(s[0]), SumOf(t, g3), SumOf(s, g3));
      Distribute(c4, g4(s[0]), SumOf(t, g4), SumOf(s, g4));
    }
  }

  /** Non-negative terms have a non-negative sum. */
  lemma {:induction false} SumOfNonNegative(s: seq<Sample>, f: Sample -> real)
    requires forall i :: 0 <= i < |s| ==> f(s[i]) >= 0.0
    ensures SumOf(s, f) >= 0.0
  {
    if |s| > 0 {
      var t := s[1..];
      assert forall i :: 0 <= i < |t| ==> t[i] == s[i + 1];
      SumOfNonNegative(t, f);
    }
  }

  /** Non-negative terms, one of them positive, have a positive sum. */
  lemma {:induction false} SumOfPositive(s: seq<Sample>, f: Sample -> real, k: int)
    requires forall i :: 0 <= i < |s| ==> f(s[i]) >= 0.0
    requires 0 <= k < |s| && f(s[k]) > 0.0
    ensures SumOf(s, f) > 0.0
  {
    var t := s[1..];
    assert forall i :: 0 <= i < |t| ==> t[i] == s[i + 1];
    if k == 0 {
      SumOfNonNegative(t, f);
    } else {
      SumOfPositive(t, f, k - 1);
    }
  }

  lemma {:induction false} SumOfZero(s: seq<Sample>, f: Sample -> real)
    requires forall i :: 0 <= i < |s| ==> f(s[i]) == 0.0
    ensures SumOf(s, f) == 0.0
  {
    if |s| > 0 {
      var t := s[1..];
      assert forall i :: 0 <= i < |t| ==> t[i] == s[i + 1];
      SumOfZero(t, f);
    }
  }

  lemma {:induction false} SumOfOne(s: seq<Sample>)
    ensures SumOf(s, One) == |s| as real
  {
    if |s| > 0 {
      SumOfOne(s[1..]);
    }
  }

  lemma SqDevTermsNonNegative(s: seq<Sample>, m: real)
    ensures forall i :: 0 <= i < |s| ==> SqDevTerm(m)(s[i]) >= 0.0
  {
    forall i | 0 <= i < |s| ensures SqDevTerm(m)(s[i]) >= 0.0 {
      SquareZeroIff(s[i].ref - m, SqDevTerm(m)(s[i]));
    }
  }

  lemma SqDevTermPositive(sample: Sample, m: real)
    requires sample.ref != m
    ensures SqDevTerm(m)(sample) > 0.0
  {
    NonZeroSquare(sample.ref - m, SqDevTerm(m)(sample));
  }

  lemma SqDevNonNegative(s: seq<Sample>, m: real)
    ensures SumOf(s, SqDevTerm(m)) >= 0.0
  {
    SqDevTermsNonNegative(s, m);
    SumOfNonNegative(s, SqDevTerm(m));
  }

  lemma RssNonNegative(s: seq<Sample>, line: Line)
    ensures SumOf(s, SquaredResidualTerm(line)) >= 0.0
  {
    forall i | 0 <= i < |s| ensures SquaredResidualTerm(line)(s[i]) >= 0.0 {
      SquareZeroIff(Residual(line, s[i]), SquaredResidualTerm(line)(s[i]));
    }
    SumOfNonNegative(s, SquaredResidualTerm(line));
  }

  // ---------------------------------------------------------------------
  // The normal equations
  //
  // The `...Point` lemmas below state one sample's term as the linear
  // combination that `PointwiseCombination` expects, written with the same
  // coefficients (`1.0`, `0.0` and all) so that each instance matches the
  // predicate term for term. The `...Algebra` lemmas take sums and products as
  // plain values: the sums are then opaque symbols to the solver, which needs
  // no nonlinear reasoning about them to close the step.

  lemma ResidualPoint(x: real, y: real, a0: real, a1: real)
    ensures y - a0 - a1 * x == 1.0 * y + (-a0) * 1.0 + (-a1) * x + 0.0 * 1.0
  {}

  lemma MeanResidualAlgebra(n: real, sx: real, sy: real, mx: real, my: real, b1: real, sr: real)
    requires n > 0.0 && mx == sx / n && my == sy / n
    requires sr == 1.0 * sy + (-(my - b1 * mx)) * n + (-b1) * sx + 0.0 * n
    ensures sr == 0.0
  {
    DivTimes(sx, n);
    DivTimes(sy, n);
  }

  /** Every line through the centroid has residuals summing to zero. */
  lemma CentroidResidualSum(s: seq<Sample>, b1: real)
    requires |s| > 0
    ensures SumOf(s, ResidualTerm(CentroidLine(s, b1))) == 0.0
  {
    var fit := CentroidLine(s, b1);
    var c2, c3 := -fit.intercept, -b1;
    forall i | 0 <= i < |s|
      ensures PointwiseCombination(s, ResidualTerm(fit), LcsOf, One, RefOf, One, 1.0, c2, c3, 0.0, i)
    {
      ResidualPoint(s[i].ref, s[i].lcs, fit.intercept, b1);
    }
    SumOfCombine(s, ResidualTerm(fit), LcsOf, One, RefOf, One, 1.0, c2, c3, 0.0);
    SumOfOne(s);
    MeanResidualAlgebra(|s| as real, SumOf(s, RefOf), SumOf(s, LcsOf), MeanRef(s), MeanLcs(s), b1,
                        SumOf(s, ResidualTerm(fit)));
  }

  lemma RefResidualPoint(x: real, y: real, mx: real, my: real, b1: real)
    ensures var r := y - (my - b1 * mx) - b1 * x;
      x * r == 1.0 * ((x - mx) * (y - my)) + (-b1) * ((x - mx) * (x - mx)) + mx * r + 0.0 * 1.0
  {}

  /** For a line through the centroid with slope `b1`, the moment of the
      residuals about the reference readings is `Sxy - b1 * Sxx`. */
  lemma CentroidResidualMoment(s: seq<Sample>, b1: real)
    requires |s| > 0
    ensures SumOf(s, RefResidualTerm(CentroidLine(s, b1)))
         == SumOf(s, CrossDevTerm(MeanRef(s), MeanLcs(s))) - b1 * SumOf(s, SqDevTerm(MeanRef(s)))
                                                        + MeanRef(s) * SumOf(s, ResidualTerm(CentroidLine(s, b1)))
  {
    var mx, my := MeanRef(s), MeanLcs(s);
    var fit := CentroidLine(s, b1);
    var c2 := -b1;
    forall i | 0 <= i < |s|
      ensures PointwiseCombination(s, RefResidualTerm(fit), CrossDevTerm(mx, my), SqDevTerm(mx),
                                   ResidualTerm(fit), One, 1.0, c2, mx, 0.0, i)
    {
      RefResidualPoint(s[i].ref, s[i].lcs, mx, my, b1);
    }
    SumOfCombine(s, RefResidualTerm(fit), CrossDevTerm(mx, my), SqDevTerm(mx), ResidualTerm(fit), One,
                 1.0, c2, mx, 0.0);
  }

  lemma SlopeAlgebra(sxy: real, sxx: real, mx: real, rs: real, rm: real)
    requires sxx != 0.0 && rs == 0.0
    requires rm == sxy - sxy / sxx * sxx + mx * rs
    ensures rm == 0.0
  {
    DivTimes(sxy, sxx);
  }

  /** The least-squares line satisfies both normal equations: its residuals
      sum to zero, and so does their product with the reference readings. */
  lemma OlsNormalEquations(s: seq<Sample>)
    requires !AllSameRef(s)
    ensures SumOf(s, ResidualTerm(OlsFit(s))) == 0.0
    ensures SumOf(s, RefResidualTerm(OlsFit(s))) == 0.0
  {
    SqDevPositive(s);
    var mx, my := MeanRef(s), MeanLcs(s);
    var sxy, sxx := SumOf(s, CrossDevTerm(mx, my)), SumOf(s, SqDevTerm(mx));
    var b1 := sxy / sxx;
    assert OlsFit(s) == CentroidLine(s, b1);
    CentroidResidualSum(s, b1);
    CentroidResidualMoment(s, b1);
    SlopeAlgebra(sxy, sxx, mx, SumOf(s, ResidualTerm(OlsFit(s))), SumOf(s, RefResidualTerm(OlsFit(s))));
  }

  // ---------------------------------------------------------------------
  // Least squares: the fit minimises the residual sum of squares

  /** The coefficient-wise difference `a - b` of two lines. */
  function Difference(a: Line, b: Line): Line {
    Line(a.intercept - b.intercept, a.slope - b.slope)
  }

  /** The pointwise form of `RssShift`. The difference coefficients `d0, d1`
      and the cross-term coefficients `c2, c3` are parameters of their own so
      that the products `c2 * rb` and `d1 * x` appear exactly as callers
      write them; the solver does not identify `c * x` with `c' * x` for
      equal `c` and `c'` reliably. */
  lemma ShiftPoint(x: real, y: real, a0: real, a1: real, b0: real, b1: real,
                   d0: real, d1: real, c2: real, c3: real)
    requires d0 == a0 - b0 && d1 == a1 - b1
    requires c2 == -2.0 * d0 && c3 == -2.0 * d1
    ensures var rb := y - b0 - b1 * x;
      var p := d0 + d1 * x;
      (y - a0 - a1 * x) * (y - a0 - a1 * x)
        == 1.0 * (rb * rb) + c2 * rb + c3 * (x * rb) + 1.0 * (p * p)
  {}

  /** Moving from line `b` to line `a` changes the residual sum of squares by
      two cross terms with `b`'s residuals plus the squared difference line. */
  lemma RssShift(s: seq<Sample>, a: Line, b: Line, c2: real, c3: real)
    requires c2 == -2.0 * Difference(a, b).intercept && c3 == -2.0 * Difference(a, b).slope
    ensures Rss(s, a)
         == 1.0 * Rss(s, b) + c2 * SumOf(s, ResidualTerm(b)) + c3 * SumOf(s, RefResidualTerm(b))
          + 1.0 * SumOf(s, SquaredLineTerm(Difference(a, b)))
  {
    ShiftSum(s, a, b, Difference(a, b), c2, c3);
    assert Rss(s, a) == SumOf(s, SquaredResidualTerm(a));
    assert Rss(s, b) == SumOf(s, SquaredResidualTerm(b));
  }

  /** `ShiftPoint` summed over the samples, with `d` the difference line. */
  lemma ShiftSum(s: seq<Sample>, a: Line, b: Line, d: Line, c2: real, c3: real)
    requires d == Difference(a, b)
    requires c2 == -2.0 * d.intercept && c3 == -2.0 * d.slope
    ensures SumOf(s, SquaredResidualTerm(a))
         == 1.0 * SumOf(s, SquaredResidualTerm(b)) + c2 * SumOf(s, ResidualTerm(b))
          + c3 * SumOf(s, RefResidualTerm(b)) + 1.0 * SumOf(s, SquaredLineTerm(d))
  {
    ShiftPointwise(s, a, b, d, c2, c3);
    SumOfCombine(s, SquaredResidualTerm(a), SquaredResidualTerm(b), ResidualTerm(b),
                 RefResidualTerm(b), SquaredLineTerm(d), 1.0, c2, c3, 1.0);
  }

  /** `ShiftPoint` at every sample. */
  lemma ShiftPointwise(s: seq<Sample>, a: Line, b: Line, d: Line, c2: real, c3: real)
    requires d == Difference(a, b)
    requires c2 == -2.0 * d.intercept && c3 == -2.0 * d.slope
    ensures forall i | 0 <= i < |s| ::
      PointwiseCombination(s, SquaredResidualTerm(a), SquaredResidualTerm(b), ResidualTerm(b),
                           RefResidualTerm(b), SquaredLineTerm(d), 1.0, c2, c3, 1.0, i)
  {
    forall i | 0 <= i < |s|
      ensures PointwiseCombination(s, SquaredResidualTerm(a), SquaredResidualTerm(b), ResidualTerm(b),
                                   RefResidualTerm(b), SquaredLineTerm(d), 1.0, c2, c3, 1.0, i)
    {
      ShiftPoint(s[i].ref, s[i].lcs, a.intercept, a.slope, b.intercept, b.slope, d.intercept, d.slope, c2, c3);
    }
  }

  lemma ShiftAlgebra(ra: real, rb: real, c2: real, s2: real, c3: real, s3: real, q: real)
    requires ra == 1.0 * rb + c2 * s2 + c3 * s3 + 1.0 * q
    requires s2 == 0.0 && s3 == 0.0
    ensures ra == rb + q
  {}

  lemma ProductZero(a: real, b: real)
    requires a != 0.0 && a * b == 0.0
    ensures b == 0.0
  {}

  /** A line vanishing at two distinct abscissae is the zero line. */
  lemma TwoRoots(d0: real, d1: real, x0: real, x1: real)
    requires x0 != x1
    requires d0 + d1 * x0 == 0.0 && d0 + d1 * x1 == 0.0
    ensures d0 == 0.0 && d1 == 0.0
  {
    assert (x1 - x0) * d1 == 0.0;
    ProductZero(x1 - x0, d1);
  }

  /** A non-zero line does not vanish at every reference reading once two of
      them differ. */
  lemma LineNonZeroSomewhere(s: seq<Sample>, d: Line)
    requires !AllSameRef(s) && d != Line(0.0, 0.0)
    ensures exists k :: 0 <= k < |s| && Predict(d, s[k].ref) != 0.0
  {
    var i :| 0 <= i < |s| && s[i].ref != s[0].ref;
    if Predict(d, s[0].ref) == 0.0 && Predict(d, s[i].ref) == 0.0 {
      TwoRoots(d.intercept, d.slope, s[0].ref, s[i].ref);
      assert false;
    }
  }

  lemma SquaredLineNonNegative(s: seq<Sample>, d: Line)
    ensures forall i :: 0 <= i < |s| ==> SquaredLineTerm(d)(s[i]) >= 0.0
  {
    forall i | 0 <= i < |s| ensures SquaredLineTerm(d)(s[i]) >= 0.0 {
      SquareZeroIff(Predict(d, s[i].ref), SquaredLineTerm(d)(s[i]));
    }
  }

  lemma SquaredLineTermPositive(sample: Sample, d: Line)
    requires Predict(d, sample.ref) != 0.0
    ensures SquaredLineTerm(d)(sample) > 0.0
  {
    NonZeroSquare(Predict(d, sample.ref), SquaredLineTerm(d)(sample));
  }

  /** Summed over samples with two distinct reference readings, the squared
      values of a line are positive unless the line is zero. */
  lemma SquaredLineSum(s: seq<Sample>, d: Line)
    requires !AllSameRef(s)
    ensures SumOf(s, SquaredLineTerm(d)) >= 0.0
    ensures d != Line(0.0, 0.0) ==> SumOf(s, SquaredLineTerm(d)) > 0.0
  {
    SquaredLineNonNegative(s, d);
    SumOfNonNegative(s, SquaredLineTerm(d));
    if d != Line(0.0, 0.0) {
      LineNonZeroSomewhere(s, d);
      var k :| 0 <= k < |s| && Predict(d, s[k].ref) != 0.0;
      SquaredLineTermPositive(s[k], d);
      SumOfPositive(s, SquaredLineTerm(d), k);
    }
  }

  /** The least-squares line has the smallest residual sum of squares of all
      lines, and every other line has a strictly larger one. */
  lemma OlsMinimisesRss(s: seq<Sample>, line: Line)
    requires !AllSameRef(s)
    ensures Rss(s, OlsFit(s)) <= Rss(s, line)
    ensures line != OlsFit(s) ==> Rss(s, OlsFit(s)) < Rss(s, line)
  {
    var fit := OlsFit(s);
    var d := Difference(line, fit);
    OlsNormalEquations(s);
    var c2, c3 := -2.0 * d.intercept, -2.0 * d.slope;
    RssShift(s, line, fit, c2, c3);
    ShiftAlgebra(Rss(s, line), Rss(s, fit), c2, SumOf(s, ResidualTerm(fit)),
                 c3, SumOf(s, RefResidualTerm(fit)), SumOf(s, SquaredLineTerm(d)));
    SquaredLineSum(s, d);
  }

  /** When one line fits every sample exactly, least squares recovers that
      line and leaves no residual. */
  lemma OlsRecoversExactLine(s: seq<Sample>, line: Line)
    requires !AllSameRef(s)
    requires forall i :: 0 <= i < |s| ==> Residual(line, s[i]) == 0.0
    ensures OlsFit(s) == line
    ensures Rss(s, OlsFit(s)) == 0.0
  {
    forall i | 0 <= i < |s| ensures SquaredResidualTerm(line)(s[i]) == 0.0 {
      SquareZeroIff(Residual(line, s[i]), SquaredResidualTerm(line)(s[i]));
    }
    SumOfZero(s, SquaredResidualTerm(line));
    OlsMinimisesRss(s, line);
  }

  lemma TwoPointLine(x0: real, y0: real, x1: real, y1: real)
    requires x0 != x1
    ensures var b1 := (y1 - y0) / (x1 - x0);
      && y0 - (y0 - b1 * x0) - b1 * x0 == 0.0
      && y1 - (y0 - b1 * x0) - b1 * x1 == 0.0
  {
    DivTimes(y1 - y0, x1 - x0);
  }

  /** Two samples with distinct reference readings are fitted exactly: the
      least-squares line passes through both and leaves no residual. */
  lemma TwoSamplesFitExactly(s: seq<Sample>)
    requires |s| == 2 && !AllSameRef(s)
    ensures Rss(s, OlsFit(s)) == 0.0
  {
    var b1 := (s[1].lcs - s[0].lcs) / (s[1].ref - s[0].ref);
    var line := Line(s[0].lcs - b1 * s[0].ref, b1);
    TwoPointLine(s[0].ref, s[0].lcs, s[1].ref, s[1].lcs);
    assert Residual(line, s[0]) == 0.0 && Residual(line, s[1]) == 0.0;
    OlsRecoversExactLine(s, line);
  }
}
