/** The relative expanded uncertainty of a secondary instrument against a
    reference instrument, end to end: drop the pairs with a missing reading,
    fit `lcs = b0 + b1 * ref` by ordinary least squares, take the residual
    variance `rss / (n - 2)` and report, for every kept pair,
    `k * sqrt(sigma2 - u_xi^2 + (b0 + (b1 - 1) * ref)^2) * 100 / lcs`. */
module ReuEstimator {
  import opened Wrappers
  import opened Masking
  import opened Regression
  import opened Uncertainty

  /** The ways the whole computation fails: the two series differ in length,
      no pair survives the masking, or the kept reference readings are all
      equal so that no line can be fitted. */
  datatype Error = ShapeMismatch | EmptySample | ConstantReference

  /** The estimate for one kept sample, given the fit and the residual
      variance (`None` when that variance is undefined). It is defined exactly
      when the variance is, the radicand is not negative and `lcs` is not
      zero, and then it times `lcs` is `k * sqrt(radicand) * 100`. */
  function SampleEstimate(sample: Sample, fit: Line, sigma2: Option<real>, uxi: real, k: real,
                          sqrt: real -> real): (r: Option<real>)
    ensures r.Some? <==>
      sigma2.Some? && Radicand(sigma2.value, uxi, IdentityDeviation(fit, sample.ref)) >= 0.0 && sample.lcs != 0.0
    ensures r.Some? ==>
      r.value * sample.lcs == k * sqrt(Radicand(sigma2.value, uxi, IdentityDeviation(fit, sample.ref))) * 100.0
  {
    match sigma2
    case None => None
    case Some(v) => SampleReu(v, uxi, IdentityDeviation(fit, sample.ref), sample.lcs, k, sqrt)
  }

  /** The estimator. One entry per kept pair, in input order; `None` marks an
      entry the floating-point computation leaves undefined (NaN or an
      infinity). A single kept pair gives an undefined slope and hence one
      undefined entry. */
  function Reu(ref: seq<Reading>, lcs: seq<Reading>, uxi: real, k: real,
               sqrt: real -> real): (r: Result<seq<Option<real>>, Error>)
    ensures r == Failure(ShapeMismatch) <==> |ref| != |lcs|
    ensures |ref| == |lcs| ==>
      (r == Failure(EmptySample) <==> |KeptIndices(ref, lcs)| == 0)
    ensures |ref| == |lcs| ==>
      (r == Failure(ConstantReference) <==> |KeptIndices(ref, lcs)| >= 2 && AllSameRef(Filter(ref, lcs)))
    ensures r.Success? ==> |r.value| == |KeptIndices(ref, lcs)|
  {
    if |ref| != |lcs| then
      Failure(ShapeMismatch)
    else
      var s := Filter(ref, lcs);
      if |s| == 0 then
        Failure(EmptySample)
      else if |s| == 1 then
        Success([None])
      else if AllSameRef(s) then
        Failure(ConstantReference)
      else
        Success(Estimates(s, uxi, k, sqrt))
  }

  /** The estimates for kept samples whose reference readings vary: fit,
      residual variance, then one estimate per sample. */
  function Estimates(s: seq<Sample>, uxi: real, k: real, sqrt: real -> real): (e: seq<Option<real>>)
    requires !AllSameRef(s)
    ensures |e| == |s|
  {
    var fit := OlsFit(s);
    var sigma2 := ResidualVariance(s, fit);
    seq(|s|, j requires 0 <= j < |s| => SampleEstimate(s[j], fit, sigma2, uxi, k, sqrt))
  }

  // ---------------------------------------------------------------------
  // Shape of the result

  /** The inputs for which a line is fitted and the estimates computed. */
  predicate Fitted(ref: seq<Reading>, lcs: seq<Reading>) {
    |ref| == |lcs| && |Filter(ref, lcs)| >= 2 && !AllSameRef(Filter(ref, lcs))
  }

  lemma ReuFitted(ref: seq<Reading>, lcs: seq<Reading>, uxi: real, k: real, sqrt: real -> real)
    requires Fitted(ref, lcs)
    ensures Reu(ref, lcs, uxi, k, sqrt) == Success(Estimates(Filter(ref, lcs), uxi, k, sqrt))
  {}

  /** Without a fit, the outcome does not depend on `u_xi`, `k` or the root. */
  lemma ReuUnfitted(ref: seq<Reading>, lcs: seq<Reading>, uxi: real, k: real, sqrt: real -> real,
                    uxi': real, k': real, sqrt': real -> real)
    requires !Fitted(ref, lcs)
    ensures Reu(ref, lcs, uxi, k, sqrt) == Reu(ref, lcs, uxi', k', sqrt')
  {}

  /** Entry `j` of the result is the estimate of input pair
      `KeptIndices(ref, lcs)[j]`, computed from the least-squares fit over
      all kept pairs and its residual variance. */
  lemma ReuEntries(ref: seq<Reading>, lcs: seq<Reading>, uxi: real, k: real, sqrt: real -> real)
    requires |ref| == |lcs|
    requires |KeptIndices(ref, lcs)| >= 2 && !AllSameRef(Filter(ref, lcs))
    ensures var r := Reu(ref, lcs, uxi, k, sqrt);
      var s := Filter(ref, lcs);
      var fit := OlsFit(s);
      && r.Success?
      && forall j :: 0 <= j < |r.value| ==>
           var i := KeptIndices(ref, lcs)[j];
           r.value[j] == SampleEstimate(Sample(ref[i].value, lcs[i].value), fit,
                                        ResidualVariance(s, fit), uxi, k, sqrt)
  {}

  /** A single kept pair gives one undefined entry. */
  lemma ReuSingleSample(ref: seq<Reading>, lcs: seq<Reading>, uxi: real, k: real, sqrt: real -> real)
    requires |ref| == |lcs| && |KeptIndices(ref, lcs)| == 1
    ensures Reu(ref, lcs, uxi, k, sqrt) == Success([None])
  {}

  /** Two kept pairs: the line passes through both, so the residual sum of
      squares is zero, the residual variance `0 / 0` is undefined, and so is
      every entry. */
  lemma ReuTwoSamples(ref: seq<Reading>, lcs: seq<Reading>, uxi: real, k: real, sqrt: real -> real)
    requires |ref| == |lcs| && |KeptIndices(ref, lcs)| == 2 && !AllSameRef(Filter(ref, lcs))
    ensures Rss(Filter(ref, lcs), OlsFit(Filter(ref, lcs))) == 0.0
    ensures Reu(ref, lcs, uxi, k, sqrt) == Success([None, None])
  {
    var s := Filter(ref, lcs);
    TwoSamplesFitExactly(s);
    var e := Estimates(s, uxi, k, sqrt);
    assert e[0] == None && e[1] == None;
    assert e == [None, None];
  }

  // ---------------------------------------------------------------------
  // Perfect agreement

  lemma EstimatesPerfectAgreement(s: seq<Sample>, k: real, sqrt: real -> real)
    requires IsSqrt(sqrt) && |s| > 2 && !AllSameRef(s)
    requires forall j :: 0 <= j < |s| ==> s[j].lcs == s[j].ref
    ensures OlsFit(s) == Line(0.0, 1.0) && Rss(s, OlsFit(s)) == 0.0
    ensures forall j :: 0 <= j < |s| ==>
      Estimates(s, 0.0, k, sqrt)[j] == if s[j].lcs == 0.0 then None else Some(0.0)
  {
    var fit := Line(0.0, 1.0);
    forall j | 0 <= j < |s| ensures Residual(fit, s[j]) == 0.0 {}
    OlsRecoversExactLine(s, fit);
    assert ResidualVariance(s, fit) == Some(0.0);
    forall j | 0 <= j < |s|
      ensures Estimates(s, 0.0, k, sqrt)[j] == if s[j].lcs == 0.0 then None else Some(0.0)
    {
      assert IdentityDeviation(fit, s[j].ref) == 0.0;
      assert Estimates(s, 0.0, k, sqrt)[j] == SampleReu(0.0, 0.0, 0.0, s[j].lcs, k, sqrt);
      SampleReuZero(s[j].lcs, k, sqrt);
    }
  }

  /** When every kept secondary reading equals its reference reading (and
      the reference readings vary), the fit is the 1:1 line, nothing is left
      over, and with `u_xi = 0` every entry is zero, except those whose
      secondary reading is zero. */
  lemma ReuPerfectAgreement(ref: seq<Reading>, lcs: seq<Reading>, k: real, sqrt: real -> real)
    requires |ref| == |lcs| && IsSqrt(sqrt)
    requires forall i :: Present(ref, lcs, i) ==> lcs[i].value == ref[i].value
    requires |KeptIndices(ref, lcs)| > 2 && !AllSameRef(Filter(ref, lcs))
    ensures OlsFit(Filter(ref, lcs)) == Line(0.0, 1.0)
    ensures Rss(Filter(ref, lcs), OlsFit(Filter(ref, lcs))) == 0.0
    ensures var r := Reu(ref, lcs, 0.0, k, sqrt);
      && r.Success?
      && forall j :: 0 <= j < |r.value| ==>
           r.value[j] == if Filter(ref, lcs)[j].lcs == 0.0 then None else Some(0.0)
  {
    var s := Filter(ref, lcs);
    forall j | 0 <= j < |s| ensures s[j].lcs == s[j].ref {
      assert Present(ref, lcs, KeptIndices(ref, lcs)[j]);
    }
    EstimatesPerfectAgreement(s, k, sqrt);
  }

  // ---------------------------------------------------------------------
  // Dependence on the parameters

  lemma EstimatesLinearInK(s: seq<Sample>, uxi: real, k: real, c: real, ck: real,
                           sqrt: real -> real)
    requires ck == c * k && !AllSameRef(s)
    ensures forall j :: 0 <= j < |s| ==>
      Estimates(s, uxi, ck, sqrt)[j] == ScaleEntry(Estimates(s, uxi, k, sqrt)[j], c)
  {
    var fit := OlsFit(s);
    var sigma2 := ResidualVariance(s, fit);
    forall j | 0 <= j < |s|
      ensures Estimates(s, uxi, ck, sqrt)[j] == ScaleEntry(Estimates(s, uxi, k, sqrt)[j], c)
    {
      assert Estimates(s, uxi, k, sqrt)[j] == SampleEstimate(s[j], fit, sigma2, uxi, k, sqrt);
      assert Estimates(s, uxi, ck, sqrt)[j] == SampleEstimate(s[j], fit, sigma2, uxi, ck, sqrt);
      if sigma2.Some? {
        SampleReuLinearInK(sigma2.value, uxi, IdentityDeviation(fit, s[j].ref), s[j].lcs, k, c, ck, sqrt);
      }
    }
  }

  /** The estimator is linear in the coverage factor `k`: scaling `k` by `c`
      (to `ck`) leaves a failure as it is, and on success scales every
      defined entry by `c` and leaves every undefined entry undefined. */
  lemma ReuLinearInK(ref: seq<Reading>, lcs: seq<Reading>, uxi: real, k: real, c: real, ck: real,
                     sqrt: real -> real)
    requires ck == c * k
    ensures Reu(ref, lcs, uxi, k, sqrt).Failure? ==>
      Reu(ref, lcs, uxi, ck, sqrt) == Reu(ref, lcs, uxi, k, sqrt)
    ensures Reu(ref, lcs, uxi, k, sqrt).Success? ==>
      var e, e' := Reu(ref, lcs, uxi, k, sqrt).value, Reu(ref, lcs, uxi, ck, sqrt).value;
      && Reu(ref, lcs, uxi, ck, sqrt).Success?
      && |e'| == |e|
      && forall j :: 0 <= j < |e| ==> e'[j] == ScaleEntry(e[j], c)
  {
    if Fitted(ref, lcs) {
      ReuFitted(ref, lcs, uxi, k, sqrt);
      ReuFitted(ref, lcs, uxi, ck, sqrt);
      EstimatesLinearInK(Filter(ref, lcs), uxi, k, c, ck, sqrt);
    } else {
      ReuUnfitted(ref, lcs, uxi, k, sqrt, uxi, ck, sqrt);
      assert Reu(ref, lcs, uxi, k, sqrt).Success? ==> Reu(ref, lcs, uxi, k, sqrt).value == [None];
    }
  }

  lemma EstimatesMonotoneInUxi(s: seq<Sample>, u1: real, u2: real, k: real, sqrt: real -> real)
    requires !AllSameRef(s) && IsSqrt(sqrt) && u1 * u1 <= u2 * u2 && k >= 0.0
    ensures forall j :: 0 <= j < |s| && Estimates(s, u2, k, sqrt)[j].Some? && s[j].lcs > 0.0 ==>
      && Estimates(s, u1, k, sqrt)[j].Some?
      && 0.0 <= Estimates(s, u2, k, sqrt)[j].value <= Estimates(s, u1, k, sqrt)[j].value
  {
    var fit := OlsFit(s);
    var sigma2 := ResidualVariance(s, fit);
    forall j | 0 <= j < |s| && Estimates(s, u2, k, sqrt)[j].Some? && s[j].lcs > 0.0
      ensures Estimates(s, u1, k, sqrt)[j].Some?
      ensures 0.0 <= Estimates(s, u2, k, sqrt)[j].value <= Estimates(s, u1, k, sqrt)[j].value
    {
      var ec := IdentityDeviation(fit, s[j].ref);
      SampleReuMonotoneInUxi(sigma2.value, u1, u2, ec, s[j].lcs, k, sqrt);
      SampleReuNonNegative(sigma2.value, u2, ec, s[j].lcs, k, sqrt);
    }
  }

  /** For a non-negative `k`, a defined entry whose secondary reading is
      positive is non-negative, raising `|u_xi|` never raises it, and the
      entry stays defined at the smaller `|u_xi|`. */
  lemma ReuMonotoneInUxi(ref: seq<Reading>, lcs: seq<Reading>, u1: real, u2: real, k: real,
                         sqrt: real -> real)
    requires IsSqrt(sqrt) && u1 * u1 <= u2 * u2 && k >= 0.0
    ensures Reu(ref, lcs, u1, k, sqrt).Success? == Reu(ref, lcs, u2, k, sqrt).Success?
    ensures Reu(ref, lcs, u2, k, sqrt).Success? ==>
      var e1, e2 := Reu(ref, lcs, u1, k, sqrt).value, Reu(ref, lcs, u2, k, sqrt).value;
      && |e1| == |e2|
      && forall j :: 0 <= j < |e2| && e2[j].Some? && Filter(ref, lcs)[j].lcs > 0.0 ==>
           e1[j].Some? && 0.0 <= e2[j].value <= e1[j].value
  {
    if |ref| == |lcs| {
      var s := Filter(ref, lcs);
      if |s| >= 2 && !AllSameRef(s) {
        assert Reu(ref, lcs, u1, k, sqrt) == Success(Estimates(s, u1, k, sqrt));
        assert Reu(ref, lcs, u2, k, sqrt) == Success(Estimates(s, u2, k, sqrt));
        EstimatesMonotoneInUxi(s, u1, u2, k, sqrt);
      }
    }
  }

  lemma EstimatesStrictlyMonotoneInUxi(s: seq<Sample>, u1: real, u2: real, k: real,
                                       sqrt: real -> real)
    requires !AllSameRef(s) && IsSqrt(sqrt) && u1 * u1 < u2 * u2 && k > 0.0
    ensures forall j :: 0 <= j < |s| && Estimates(s, u2, k, sqrt)[j].Some? ==>
      && Estimates(s, u1, k, sqrt)[j].Some?
      && Abs(Estimates(s, u2, k, sqrt)[j].value) < Abs(Estimates(s, u1, k, sqrt)[j].value)
      && (s[j].lcs > 0.0 ==> Estimates(s, u2, k, sqrt)[j].value < Estimates(s, u1, k, sqrt)[j].value)
      && (s[j].lcs < 0.0 ==> Estimates(s, u1, k, sqrt)[j].value < Estimates(s, u2, k, sqrt)[j].value)
  {
    var fit := OlsFit(s);
    var sigma2 := ResidualVariance(s, fit);
    forall j | 0 <= j < |s| && Estimates(s, u2, k, sqrt)[j].Some?
      ensures Estimates(s, u1, k, sqrt)[j].Some?
      ensures Abs(Estimates(s, u2, k, sqrt)[j].value) < Abs(Estimates(s, u1, k, sqrt)[j].value)
      ensures s[j].lcs > 0.0 ==> Estimates(s, u2, k, sqrt)[j].value < Estimates(s, u1, k, sqrt)[j].value
      ensures s[j].lcs < 0.0 ==> Estimates(s, u1, k, sqrt)[j].value < Estimates(s, u2, k, sqrt)[j].value
    {
      var ec := IdentityDeviation(fit, s[j].ref);
      assert Estimates(s, u1, k, sqrt)[j] == SampleEstimate(s[j], fit, sigma2, u1, k, sqrt);
      assert Estimates(s, u2, k, sqrt)[j] == SampleEstimate(s[j], fit, sigma2, u2, k, sqrt);
      SampleReuStrictlyMonotoneInUxi(sigma2.value, u1, u2, ec, s[j].lcs, k, sqrt);
    }
  }

  /** For a positive `k`, a strictly larger `|u_xi|` strictly shrinks the
      magnitude of every defined entry (lowering those with a positive
      secondary reading, raising those with a negative one), and the entry
      stays defined at the smaller `|u_xi|`. */
  lemma ReuStrictlyMonotoneInUxi(ref: seq<Reading>, lcs: seq<Reading>, u1: real, u2: real, k: real,
                                 sqrt: real -> real)
    requires IsSqrt(sqrt) && u1 * u1 < u2 * u2 && k > 0.0
    ensures Reu(ref, lcs, u1, k, sqrt).Success? == Reu(ref, lcs, u2, k, sqrt).Success?
    ensures Reu(ref, lcs, u2, k, sqrt).Success? ==>
      var e1, e2 := Reu(ref, lcs, u1, k, sqrt).value, Reu(ref, lcs, u2, k, sqrt).value;
      && |e1| == |e2|
      && forall j :: 0 <= j < |e2| && e2[j].Some? ==>
           && e1[j].Some?
           && Abs(e2[j].value) < Abs(e1[j].value)
           && (Filter(ref, lcs)[j].lcs > 0.0 ==> e2[j].value < e1[j].value)
           && (Filter(ref, lcs)[j].lcs < 0.0 ==> e1[j].value < e2[j].value)
  {
    if Fitted(ref, lcs) {
      ReuFitted(ref, lcs, u1, k, sqrt);
      ReuFitted(ref, lcs, u2, k, sqrt);
      EstimatesStrictlyMonotoneInUxi(Filter(ref, lcs), u1, u2, k, sqrt);
    } else {
      ReuUnfitted(ref, lcs, u1, k, sqrt, u2, k, sqrt);
      assert Reu(ref, lcs, u2, k, sqrt).Success? ==> Reu(ref, lcs, u2, k, sqrt).value == [None];
    }
  }

  // ---------------------------------------------------------------------
  // A worked example

  /** Four input pairs, one of them missing its reference reading: pairs 0,
      2 and 3 are kept. */
  lemma ExampleKept()
    ensures KeptIndices([Some(1.0), None, Some(2.0), Some(3.0)],
                        [Some(1.5), Some(9.0), Some(2.5), Some(3.5)]) == [0, 2, 3]
  {
    var ref := [Some(1.0), None, Some(2.0), Some(3.0)];
    var lcs := [Some(1.5), Some(9.0), Some(2.5), Some(3.5)];
    assert ref[..3][..2][..1] == ref[..1] && lcs[..3][..2][..1] == lcs[..1];
    assert ref[..3][..2] == ref[..2] && lcs[..3][..2] == lcs[..2];
    assert ref[..4] == ref && lcs[..4] == lcs;
    assert KeptIndices(ref[..1], lcs[..1]) == [0];
    assert KeptIndices(ref[..2], lcs[..2]) == [0];
    assert KeptIndices(ref[..3], lcs[..3]) == [0, 2];
  }

  /** The kept pairs, in input order. */
  lemma ExampleMasking()
    ensures Filter([Some(1.0), None, Some(2.0), Some(3.0)],
                   [Some(1.5), Some(9.0), Some(2.5), Some(3.5)])
         == [Sample(1.0, 1.5), Sample(2.0, 2.5), Sample(3.0, 3.5)]
  {
    var ref := [Some(1.0), None, Some(2.0), Some(3.0)];
    var lcs := [Some(1.5), Some(9.0), Some(2.5), Some(3.5)];
    ExampleKept();
    var s := Filter(ref, lcs);
    assert |s| == 3;
    assert s[0] == Sample(1.0, 1.5) && s[1] == Sample(2.0, 2.5) && s[2] == Sample(3.0, 3.5);
  }

  /** The kept pairs of the example lie on `lcs = 0.5 + ref`: the residual
      variance is zero and every `ec` is `0.25`, so with `u_xi = 0` and
      `k = 2` each entry is `2 * 0.5 * 100 / lcs`. */
  lemma ExampleEstimates(sqrt: real -> real)
    requires IsSqrt(sqrt)
    ensures var s := [Sample(1.0, 1.5), Sample(2.0, 2.5), Sample(3.0, 3.5)];
      && !AllSameRef(s)
      && OlsFit(s) == Line(0.5, 1.0)
      && Estimates(s, 0.0, 2.0, sqrt) == [Some(100.0 / 1.5), Some(40.0), Some(100.0 / 3.5)]
  {
    var s := [Sample(1.0, 1.5), Sample(2.0, 2.5), Sample(3.0, 3.5)];
    assert s[1].ref != s[0].ref;
    var fit := Line(0.5, 1.0);
    OlsRecoversExactLine(s, fit);
    assert ResidualVariance(s, fit) == Some(0.0);
    SqrtOfSquare(sqrt, 0.5, 0.25);
    var e := Estimates(s, 0.0, 2.0, sqrt);
    forall j | 0 <= j < 3 ensures e[j] == Some(100.0 / s[j].lcs) {
      assert IdentityDeviation(fit, s[j].ref) == 0.25;
    }
  }

  /** The example end to end: three entries for four input pairs. */
  lemma ReuExample(sqrt: real -> real)
    requires IsSqrt(sqrt)
    ensures var ref := [Some(1.0), None, Some(2.0), Some(3.0)];
      var lcs := [Some(1.5), Some(9.0), Some(2.5), Some(3.5)];
      Reu(ref, lcs, 0.0, 2.0, sqrt) == Success([Some(100.0 / 1.5), Some(40.0), Some(100.0 / 3.5)])
  {
    ExampleMasking();
    ExampleEstimates(sqrt);
  }
}
