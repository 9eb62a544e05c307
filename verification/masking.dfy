/** Step 1 of the estimator: drop every position where either instrument
    has no reading, keeping the survivors paired and in their original order. */
module Masking {
  import opened Wrappers

  /** One reading as delivered by an instrument; `None` stands for NaN. */
  type Reading = Option<real>

  /** A retained sample: the reference reading and the secondary
      (low-cost sensor) reading taken at the same position. */
  datatype Sample = Sample(ref: real, lcs: real)

  /** Position `i` survives the mask: both instruments report a value there. */
  predicate Present(ref: seq<Reading>, lcs: seq<Reading>, i: int)
    requires |ref| == |lcs|
  {
    0 <= i < |ref| && ref[i].Some? && lcs[i].Some?
  }

  /** The positions the mask keeps, in increasing order. */
  function KeptIndices(ref: seq<Reading>, lcs: seq<Reading>): (idx: seq<nat>)
    requires |ref| == |lcs|
    ensures forall j :: 0 <= j < |idx| ==> Present(ref, lcs, idx[j])
    ensures forall a, b :: 0 <= a < b < |idx| ==> idx[a] < idx[b]
    ensures forall i :: Present(ref, lcs, i) ==> i in idx
  {
    if |ref| == 0 then []
    else
      var n := |ref| - 1;
      KeptIndices(ref[..n], lcs[..n]) + (if ref[n].Some? && lcs[n].Some? then [n] else [])
  }

  /** The masked, paired samples: `ref[mask]` and `lcs[mask]` zipped together. */
  function Filter(ref: seq<Reading>, lcs: seq<Reading>): (s: seq<Sample>)
    requires |ref| == |lcs|
    ensures |s| == |KeptIndices(ref, lcs)|
    ensures forall j :: 0 <= j < |s| ==>
      var i := KeptIndices(ref, lcs)[j];
      s[j] == Sample(ref[i].value, lcs[i].value)
  {
    if |ref| == 0 then []
    else
      var n := |ref| - 1;
      Filter(ref[..n], lcs[..n])
        + (if ref[n].Some? && lcs[n].Some? then [Sample(ref[n].value, lcs[n].value)] else [])
  }

  /** With no missing reading at all, nothing is dropped and nothing moves. */
  lemma {:induction false} FilterKeepsComplete(ref: seq<Reading>, lcs: seq<Reading>)
    requires |ref| == |lcs|
    requires forall i :: 0 <= i < |ref| ==> ref[i].Some? && lcs[i].Some?
    ensures |Filter(ref, lcs)| == |ref|
    ensures forall i :: 0 <= i < |ref| ==> Filter(ref, lcs)[i] == Sample(ref[i].value, lcs[i].value)
  {
    KeptAll(ref, lcs);
  }

  lemma {:induction false} KeptAll(ref: seq<Reading>, lcs: seq<Reading>)
    requires |ref| == |lcs|
    requires forall i :: 0 <= i < |ref| ==> ref[i].Some? && lcs[i].Some?
    ensures |KeptIndices(ref, lcs)| == |ref|
    ensures forall j :: 0 <= j < |ref| ==> KeptIndices(ref, lcs)[j] == j
  {
    if |ref| > 0 {
      var n := |ref| - 1;
      KeptAll(ref[..n], lcs[..n]);
      assert KeptIndices(ref, lcs) == KeptIndices(ref[..n], lcs[..n]) + [n];
    }
  }
}
