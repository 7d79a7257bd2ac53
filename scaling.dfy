/**
 * Feature-wise min-max scaling as pure functions of the fitted parameters:
 * fitting records, per selected feature, the least and greatest value over
 * all samples; transforming maps a selected feature to
 * (x - min) / (max - min) and its inverse maps it back with
 * x * (max - min) + min; every other feature passes through.
 */
module Scaling {
  import opened Wrappers
  import opened Arrays

  datatype ScalerError =
    | NotFitted        // transform or inverse before fit
    | AxisOutOfRange   // the feature axis is not a dimension of the input
    | ShapeMismatch    // ragged input, or feature count unlike the fitted one
    | IndexOutOfRange  // a selected feature index beyond the feature axis
    | EmptyInput       // no sample to take a minimum or maximum over

  /** The fitted state: `min[k]` and `max[k]` belong to the k-th selected
      feature; `indices == None` selects every feature of the axis. */
  datatype Params = Params(min: seq<real>, max: seq<real>, indices: Option<seq<nat>>)

  /** Feature positions the scaler applies to, in `indices` order. */
  function Selection(indices: Option<seq<nat>>, dim: nat): (sel: seq<nat>)
    ensures indices.Some? ==> sel == indices.value
    ensures indices.None? ==> |sel| == dim && forall k :: 0 <= k < dim ==> sel[k] == k
  {
    match indices
    case None => seq(dim, k => k)
    case Some(ix) => ix
  }

  predicate Selected(indices: Option<seq<nat>>, f: nat)
  {
    indices.None? || f in indices.value
  }

  predicate IndicesInRange(indices: Option<seq<nat>>, dim: nat)
  {
    indices.Some? ==> forall k :: 0 <= k < |indices.value| ==> indices.value[k] < dim
  }

  /** The input can be fitted along `axis` with these indices. */
  predicate Fittable(a: NdArray, indices: Option<seq<nat>>, axis: nat)
  {
    && axis < Rank(a)
    && WellShaped(a)
    && IndicesInRange(indices, Shape(a)[axis])
    && HasSamples(a, axis)
  }

  function Fit(a: NdArray, indices: Option<seq<nat>>, axis: nat): (r: Result<Params, ScalerError>)
    ensures r.Ok? <==> Fittable(a, indices, axis)
    ensures axis >= Rank(a) ==> r == Err(AxisOutOfRange)
    ensures axis < Rank(a) && !WellShaped(a) ==> r == Err(ShapeMismatch)
    ensures axis < Rank(a) && WellShaped(a) && !IndicesInRange(indices, Shape(a)[axis]) ==>
              r == Err(IndexOutOfRange)
    ensures (axis < Rank(a) && WellShaped(a) && IndicesInRange(indices, Shape(a)[axis]) &&
             !HasSamples(a, axis)) ==> r == Err(EmptyInput)
    ensures r.Ok? ==>
              var sel := Selection(indices, Shape(a)[axis]);
              && r.value.indices == indices
              && |r.value.min| == |r.value.max| == |sel|
              && forall k :: 0 <= k < |sel| ==>
                   var fv := FeatureValues(a, axis, sel[k]);
                   && |fv| > 0
                   && r.value.min[k] in fv && r.value.max[k] in fv
                   && (forall i :: 0 <= i < |fv| ==> r.value.min[k] <= fv[i] <= r.value.max[k])
  {
    if axis >= Rank(a) then Err(AxisOutOfRange)
    else if !WellShaped(a) then Err(ShapeMismatch)
    else if !IndicesInRange(indices, Shape(a)[axis]) then Err(IndexOutOfRange)
    else if !HasSamples(a, axis) then Err(EmptyInput)
    else
      var sel := Selection(indices, Shape(a)[axis]);
      Ok(Params(seq(|sel|, k requires 0 <= k < |sel| => SeqMin(FeatureValues(a, axis, sel[k]))),
                seq(|sel|, k requires 0 <= k < |sel| => SeqMax(FeatureValues(a, axis, sel[k]))),
                indices))
  }

  /** The first position of `f` in `ix`. */
  function IndexOf(ix: seq<nat>, f: nat): (r: Option<nat>)
    ensures r.None? <==> f !in ix
    ensures r.Some? ==> r.value < |ix| && ix[r.value] == f &&
                        forall j :: 0 <= j < r.value ==> ix[j] != f
  {
    if |ix| == 0 then None
    else if ix[0] == f then Some(0)
    else
      match IndexOf(ix[1..], f)
      case None => None
      case Some(k) => Some(k + 1)
  }

  /** The slot of `min`/`max` that feature `f` uses, if it is selected. */
  function Slot(indices: Option<seq<nat>>, f: nat): (k: Option<nat>)
  {
    match indices
    case None => Some(f)
    case Some(ix) => IndexOf(ix, f)
  }

  /** The fitted (min, max) of feature `f`, or None for a pass-through feature. */
  function FeatureRange(p: Params, f: nat): (b: Option<(real, real)>)
  {
    match Slot(p.indices, f)
    case None => None
    case Some(k) => if k < |p.min| && k < |p.max| then Some((p.min[k], p.max[k])) else None
  }

  /** The forward map of one value; a zero range maps everything to 0. */
  function Scale(v: real, lo: real, hi: real): (r: real)
  {
    if hi == lo then 0.0 else (v - lo) / (hi - lo)
  }

  function Unscale(v: real, lo: real, hi: real): (r: real)
  {
    v * (hi - lo) + lo
  }

  function ScaleAt(p: Params, f: nat, v: real): (r: real)
  {
    match FeatureRange(p, f)
    case None => v
    case Some(b) => Scale(v, b.0, b.1)
  }

  function UnscaleAt(p: Params, f: nat, v: real): (r: real)
  {
    match FeatureRange(p, f)
    case None => v
    case Some(b) => Unscale(v, b.0, b.1)
  }

  /** `min`, `max` and `indices` describe the same number of features. */
  predicate Consistent(p: Params)
  {
    |p.min| == |p.max| && (p.indices.Some? ==> |p.indices.value| == |p.min|)
  }

  /** Why `a` cannot be scaled along `axis` with `p`, if it cannot. */
  function Mismatch(p: Params, a: NdArray, axis: nat): (e: Option<ScalerError>)
  {
    if !Consistent(p) then Some(ShapeMismatch)
    else if axis >= Rank(a) then Some(AxisOutOfRange)
    else if !WellShaped(a) then Some(ShapeMismatch)
    else if p.indices.None? && Shape(a)[axis] != |p.min| then Some(ShapeMismatch)
    else if !IndicesInRange(p.indices, Shape(a)[axis]) then Some(IndexOutOfRange)
    else None
  }

  /** Under compatible parameters a feature of the axis has a range exactly
      when it is selected. */
  lemma RangeIffSelected(p: Params, a: NdArray, axis: nat, f: nat)
    requires Mismatch(p, a, axis).None? && f < Shape(a)[axis]
    ensures FeatureRange(p, f).Some? <==> Selected(p.indices, f)
  {
  }

  /** `a` with every element scaled by its feature's bounds. */
  function ScaleAll(p: Params, a: NdArray, axis: nat): (r: NdArray)
    requires WellShaped(a) && axis < Rank(a)
    ensures WellShaped(r) && Shape(r) == Shape(a)
    ensures forall q :: InBounds(a, q) ==> InBounds(r, q) && Elem(r, q) == ScaleAt(p, q[axis], Elem(a, q))
  {
    MapFeatures(a, axis, (f: nat, v: real) => ScaleAt(p, f, v))
  }

  /** `a` with every element unscaled by its feature's bounds. */
  function UnscaleAll(p: Params, a: NdArray, axis: nat): (r: NdArray)
    requires WellShaped(a) && axis < Rank(a)
    ensures WellShaped(r) && Shape(r) == Shape(a)
    ensures forall q :: InBounds(a, q) ==> InBounds(r, q) && Elem(r, q) == UnscaleAt(p, q[axis], Elem(a, q))
  {
    MapFeatures(a, axis, (f: nat, v: real) => UnscaleAt(p, f, v))
  }

  function Transform(s: Option<Params>, a: NdArray, axis: nat): (r: Result<NdArray, ScalerError>)
    ensures s.None? ==> r == Err(NotFitted)
    ensures s.Some? && Mismatch(s.value, a, axis).Some? ==> r == Err(Mismatch(s.value, a, axis).value)
    ensures r.Ok? <==> s.Some? && Mismatch(s.value, a, axis).None?
    ensures r.Ok? ==> WellShaped(r.value) && Shape(r.value) == Shape(a)
    ensures r.Ok? ==>
              forall q :: InBounds(a, q) ==>
                   && InBounds(r.value, q)
                   && (FeatureRange(s.value, q[axis]).None? ==> Elem(r.value, q) == Elem(a, q))
                   && (FeatureRange(s.value, q[axis]).Some? ==>
                         var b := FeatureRange(s.value, q[axis]).value;
                         Elem(r.value, q) == if b.0 == b.1 then 0.0 else (Elem(a, q) - b.0) / (b.1 - b.0))
  {
    match s
    case None => Err(NotFitted)
    case Some(p) =>
      match Mismatch(p, a, axis)
      case Some(e) => Err(e)
      case None => Ok(ScaleAll(p, a, axis))
  }

  function InverseTransform(s: Option<Params>, a: NdArray, axis: nat): (r: Result<NdArray, ScalerError>)
    ensures s.None? ==> r == Err(NotFitted)
    ensures s.Some? && Mismatch(s.value, a, axis).Some? ==> r == Err(Mismatch(s.value, a, axis).value)
    ensures r.Ok? <==> s.Some? && Mismatch(s.value, a, axis).None?
    ensures r.Ok? ==> WellShaped(r.value) && Shape(r.value) == Shape(a)
    ensures r.Ok? ==>
              forall q :: InBounds(a, q) ==>
                   && InBounds(r.value, q)
                   && (FeatureRange(s.value, q[axis]).None? ==> Elem(r.value, q) == Elem(a, q))
                   && (FeatureRange(s.value, q[axis]).Some? ==>
                         var b := FeatureRange(s.value, q[axis]).value;
                         Elem(r.value, q) == Elem(a, q) * (b.1 - b.0) + b.0)
  {
    match s
    case None => Err(NotFitted)
    case Some(p) =>
      match Mismatch(p, a, axis)
      case Some(e) => Err(e)
      case None => Ok(UnscaleAll(p, a, axis))
  }
}
