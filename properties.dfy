/**
 * What fitting and the two transforms guarantee together: fitted bounds are
 * the feature extremes, the fitted data lands in [0, 1], a constant feature
 * maps to 0, the inverse undoes the transform (and back), and broadcasting
 * the data over an extra axis changes neither the fit nor the per-feature
 * scaling.
 */
module Properties {
  import opened Wrappers
  import opened Arrays
  import opened Scaling

  /** Parameters fitted on `a` accept every well-shaped array whose feature
      axis has the same length. */
  lemma FitCompatible(a: NdArray, indices: Option<seq<nat>>, axis: nat, b: NdArray)
    requires Fit(a, indices, axis).Ok?
    requires WellShaped(b) && Rank(b) == Rank(a) && Shape(b)[axis] == Shape(a)[axis]
    ensures Mismatch(Fit(a, indices, axis).value, b, axis).None?
  {
  }

  /** After fitting, the range of a selected feature `f` is its least and
      greatest value over every sample of `a`. */
  lemma FittedRangeIsExtremes(a: NdArray, indices: Option<seq<nat>>, axis: nat, f: nat)
    requires Fit(a, indices, axis).Ok? && f < Shape(a)[axis] && Selected(indices, f)
    ensures FeatureRange(Fit(a, indices, axis).value, f).Some?
    ensures var b := FeatureRange(Fit(a, indices, axis).value, f).value;
            && b.0 <= b.1
            && (forall q :: AtFeature(a, axis, q, f) ==> b.0 <= Elem(a, q) <= b.1)
            && (exists q :: AtFeature(a, axis, q, f) && Elem(a, q) == b.0)
            && (exists q :: AtFeature(a, axis, q, f) && Elem(a, q) == b.1)
  {
    var p := Fit(a, indices, axis).value;
    var sel := Selection(indices, Shape(a)[axis]);
    var k := Slot(indices, f).value;
    assert k < |sel| && sel[k] == f;
    var fv := FeatureValues(a, axis, f);
    var b := FeatureRange(p, f).value;
    assert b == (p.min[k], p.max[k]);
    assert b.0 in fv && b.1 in fv;
    var lo := FeatureValueSource(a, axis, f, b.0);
    var hi := FeatureValueSource(a, axis, f, b.1);
    forall q | AtFeature(a, axis, q, f) ensures b.0 <= Elem(a, q) <= b.1 {
      FeatureValueAt(a, axis, f, q);
      var i :| 0 <= i < |fv| && fv[i] == Elem(a, q);
    }
  }

  /** Transforming the data a scaler was fitted on puts every selected
      feature in [0, 1], its minimum at 0 and (for a non-zero range) its
      maximum at 1; other features are returned unchanged. */
  lemma FitTransformUnitInterval(a: NdArray, indices: Option<seq<nat>>, axis: nat)
    requires Fit(a, indices, axis).Ok?
    ensures Transform(Some(Fit(a, indices, axis).value), a, axis).Ok?
    ensures var p := Fit(a, indices, axis).value;
            var t := Transform(Some(p), a, axis).value;
            forall q :: InBounds(a, q) ==> InBounds(t, q) && UnitAt(p, a, t, axis, q)
  {
    var p := Fit(a, indices, axis).value;
    FitCompatible(a, indices, axis, a);
    var t := Transform(Some(p), a, axis).value;
    forall q | InBounds(a, q) ensures UnitAt(p, a, t, axis, q) {
      FitTransformAt(a, indices, axis, q);
    }
  }

  /** At index `q`: a pass-through element is unchanged; a selected one lies
      in [0, 1], is 0 where the input is the feature's minimum and 1 where
      it is a maximum distinct from the minimum. */
  ghost predicate UnitAt(p: Params, a: NdArray, t: NdArray, axis: nat, q: seq<nat>)
    requires axis < Rank(a) && WellShaped(a) && WellShaped(t) && InBounds(a, q) && InBounds(t, q)
  {
    && (!Selected(p.indices, q[axis]) ==> Elem(t, q) == Elem(a, q))
    && (Selected(p.indices, q[axis]) ==>
          FeatureRange(p, q[axis]).Some? &&
          var b := FeatureRange(p, q[axis]).value;
          && 0.0 <= Elem(t, q) <= 1.0
          && (Elem(a, q) == b.0 ==> Elem(t, q) == 0.0)
          && (Elem(a, q) == b.1 && b.0 != b.1 ==> Elem(t, q) == 1.0))
  }

  lemma FitTransformAt(a: NdArray, indices: Option<seq<nat>>, axis: nat, q: seq<nat>)
    requires Fit(a, indices, axis).Ok? && InBounds(a, q)
    ensures Transform(Some(Fit(a, indices, axis).value), a, axis).Ok?
    ensures var p := Fit(a, indices, axis).value;
            var t := Transform(Some(p), a, axis).value;
            InBounds(t, q) && UnitAt(p, a, t, axis, q)
  {
    var p := Fit(a, indices, axis).value;
    FitCompatible(a, indices, axis, a);
    var t := Transform(Some(p), a, axis).value;
    var f := q[axis];
    RangeIffSelected(p, a, axis, f);
    if Selected(indices, f) {
      var b := FeatureRange(p, f).value;
      assert Elem(t, q) == Scale(Elem(a, q), b.0, b.1);
      assert b.0 <= Elem(a, q) <= b.1 by {
        FittedRangeIsExtremes(a, indices, axis, f);
        assert AtFeature(a, axis, q, f);
      }
      ScaleInUnitInterval(Elem(a, q), b.0, b.1);
    }
  }

  lemma ScaleInUnitInterval(v: real, lo: real, hi: real)
    requires lo <= v <= hi
    ensures 0.0 <= Scale(v, lo, hi) <= 1.0
    ensures v == lo ==> Scale(v, lo, hi) == 0.0
    ensures v == hi && lo != hi ==> Scale(v, lo, hi) == 1.0
  {
    if hi != lo {
      RatioInUnitInterval(v - lo, hi - lo);
    }
  }

  lemma RatioInUnitInterval(x: real, d: real)
    requires d > 0.0 && 0.0 <= x <= d
    ensures 0.0 <= x / d <= 1.0
    ensures x == d ==> x / d == 1.0
  {
    RatioAtMostOne(x, d);
    assert d / d == 1.0;
  }

  lemma RatioAtMostOne(x: real, d: real)
    requires d > 0.0 && x <= d
    ensures x / d <= 1.0
  {
  }

  /** A selected feature that holds one value throughout the fitted data
      transforms to 0 everywhere, with no division by its zero range. */
  lemma ConstantFeatureMapsToZero(a: NdArray, indices: Option<seq<nat>>, axis: nat, f: nat)
    requires Fit(a, indices, axis).Ok? && f < Shape(a)[axis] && Selected(indices, f)
    requires forall q, q' :: AtFeature(a, axis, q, f) && AtFeature(a, axis, q', f) ==> Elem(a, q) == Elem(a, q')
    ensures var p := Fit(a, indices, axis).value;
            && FeatureRange(p, f).Some? && FeatureRange(p, f).value.0 == FeatureRange(p, f).value.1
            && Transform(Some(p), a, axis).Ok?
            && forall q :: AtFeature(a, axis, q, f) ==> Elem(Transform(Some(p), a, axis).value, q) == 0.0
  {
    FittedRangeIsExtremes(a, indices, axis, f);
    FitCompatible(a, indices, axis, a);
    var p := Fit(a, indices, axis).value;
    var b := FeatureRange(p, f).value;
    var q0 :| AtFeature(a, axis, q0, f) && Elem(a, q0) == b.0;
    var q1 :| AtFeature(a, axis, q1, f) && Elem(a, q1) == b.1;
    assert Elem(a, q0) == Elem(a, q1);
  }

  /** No selected feature of `p` has a zero range. */
  predicate NonDegenerate(p: Params)
  {
    forall k :: 0 <= k < |p.min| && k < |p.max| ==> p.min[k] != p.max[k]
  }

  /** The inverse transform undoes the transform at every element of a
      feature with a non-zero range; a zero-range feature comes back as its
      fitted value (the transform lost it). */
  lemma InverseAfterTransform(s: Option<Params>, a: NdArray, axis: nat)
    requires Transform(s, a, axis).Ok?
    ensures InverseTransform(s, Transform(s, a, axis).value, axis).Ok?
    ensures var back := InverseTransform(s, Transform(s, a, axis).value, axis).value;
            && Shape(back) == Shape(a)
            && forall q :: InBounds(a, q) ==>
                 && InBounds(back, q)
                 && Elem(back, q) == (if FeatureRange(s.value, q[axis]).Some? &&
                                         FeatureRange(s.value, q[axis]).value.0 == FeatureRange(s.value, q[axis]).value.1
                                      then FeatureRange(s.value, q[axis]).value.0
                                      else Elem(a, q))
  {
    var p := s.value;
    var t := Transform(s, a, axis).value;
    assert Mismatch(p, t, axis) == Mismatch(p, a, axis);
    var back := InverseTransform(s, t, axis).value;
    forall q | InBounds(a, q)
      ensures Elem(back, q) == (if FeatureRange(p, q[axis]).Some? &&
                                   FeatureRange(p, q[axis]).value.0 == FeatureRange(p, q[axis]).value.1
                                then FeatureRange(p, q[axis]).value.0
                                else Elem(a, q))
    {
      match FeatureRange(p, q[axis])
      case None =>
      case Some(b) => UnscaleScale(Elem(a, q), b.0, b.1);
    }
  }

  lemma UnscaleScale(v: real, lo: real, hi: real)
    ensures Unscale(Scale(v, lo, hi), lo, hi) == if lo == hi then lo else v
  {
    if lo != hi {
      assert ((v - lo) / (hi - lo)) * (hi - lo) == v - lo;
    }
  }

  /** With no zero-range feature the round trip is exact. */
  lemma RoundTrip(s: Option<Params>, a: NdArray, axis: nat)
    requires Transform(s, a, axis).Ok? && NonDegenerate(s.value)
    ensures InverseTransform(s, Transform(s, a, axis).value, axis) == Ok(a)
  {
    InverseAfterTransform(s, a, axis);
    var back := InverseTransform(s, Transform(s, a, axis).value, axis).value;
    Extensionality(back, a);
  }

  /** The transform undoes the inverse transform when no feature has a zero
      range. */
  lemma TransformAfterInverse(s: Option<Params>, a: NdArray, axis: nat)
    requires InverseTransform(s, a, axis).Ok? && NonDegenerate(s.value)
    ensures Transform(s, InverseTransform(s, a, axis).value, axis) == Ok(a)
  {
    var p := s.value;
    var u := InverseTransform(s, a, axis).value;
    assert Mismatch(p, u, axis) == Mismatch(p, a, axis);
    var t := Transform(s, u, axis).value;
    forall q | InBounds(a, q) ensures Elem(t, q) == Elem(a, q) {
      match FeatureRange(p, q[axis])
      case None =>
      case Some(b) =>
        assert b.0 != b.1;
        ScaleUnscale(Elem(a, q), b.0, b.1);
    }
    Extensionality(t, a);
  }

  lemma ScaleUnscale(v: real, lo: real, hi: real)
    requires lo != hi
    ensures Scale(Unscale(v, lo, hi), lo, hi) == v
  {
    assert Unscale(v, lo, hi) - lo == v * (hi - lo);
  }

  /** Adding a broadcast axis changes nothing about the fit: an (n, m, k)
      array with feature axis 1, or an (n, k, m) array with feature axis 2,
      fits to the same parameters as the n-by-m table. */
  lemma FitBroadcast(x: seq<seq<real>>, m: nat, k: nat, indices: Option<seq<nat>>)
    requires WellShaped(Matrix(x, m)) && k > 0
    ensures Fit(BroadcastLast(x, m, k), indices, 1) == Fit(Matrix(x, m), indices, 1)
    ensures Fit(BroadcastMiddle(x, m, k), indices, 2) == Fit(Matrix(x, m), indices, 1)
  {
    FitBroadcastLast(x, m, k, indices);
    FitBroadcastMiddle(x, m, k, indices);
  }

  lemma FitBroadcastLast(x: seq<seq<real>>, m: nat, k: nat, indices: Option<seq<nat>>)
    requires WellShaped(Matrix(x, m)) && k > 0
    ensures Fit(BroadcastLast(x, m, k), indices, 1) == Fit(Matrix(x, m), indices, 1)
  {
    var a, c := Matrix(x, m), BroadcastLast(x, m, k);
    assert Fittable(c, indices, 1) == Fittable(a, indices, 1);
    if Fittable(a, indices, 1) {
      var sel := Selection(indices, m);
      var pa, pc := Fit(a, indices, 1).value, Fit(c, indices, 1).value;
      forall j | 0 <= j < |sel|
        ensures pc.min[j] == pa.min[j] && pc.max[j] == pa.max[j]
      {
        SameFeatureValuesLast(x, m, k, sel[j]);
      }
      assert pc.min == pa.min && pc.max == pa.max;
    }
  }

  lemma FitBroadcastMiddle(x: seq<seq<real>>, m: nat, k: nat, indices: Option<seq<nat>>)
    requires WellShaped(Matrix(x, m)) && k > 0
    ensures Fit(BroadcastMiddle(x, m, k), indices, 2) == Fit(Matrix(x, m), indices, 1)
  {
    var a, c := Matrix(x, m), BroadcastMiddle(x, m, k);
    assert Fittable(c, indices, 2) == Fittable(a, indices, 1);
    if Fittable(a, indices, 1) {
      var sel := Selection(indices, m);
      var pa, pc := Fit(a, indices, 1).value, Fit(c, indices, 2).value;
      forall j | 0 <= j < |sel|
        ensures pc.min[j] == pa.min[j] && pc.max[j] == pa.max[j]
      {
        SameFeatureValuesMiddle(x, m, k, sel[j]);
      }
      assert pc.min == pa.min && pc.max == pa.max;
    }
  }

  /** The array broadcast over a new last axis holds the same values at each
      feature as the table, so it has the same extremes there. */
  lemma SameFeatureValuesLast(x: seq<seq<real>>, m: nat, k: nat, f: nat)
    requires WellShaped(Matrix(x, m)) && k > 0 && f < m && |x| > 0
    ensures forall v :: v in FeatureValues(BroadcastLast(x, m, k), 1, f) <==> v in FeatureValues(Matrix(x, m), 1, f)
    ensures SeqMin(FeatureValues(BroadcastLast(x, m, k), 1, f)) == SeqMin(FeatureValues(Matrix(x, m), 1, f))
    ensures SeqMax(FeatureValues(BroadcastLast(x, m, k), 1, f)) == SeqMax(FeatureValues(Matrix(x, m), 1, f))
  {
    var a, bl := Matrix(x, m), BroadcastLast(x, m, k);
    forall v ensures v in FeatureValues(bl, 1, f) <==> v in FeatureValues(a, 1, f) {
      if v in FeatureValues(bl, 1, f) {
        var q := FeatureValueSource(bl, 1, f, v);
        FeatureValueAt(a, 1, f, [q[0], f]);
      }
      if v in FeatureValues(a, 1, f) {
        var q := FeatureValueSource(a, 1, f, v);
        FeatureValueAt(bl, 1, f, [q[0], f, 0]);
      }
    }
    ExtremesBySet(FeatureValues(bl, 1, f), FeatureValues(a, 1, f));
  }

  /** Likewise for the array broadcast over a new middle axis. */
  lemma SameFeatureValuesMiddle(x: seq<seq<real>>, m: nat, k: nat, f: nat)
    requires WellShaped(Matrix(x, m)) && k > 0 && f < m && |x| > 0
    ensures forall v :: v in FeatureValues(BroadcastMiddle(x, m, k), 2, f) <==> v in FeatureValues(Matrix(x, m), 1, f)
    ensures SeqMin(FeatureValues(BroadcastMiddle(x, m, k), 2, f)) == SeqMin(FeatureValues(Matrix(x, m), 1, f))
    ensures SeqMax(FeatureValues(BroadcastMiddle(x, m, k), 2, f)) == SeqMax(FeatureValues(Matrix(x, m), 1, f))
  {
    var a, bm := Matrix(x, m), BroadcastMiddle(x, m, k);
    forall v ensures v in FeatureValues(bm, 2, f) <==> v in FeatureValues(a, 1, f) {
      if v in FeatureValues(bm, 2, f) {
        var q := FeatureValueSource(bm, 2, f, v);
        FeatureValueAt(a, 1, f, [q[0], f]);
      }
      if v in FeatureValues(a, 1, f) {
        var q := FeatureValueSource(a, 1, f, v);
        FeatureValueAt(bm, 2, f, [q[0], 0, f]);
      }
    }
    ExtremesBySet(FeatureValues(bm, 2, f), FeatureValues(a, 1, f));
  }

  /** The result of broadcasting a table result over a new last axis. An Ok
      result that is not a well-shaped table is returned as it is; the
      transforms of a table never produce one. */
  function LiftLast(r: Result<NdArray, ScalerError>, k: nat): (lifted: Result<NdArray, ScalerError>)
  {
    match r
    case Err(e) => Err(e)
    case Ok(y) => if y.Matrix? && WellShaped(y) then Ok(BroadcastLast(y.rows, y.cols, k)) else r
  }

  /** The result of broadcasting a table result over a new middle axis,
      with the same convention. */
  function LiftMiddle(r: Result<NdArray, ScalerError>, k: nat): (lifted: Result<NdArray, ScalerError>)
  {
    match r
    case Err(e) => Err(e)
    case Ok(y) => if y.Matrix? && WellShaped(y) then Ok(BroadcastMiddle(y.rows, y.cols, k)) else r
  }

  /** Both transforms of a broadcast array are the broadcast of the table's
      transforms: the same per-feature scaling at every position of the
      extra axis, with the same errors. */
  lemma TransformBroadcast(s: Option<Params>, x: seq<seq<real>>, m: nat, k: nat)
    requires WellShaped(Matrix(x, m))
    ensures Transform(s, BroadcastLast(x, m, k), 1) == LiftLast(Transform(s, Matrix(x, m), 1), k)
    ensures Transform(s, BroadcastMiddle(x, m, k), 2) == LiftMiddle(Transform(s, Matrix(x, m), 1), k)
    ensures InverseTransform(s, BroadcastLast(x, m, k), 1) == LiftLast(InverseTransform(s, Matrix(x, m), 1), k)
    ensures InverseTransform(s, BroadcastMiddle(x, m, k), 2) == LiftMiddle(InverseTransform(s, Matrix(x, m), 1), k)
  {
    if s.Some? {
      var p := s.value;
      assert Mismatch(p, BroadcastLast(x, m, k), 1) == Mismatch(p, Matrix(x, m), 1);
      assert Mismatch(p, BroadcastMiddle(x, m, k), 2) == Mismatch(p, Matrix(x, m), 1);
      if Mismatch(p, Matrix(x, m), 1).None? {
        MapBroadcastLast(x, m, k, (f: nat, v: real) => ScaleAt(p, f, v));
        MapBroadcastMiddle(x, m, k, (f: nat, v: real) => ScaleAt(p, f, v));
        MapBroadcastLast(x, m, k, (f: nat, v: real) => UnscaleAt(p, f, v));
        MapBroadcastMiddle(x, m, k, (f: nat, v: real) => UnscaleAt(p, f, v));
      }
    }
  }
}
