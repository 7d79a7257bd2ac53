/**
 * The concrete tables of the scaler's test suite, and what the model proves
 * about them: the fitted bounds, the scaled table for each column selection,
 * the inverse of the scaled table, the rank-3 broadcasts, fit-transform,
 * the zero-range table, use before fit, and restoring a saved scaler.
 */
module Fixtures {
  import opened Wrappers
  import opened Arrays
  import opened Scaling
  import opened Properties
  import opened ScalerObject

  /** The 4-by-3 sample table. */
  function X(): (x: seq<seq<real>>)
  {
    [[0.1, 10.0, 0.3],
     [0.2, 20.0, 0.1],
     [-0.3, 30.0, 0.0],
     [0.4, -40.0, 0.0]]
  }

  /** The table scaled column by column, exactly. */
  function Expected(): (y: seq<seq<real>>)
  {
    [[4.0 / 7.0, 5.0 / 7.0, 1.0],
     [5.0 / 7.0, 6.0 / 7.0, 1.0 / 3.0],
     [0.0, 1.0, 0.0],
     [1.0, 0.0, 0.0]]
  }

  function ColumnMins(): (lo: seq<real>) { [-0.3, -40.0, 0.0] }
  function ColumnMaxs(): (hi: seq<real>) { [0.4, 30.0, 0.3] }

  /** `v[indices]`, as numpy indexes an array by a list. */
  function Pick(v: seq<real>, indices: Option<seq<nat>>): (picked: seq<real>)
    requires IndicesInRange(indices, |v|)
  {
    match indices
    case None => v
    case Some(ix) => seq(|ix|, k requires 0 <= k < |ix| => v[ix[k]])
  }

  /** The three column selections the tests run with. */
  predicate TestedSelection(indices: Option<seq<nat>>)
  {
    indices == None || indices == Some([0]) || indices == Some([1, 2])
  }

  function FittedParams(indices: Option<seq<nat>>): (p: Params)
    requires TestedSelection(indices)
  {
    Params(Pick(ColumnMins(), indices), Pick(ColumnMaxs(), indices), indices)
  }

  lemma IsSeqMin(s: seq<real>, m: real)
    requires m in s && forall i :: 0 <= i < |s| ==> m <= s[i]
    ensures SeqMin(s) == m
  {
    var i :| 0 <= i < |s| && s[i] == SeqMin(s);
  }

  lemma IsSeqMax(s: seq<real>, m: real)
    requires m in s && forall i :: 0 <= i < |s| ==> s[i] <= m
    ensures SeqMax(s) == m
  {
    var i :| 0 <= i < |s| && s[i] == SeqMax(s);
  }

  /** Column j of the table has the listed minimum and maximum. */
  lemma ColumnExtremes(j: nat)
    requires j < 3
    ensures SeqMin(FeatureValues(Matrix(X(), 3), 1, j)) == ColumnMins()[j]
    ensures SeqMax(FeatureValues(Matrix(X(), 3), 1, j)) == ColumnMaxs()[j]
  {
    var fv := FeatureValues(Matrix(X(), 3), 1, j);
    assert fv == [X()[0][j], X()[1][j], X()[2][j], X()[3][j]];
    if j == 0 {
      assert fv[2] == -0.3 && fv[3] == 0.4;
    } else if j == 1 {
      assert fv[3] == -40.0 && fv[2] == 30.0;
    } else {
      assert fv[2] == 0.0 && fv[0] == 0.3;
    }
    IsSeqMin(fv, ColumnMins()[j]);
    IsSeqMax(fv, ColumnMaxs()[j]);
  }

  /** Fitting the table records the columns' minima and maxima, in
      `indices` order. */
  lemma FixtureFit(indices: Option<seq<nat>>)
    requires TestedSelection(indices)
    ensures Fit(Matrix(X(), 3), indices, 1) == Ok(FittedParams(indices))
  {
    var a := Matrix(X(), 3);
    assert Fittable(a, indices, 1);
    var p := Fit(a, indices, 1).value;
    var sel := Selection(indices, 3);
    var want := FittedParams(indices);
    assert |p.min| == |sel| == |want.min| && |p.max| == |want.max|;
    forall k | 0 <= k < |sel|
      ensures p.min[k] == want.min[k] && p.max[k] == want.max[k]
    {
      ColumnExtremes(sel[k]);
    }
    assert p.min == want.min && p.max == want.max;
  }

  /** Each expected entry is its table entry scaled by its column's bounds. */
  lemma ExpectedIsScaled(i: nat, j: nat)
    requires i < 4 && j < 3
    ensures Expected()[i][j] == Scale(X()[i][j], ColumnMins()[j], ColumnMaxs()[j])
    ensures X()[i][j] == Unscale(Expected()[i][j], ColumnMins()[j], ColumnMaxs()[j])
  {
    assert ColumnMins()[j] != ColumnMaxs()[j];
    assert Expected()[i][j] == Scale(X()[i][j], ColumnMins()[j], ColumnMaxs()[j]) by {
      if j == 0 {
        assert Scale(X()[i][0], -0.3, 0.4) == (X()[i][0] + 0.3) / 0.7;
      } else if j == 1 {
        assert Scale(X()[i][1], -40.0, 30.0) == (X()[i][1] + 40.0) / 70.0;
      } else {
        assert Scale(X()[i][2], 0.0, 0.3) == X()[i][2] / 0.3;
      }
    }
    UnscaleScale(X()[i][j], ColumnMins()[j], ColumnMaxs()[j]);
  }

  /** The bounds a tested selection gives to column j. */
  lemma FixtureRange(indices: Option<seq<nat>>, j: nat)
    requires TestedSelection(indices) && j < 3
    ensures Selected(indices, j) ==> FeatureRange(FittedParams(indices), j) == Some((ColumnMins()[j], ColumnMaxs()[j]))
    ensures !Selected(indices, j) ==> FeatureRange(FittedParams(indices), j) == None
  {
    if indices == Some([1, 2]) && j == 2 {
      assert IndexOf([1, 2], 2) == Some(1);
    }
  }

  /** Transforming the table scales exactly the selected columns to the
      expected values and returns the other columns unchanged. */
  lemma FixtureTransform(indices: Option<seq<nat>>)
    requires TestedSelection(indices)
    ensures var t := Transform(Some(FittedParams(indices)), Matrix(X(), 3), 1);
            && t.Ok? && t.value.Matrix? && |t.value.rows| == 4 && t.value.cols == 3 && WellShaped(t.value)
            && forall i, j :: 0 <= i < 4 && 0 <= j < 3 ==>
                 t.value.rows[i][j] == if Selected(indices, j) then Expected()[i][j] else X()[i][j]
  {
    FixtureTransformOk(indices);
    forall i, j | 0 <= i < 4 && 0 <= j < 3
      ensures Transform(Some(FittedParams(indices)), Matrix(X(), 3), 1).value.rows[i][j] ==
              if Selected(indices, j) then Expected()[i][j] else X()[i][j]
    {
      FixtureTransformEntry(indices, i, j);
    }
  }

  lemma FixtureTransformOk(indices: Option<seq<nat>>)
    requires TestedSelection(indices)
    ensures var t := Transform(Some(FittedParams(indices)), Matrix(X(), 3), 1);
            t.Ok? && t.value.Matrix? && |t.value.rows| == 4 && t.value.cols == 3 && WellShaped(t.value)
  {
    TablesWellShaped();
    FixtureFit(indices);
    FitCompatible(Matrix(X(), 3), indices, 1, Matrix(X(), 3));
  }

  lemma FixtureTransformEntry(indices: Option<seq<nat>>, i: nat, j: nat)
    requires TestedSelection(indices) && i < 4 && j < 3
    requires Transform(Some(FittedParams(indices)), Matrix(X(), 3), 1).Ok?
    ensures var t := Transform(Some(FittedParams(indices)), Matrix(X(), 3), 1).value;
            t.Matrix? && i < |t.rows| && j < |t.rows[i]| &&
            t.rows[i][j] == if Selected(indices, j) then Expected()[i][j] else X()[i][j]
  {
    TransformedEntry(FittedParams(indices), Matrix(X(), 3), i, j);
    FixtureRange(indices, j);
    ExpectedIsScaled(i, j);
  }

  /** Inverse-transforming the expected table restores the selected columns
      of the sample table and leaves the other columns as given. */
  lemma FixtureInverse(indices: Option<seq<nat>>)
    requires TestedSelection(indices)
    ensures var u := InverseTransform(Some(FittedParams(indices)), Matrix(Expected(), 3), 1);
            && u.Ok? && u.value.Matrix? && |u.value.rows| == 4 && u.value.cols == 3 && WellShaped(u.value)
            && forall i, j :: 0 <= i < 4 && 0 <= j < 3 ==>
                 u.value.rows[i][j] == if Selected(indices, j) then X()[i][j] else Expected()[i][j]
  {
    FixtureInverseOk(indices);
    forall i, j | 0 <= i < 4 && 0 <= j < 3
      ensures InverseTransform(Some(FittedParams(indices)), Matrix(Expected(), 3), 1).value.rows[i][j] ==
              if Selected(indices, j) then X()[i][j] else Expected()[i][j]
    {
      FixtureInverseEntry(indices, i, j);
    }
  }

  lemma FixtureInverseOk(indices: Option<seq<nat>>)
    requires TestedSelection(indices)
    ensures var u := InverseTransform(Some(FittedParams(indices)), Matrix(Expected(), 3), 1);
            u.Ok? && u.value.Matrix? && |u.value.rows| == 4 && u.value.cols == 3 && WellShaped(u.value)
  {
    TablesWellShaped();
    FixtureFit(indices);
    FitCompatible(Matrix(X(), 3), indices, 1, Matrix(Expected(), 3));
  }

  lemma FixtureInverseEntry(indices: Option<seq<nat>>, i: nat, j: nat)
    requires TestedSelection(indices) && i < 4 && j < 3
    requires InverseTransform(Some(FittedParams(indices)), Matrix(Expected(), 3), 1).Ok?
    ensures var u := InverseTransform(Some(FittedParams(indices)), Matrix(Expected(), 3), 1).value;
            u.Matrix? && i < |u.rows| && j < |u.rows[i]| &&
            u.rows[i][j] == if Selected(indices, j) then X()[i][j] else Expected()[i][j]
  {
    InverseTransformedEntry(FittedParams(indices), Matrix(Expected(), 3), i, j);
    FixtureRange(indices, j);
    ExpectedIsScaled(i, j);
  }

  /** One entry of a transformed table. */
  lemma TransformedEntry(p: Params, a: NdArray, i: nat, j: nat)
    requires a.Matrix? && Transform(Some(p), a, 1).Ok? && i < |a.rows| && j < a.cols
    ensures var t := Transform(Some(p), a, 1).value;
            t.Matrix? && i < |t.rows| && j < |t.rows[i]| && t.rows[i][j] == ScaleAt(p, j, a.rows[i][j])
  {
    assert InBounds(a, [i, j]);
  }

  /** One entry of an inverse-transformed table. */
  lemma InverseTransformedEntry(p: Params, a: NdArray, i: nat, j: nat)
    requires a.Matrix? && InverseTransform(Some(p), a, 1).Ok? && i < |a.rows| && j < a.cols
    ensures var t := InverseTransform(Some(p), a, 1).value;
            t.Matrix? && i < |t.rows| && j < |t.rows[i]| && t.rows[i][j] == UnscaleAt(p, j, a.rows[i][j])
  {
    assert InBounds(a, [i, j]);
  }

  /** With every column selected the transform of the table is the expected
      table itself. */
  lemma FixtureTransformAll()
    ensures Transform(Some(FittedParams(None)), Matrix(X(), 3), 1) == Ok(Matrix(Expected(), 3))
  {
    TablesWellShaped();
    FixtureTransform(None);
    var t := Transform(Some(FittedParams(None)), Matrix(X(), 3), 1).value;
    forall q | InBounds(t, q) ensures Elem(t, q) == Elem(Matrix(Expected(), 3), q) {
    }
    Extensionality(t, Matrix(Expected(), 3));
  }

  lemma TablesWellShaped()
    ensures WellShaped(Matrix(X(), 3)) && WellShaped(Matrix(Expected(), 3))
  {
  }

  /** With every column selected the inverse of the expected table is the
      sample table. */
  lemma FixtureInverseAll()
    ensures InverseTransform(Some(FittedParams(None)), Matrix(Expected(), 3), 1) == Ok(Matrix(X(), 3))
  {
    FixtureTransformAll();
    assert NonDegenerate(FittedParams(None));
    RoundTrip(Some(FittedParams(None)), Matrix(X(), 3), 1);
  }

  /** The rank-3 tests broadcast the table over a new axis (of length 2 after
      the features, or of length 3 between samples and features) and scale
      along the feature axis: the fit, the transform and the inverse are
      those of the table, broadcast. */
  lemma FixtureRank3FitLast()
    ensures WellShaped(Matrix(X(), 3)) && Fit(BroadcastLast(X(), 3, 2), None, 1) == Ok(FittedParams(None))
  {
    TablesWellShaped();
    FixtureFit(None);
    FitBroadcastLast(X(), 3, 2, None);
  }

  lemma FixtureRank3FitMiddle()
    ensures WellShaped(Matrix(X(), 3)) && Fit(BroadcastMiddle(X(), 3, 3), None, 2) == Ok(FittedParams(None))
  {
    TablesWellShaped();
    FixtureFit(None);
    FitBroadcastMiddle(X(), 3, 3, None);
  }

  lemma FixtureRank3TransformLast()
    ensures && WellShaped(Matrix(X(), 3)) && WellShaped(Matrix(Expected(), 3))
            && Transform(Some(FittedParams(None)), BroadcastLast(X(), 3, 2), 1) == Ok(BroadcastLast(Expected(), 3, 2))
  {
    TablesWellShaped();
    FixtureTransformAll();
    TransformBroadcast(Some(FittedParams(None)), X(), 3, 2);
  }

  lemma FixtureRank3TransformMiddle()
    ensures && WellShaped(Matrix(X(), 3)) && WellShaped(Matrix(Expected(), 3))
            && Transform(Some(FittedParams(None)), BroadcastMiddle(X(), 3, 3), 2) == Ok(BroadcastMiddle(Expected(), 3, 3))
  {
    TablesWellShaped();
    FixtureTransformAll();
    TransformBroadcast(Some(FittedParams(None)), X(), 3, 3);
  }

  lemma FixtureRank3InverseLast()
    ensures && WellShaped(Matrix(X(), 3)) && WellShaped(Matrix(Expected(), 3))
            && InverseTransform(Some(FittedParams(None)), BroadcastLast(Expected(), 3, 2), 1) == Ok(BroadcastLast(X(), 3, 2))
  {
    TablesWellShaped();
    FixtureInverseAll();
    TransformBroadcast(Some(FittedParams(None)), Expected(), 3, 2);
  }

  lemma FixtureRank3InverseMiddle()
    ensures && WellShaped(Matrix(X(), 3)) && WellShaped(Matrix(Expected(), 3))
            && InverseTransform(Some(FittedParams(None)), BroadcastMiddle(Expected(), 3, 3), 2) == Ok(BroadcastMiddle(X(), 3, 3))
  {
    TablesWellShaped();
    FixtureInverseAll();
    TransformBroadcast(Some(FittedParams(None)), Expected(), 3, 3);
  }

  /** The zero-range test: both columns are constant, so both scale to 0. */
  function Flat(): (x: seq<seq<real>>)
  {
    [[0.0, 2.0], [0.0, 2.0], [0.0, 2.0]]
  }

  function Zeros(): (z: seq<seq<real>>)
  {
    [[0.0, 0.0], [0.0, 0.0], [0.0, 0.0]]
  }

  /** Each constant column's minimum and maximum are its value. */
  lemma FlatFit()
    ensures Fit(Matrix(Flat(), 2), None, 1) == Ok(Params([0.0, 2.0], [0.0, 2.0], None))
  {
    var a := Matrix(Flat(), 2);
    assert Fittable(a, None, 1);
    var p := Fit(a, None, 1).value;
    forall j | 0 <= j < 2
      ensures p.min[j] == Flat()[0][j] && p.max[j] == Flat()[0][j]
    {
      FlatColumn(j);
    }
    assert p.min == [0.0, 2.0] && p.max == [0.0, 2.0];
  }

  lemma FlatColumn(j: nat)
    requires j < 2
    ensures SeqMin(FeatureValues(Matrix(Flat(), 2), 1, j)) == Flat()[0][j]
    ensures SeqMax(FeatureValues(Matrix(Flat(), 2), 1, j)) == Flat()[0][j]
  {
    var fv := FeatureValues(Matrix(Flat(), 2), 1, j);
    assert fv == [Flat()[0][j], Flat()[1][j], Flat()[2][j]];
    IsSeqMin(fv, Flat()[0][j]);
    IsSeqMax(fv, Flat()[0][j]);
  }

  lemma FixtureZeroRange()
    ensures Transform(Some(Params([0.0, 2.0], [0.0, 2.0], None)), Matrix(Flat(), 2), 1) == Ok(Matrix(Zeros(), 2))
  {
    var a, p := Matrix(Flat(), 2), Params([0.0, 2.0], [0.0, 2.0], None);
    assert Mismatch(p, a, 1).None?;
    var t := Transform(Some(p), a, 1).value;
    forall i, j | 0 <= i < 3 && 0 <= j < 2
      ensures t.Matrix? && i < |t.rows| && j < |t.rows[i]| && t.rows[i][j] == 0.0
    {
      TransformedEntry(p, a, i, j);
    }
    forall q | InBounds(t, q) ensures Elem(t, q) == Elem(Matrix(Zeros(), 2), q) {
    }
    Extensionality(t, Matrix(Zeros(), 2));
  }

  /** The 2-by-3 table of the use-before-fit test. */
  function Unfitted(): (x: seq<seq<real>>)
  {
    [[0.1, 0.2, 0.3], [0.5, 0.3, 0.1]]
  }

  /** A new scaler refuses to transform or inverse-transform that table. */
  method FixtureUseBeforeFit() returns (forward: Result<NdArray, ScalerError>, backward: Result<NdArray, ScalerError>)
    ensures forward == Err(NotFitted) && backward == Err(NotFitted)
  {
    forward, backward := UseBeforeFit(Matrix(Unfitted(), 3), 1);
  }

  /** fit_transform on a new scaler yields the expected table. */
  method FitTransformFixture() returns (scaled: Result<NdArray, ScalerError>)
    ensures scaled == Ok(Matrix(Expected(), 3))
  {
    var scaler := new MinMaxScaler();
    FixtureFit(None);
    scaled := scaler.FitTransform(Matrix(X(), 3), None, 1);
    FixtureTransformAll();
  }

  /** A scaler fitted on column 0 and restored from its saved state has the
      same bounds and indices. */
  method SerializeFixture() returns (original: MinMaxScaler, restored: MinMaxScaler)
    ensures original.min == Some([-0.3]) && original.max == Some([0.4]) && original.indices == Some([0])
    ensures restored.min == original.min && restored.max == original.max && restored.indices == original.indices
  {
    original := new MinMaxScaler();
    FixtureFit(Some([0]));
    assert Pick(ColumnMins(), Some([0])) == [-0.3] && Pick(ColumnMaxs(), Some([0])) == [0.4];
    var error := original.Fit(Matrix(X(), 3), Some([0]), 1);
    restored := Restore(original);
  }
}
