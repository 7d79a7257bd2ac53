# MinMaxScaler, modelled and verified in Dafny

This project models the `MinMaxScaler` of chainer-chemistry
(`chainer_chemistry.links.scaler.min_max_scaler`). The scaler is a small
stateful object:

- `fit(x, indices=None, axis=1)` records the minimum and maximum over all
  samples for each selected feature of the feature axis. It stores them,
  in `indices` order, in the fields `min` and `max`, and also stores
  `indices`.
- `transform` maps each selected feature to `(x - min) / (max - min)`.
  A feature with a zero range maps to 0.
- `inverse_transform` maps each selected feature back with
  `x * (max - min) + min`.
- Both leave unselected features unchanged and return new arrays.
- `fit_transform` is fit followed by transform.
- Calling either transform before any fit is an error.

The implementation file `chainer_chemistry/links/scaler/min_max_scaler.py`
is not part of this model. The behaviour modelled here is the behaviour
that its test suite, `tests/links_tests/scaler_tests/test_min_max_scaler.py`,
pins down. The model states that behaviour for every input and proves it
for the suite's own tables.

Modules:

- `Wrappers` defines `Option` and `Result`.
- `Arrays` defines the arrays the scaler works on. `NdArray` is either a
  rank-2 `Matrix` or a rank-3 `Cube`, each with its dimensions given
  explicitly. A ragged array is not `WellShaped`.
  - Elements are addressed by index sequences.
  - `MapFeatures` applies a function of (feature position, value) along any
    axis.
  - `FeatureValues` lists every value at one feature position.
  - `SeqMin` and `SeqMax` are the extremes of a sequence.
  - `BroadcastLast` and `BroadcastMiddle` give the test suite's
    `numpy.broadcast_to` of a table over a new last or middle axis.
- `Scaling` holds the fitted parameters `Params(min, max, indices)` and the
  scaler's operations as pure functions. Each returns a `Result` whose
  error is one of `NotFitted`, `AxisOutOfRange`, `ShapeMismatch`,
  `IndexOutOfRange` or `EmptyInput`.
- `Properties` proves what the operations promise for all inputs:
  - the fitted bounds are the true extremes;
  - fitted data transforms into [0, 1];
  - a constant feature maps to 0;
  - the round trips in both directions;
  - the broadcast behaviour over an extra axis.
- `ScalerObject` holds the class `MinMaxScaler`, whose fields `min`, `max`
  and `indices` are set by `Fit`. `Transform`, `InverseTransform` and
  `FitTransform` read those fields. `Save`, `Load` and `Restore` model
  persistence as copying the three fields.
- `Fixtures` proves each test of the suite against its concrete tables.
  Values are `real`, so every `allclose` check becomes an exact equality.
  The scaled table is written with its exact fractions (4/7, 5/7, …).

Two further points:

- At lines 38-39 the suite calls `numpy.allclose` on the fitted `max` and
  `min` but never asserts the result, so the suite itself never checks the
  fitted bounds. The model does check them, in `Fixtures.FixtureFit`.
- Since the implementation is not available, its order of error checks is
  a modelling choice. `Scaling.Fit` checks the axis, then the array's
  shape, then the indices, then that there is a sample. The transforms
  check that the parameters are consistent, then the axis, then the shape,
  then the indices. The width of the feature axis is compared with the
  number of fitted features only when `indices` is None; with explicit
  `indices`, any width that covers every listed index is accepted.

## Model

| member | source | states |
|---|---|---|
| Arrays.SeqMin | tests/links_tests/scaler_tests/test_min_max_scaler.py:39 | the value fitted as `min` belongs to the sequence and is at most every element of it |
| Arrays.SeqMax | tests/links_tests/scaler_tests/test_min_max_scaler.py:38 | the value fitted as `max` belongs to the sequence and is at least every element of it |
| Arrays.FeatureValuesSpec | tests/links_tests/scaler_tests/test_min_max_scaler.py:31 | the values a fit takes extremes over are exactly the elements at that feature position, over every sample and every other axis |
| Arrays.MapFeatures | tests/links_tests/scaler_tests/test_min_max_scaler.py:108-109 | a feature-wise map keeps the shape, and each element becomes the map of its feature position and its own value |
| Scaling.Fit | tests/links_tests/scaler_tests/test_min_max_scaler.py:31-39 | fit succeeds exactly when the axis exists, the array is well shaped, every index is on the axis and there is a sample; each error case is named; on success `indices` is kept and, for the k-th selected feature, `min[k]` and `max[k]` are values of that feature that bound all of its values |
| Scaling.IndexOf | tests/links_tests/scaler_tests/test_min_max_scaler.py:41-42 | a feature is found in `indices` exactly when it is listed, and the result is its first position |
| Scaling.RangeIffSelected | tests/links_tests/scaler_tests/test_min_max_scaler.py:41-46 | with compatible parameters, a feature has fitted bounds exactly when it is selected |
| Scaling.Transform | tests/links_tests/scaler_tests/test_min_max_scaler.py:33-46 | without a fit the result is `NotFitted`; an incompatible input gives its mismatch error, and otherwise the result is Ok; the shape is kept; unselected features pass through; selected ones become `(x - min) / (max - min)`, or 0 on a zero range |
| Scaling.InverseTransform | tests/links_tests/scaler_tests/test_min_max_scaler.py:78-87 | the same error cases as the transform; the shape is kept; unselected features pass through; selected ones become `x * (max - min) + min` |
| Properties.FitCompatible | tests/links_tests/scaler_tests/test_min_max_scaler.py:31-33 | parameters fitted on an array apply to it and to any well-shaped array with the same rank and feature count |
| Properties.FittedRangeIsExtremes | tests/links_tests/scaler_tests/test_min_max_scaler.py:31-39 | for a selected feature, the fitted bounds are ordered, bound every element at that feature, and are both attained by some element |
| Properties.FitTransformUnitInterval | tests/links_tests/scaler_tests/test_min_max_scaler.py:33-46 | transforming the fitted data passes unselected features through; each selected element lies in [0, 1], is 0 at its feature's minimum, and is 1 at a maximum distinct from the minimum |
| Properties.FitTransformAt | tests/links_tests/scaler_tests/test_min_max_scaler.py:41-46 | the same statement at one element position |
| Properties.ScaleInUnitInterval | tests/links_tests/scaler_tests/test_min_max_scaler.py:19-22 | a value between the bounds scales into [0, 1], with the minimum at 0 and a distinct maximum at 1 |
| Properties.ConstantFeatureMapsToZero | tests/links_tests/scaler_tests/test_min_max_scaler.py:161-169 | a selected feature that holds one value throughout the fitted data gets a zero range, and every element of it transforms to 0 |
| Properties.InverseAfterTransform | tests/links_tests/scaler_tests/test_min_max_scaler.py:76-87 | the inverse of a transform is Ok and keeps the shape; every element comes back as it was, except in a zero-range feature, which comes back as its fitted value |
| Properties.UnscaleScale | tests/links_tests/scaler_tests/test_min_max_scaler.py:84 | unscaling a scaled value gives the value back when the range is non-zero, and the lower bound otherwise |
| Properties.RoundTrip | tests/links_tests/scaler_tests/test_min_max_scaler.py:76-87 | with no zero-range feature, the inverse of the transform is exactly the input |
| Properties.TransformAfterInverse | tests/links_tests/scaler_tests/test_min_max_scaler.py:76-87 | with no zero-range feature, the transform of the inverse is exactly the input |
| Properties.ScaleUnscale | tests/links_tests/scaler_tests/test_min_max_scaler.py:84 | on a non-zero range, scaling an unscaled value gives the value back |
| Properties.FitBroadcast | tests/links_tests/scaler_tests/test_min_max_scaler.py:90-107 | fitting a table broadcast over a new last axis (feature axis 1) or a new middle axis (feature axis 2) gives the table's own fit, errors included |
| Properties.FitBroadcastLast | tests/links_tests/scaler_tests/test_min_max_scaler.py:94-98 | the same for the new last axis |
| Properties.FitBroadcastMiddle | tests/links_tests/scaler_tests/test_min_max_scaler.py:99-103 | the same for the new middle axis |
| Properties.SameFeatureValuesLast | tests/links_tests/scaler_tests/test_min_max_scaler.py:96 | the broadcast over a new last axis holds the same values at each feature as the table, so it has the same extremes there |
| Properties.SameFeatureValuesMiddle | tests/links_tests/scaler_tests/test_min_max_scaler.py:101 | the same for the new middle axis |
| Properties.TransformBroadcast | tests/links_tests/scaler_tests/test_min_max_scaler.py:104-115 | the transform and the inverse of a broadcast table are the broadcast of the table's own results, with the same errors, so the shape is kept and each feature is scaled alike at every position of the extra axis |
| Arrays.MapBroadcastLast | tests/links_tests/scaler_tests/test_min_max_scaler.py:96 | a feature-wise map commutes with broadcasting over a new last axis |
| Arrays.MapBroadcastMiddle | tests/links_tests/scaler_tests/test_min_max_scaler.py:101 | a feature-wise map commutes with broadcasting over a new middle axis |
| ScalerObject.MinMaxScaler.constructor | tests/links_tests/scaler_tests/test_min_max_scaler.py:30 | a new scaler has no `min`, `max` or `indices` |
| ScalerObject.MinMaxScaler.Fitted | tests/links_tests/scaler_tests/test_min_max_scaler.py:149-158 | the scaler has parameters exactly when both `min` and `max` are set, and those parameters are its fields |
| ScalerObject.MinMaxScaler.Fit | tests/links_tests/scaler_tests/test_min_max_scaler.py:31 | a successful fit sets `min`, `max` and `indices` to the fitted values; a failed one returns its error and leaves the fields as they were |
| ScalerObject.MinMaxScaler.Transform | tests/links_tests/scaler_tests/test_min_max_scaler.py:33 | returns the transform under the scaler's current fields, and `NotFitted` when it has none |
| ScalerObject.MinMaxScaler.InverseTransform | tests/links_tests/scaler_tests/test_min_max_scaler.py:78 | returns the inverse transform under the scaler's current fields, and `NotFitted` when it has none |
| ScalerObject.MinMaxScaler.FitTransform | tests/links_tests/scaler_tests/test_min_max_scaler.py:118-122 | on a successful fit, the fields are the fitted ones and the result is the Ok transform of the same data under them; otherwise returns the fit's error with the fields unchanged |
| ScalerObject.MinMaxScaler.Save | tests/links_tests/scaler_tests/test_min_max_scaler.py:138 | the snapshot holds exactly the three fields |
| ScalerObject.MinMaxScaler.Load | tests/links_tests/scaler_tests/test_min_max_scaler.py:141 | the fields become exactly the snapshot's |
| ScalerObject.Restore | tests/links_tests/scaler_tests/test_min_max_scaler.py:132-146 | a fresh scaler loaded from another's snapshot has the same `min`, `max` and `indices`, hence the same parameters |
| ScalerObject.UseBeforeFit | tests/links_tests/scaler_tests/test_min_max_scaler.py:149-158 | on a never-fitted scaler both the transform and the inverse fail with `NotFitted`, whatever the input |
| Fixtures.ColumnExtremes | tests/links_tests/scaler_tests/test_min_max_scaler.py:12-17 | the sample table's columns have minima (-0.3, -40, 0) and maxima (0.4, 30, 0.3) |
| Fixtures.FixtureFit | tests/links_tests/scaler_tests/test_min_max_scaler.py:27-39 | fitting the sample table with indices None, [0] or [1, 2] gives `min` and `max` as those column extremes, picked in `indices` order |
| Fixtures.ExpectedIsScaled | tests/links_tests/scaler_tests/test_min_max_scaler.py:18-23 | every entry of the expected table is its sample entry scaled by its column's bounds, and unscales back to it |
| Fixtures.FixtureTransform | tests/links_tests/scaler_tests/test_min_max_scaler.py:27-46 | for each tested selection, the transformed table has the expected entries in the selected columns and the sample entries in the others |
| Fixtures.FixtureTransformAll | tests/links_tests/scaler_tests/test_min_max_scaler.py:49-57 | with all columns selected, the transform of the sample table is exactly the expected table |
| Fixtures.FixtureInverse | tests/links_tests/scaler_tests/test_min_max_scaler.py:73-87 | for each tested selection, the inverse of the expected table has the sample entries in the selected columns and the expected entries in the others |
| Fixtures.FixtureInverseAll | tests/links_tests/scaler_tests/test_min_max_scaler.py:78-87 | with all columns selected (`indices` None), the inverse of the expected table is exactly the sample table; the rank-3 inverses of lines 112-115 are built from this fact |
| Fixtures.FixtureRank3FitLast | tests/links_tests/scaler_tests/test_min_max_scaler.py:94-107 | the table broadcast to shape (4, 3, 2), fitted along axis 1, gives the table's bounds |
| Fixtures.FixtureRank3FitMiddle | tests/links_tests/scaler_tests/test_min_max_scaler.py:99-107 | the table broadcast to shape (4, 3, 3), fitted along axis 2, gives the table's bounds |
| Fixtures.FixtureRank3TransformLast | tests/links_tests/scaler_tests/test_min_max_scaler.py:108-110 | the transform along axis 1 of the (4, 3, 2) broadcast is the broadcast expected table |
| Fixtures.FixtureRank3TransformMiddle | tests/links_tests/scaler_tests/test_min_max_scaler.py:108-110 | the transform along axis 2 of the (4, 3, 3) broadcast is the broadcast expected table |
| Fixtures.FixtureRank3InverseLast | tests/links_tests/scaler_tests/test_min_max_scaler.py:112-115 | the inverse along axis 1 of the broadcast expected table is the (4, 3, 2) broadcast sample table |
| Fixtures.FixtureRank3InverseMiddle | tests/links_tests/scaler_tests/test_min_max_scaler.py:112-115 | the inverse along axis 2 of the broadcast expected table is the (4, 3, 3) broadcast sample table |
| Fixtures.FlatFit | tests/links_tests/scaler_tests/test_min_max_scaler.py:162-166 | fitting the constant table gives `min == max == [0, 2]` |
| Fixtures.FixtureZeroRange | tests/links_tests/scaler_tests/test_min_max_scaler.py:161-169 | with those bounds the constant table transforms to all zeros |
| Fixtures.FixtureUseBeforeFit | tests/links_tests/scaler_tests/test_min_max_scaler.py:149-158 | a new scaler given the 2-by-3 table returns `NotFitted` from both the transform and the inverse |
| Fixtures.FitTransformFixture | tests/links_tests/scaler_tests/test_min_max_scaler.py:118-122 | `fit_transform` on a new scaler returns exactly the expected table |
| Fixtures.SerializeFixture | tests/links_tests/scaler_tests/test_min_max_scaler.py:131-146 | a scaler fitted on column 0 has `min == [-0.3]`, `max == [0.4]`, `indices == [0]`, and a scaler restored from it has the same three fields |

## Left out

- GPU placement (`to_gpu`, `cuda.to_gpu`, the cupy result type; lines 60-70) is device plumbing. Only the values are modelled.
- chainer `Variable` inputs and outputs (lines 49-57) are not modelled: keeping the `Variable` type and tracking gradients belong to the framework. The values are modelled, in `Fixtures.FixtureTransformAll`.
- `.npz` files through `chainer.serializers` (lines 137-141) are file I/O. Persistence is modelled as copying the three fields with `Save` and `Load`.
- The numpy `allow_pickle` issue with saving `indices=None` (lines 125-131) is a library-version quirk. The snapshot keeps an explicit "absent" for each field, so `None` survives.
- float32 rounding and the `allclose`/`atol` tolerances are not modelled: arithmetic is exact over `real`.
- The `AttributeError` raised before fit is modelled as the error value `NotFitted`, not as an exception.
- Scaling.Scale: the tests pin down a zero-range feature only on the data it was fitted on, where it maps to 0. The model maps every input of a zero-range feature to 0. The inverse on a zero range uses the plain formula and gives the minimum. Both rules are a choice, since the implementation is not available.
- Scaling.Transform: with explicit `indices`, an input is accepted whatever the width of its feature axis, as long as every listed index lies on it. The fitted parameters are exactly the persisted `min`, `max` and `indices`, and these record no width, so a width different from the fitted data's is not reported as a mismatch. With `indices` None the width must equal the number of fitted features.
- Scaling.InverseTransform: the same width rule as `Scaling.Transform`.
- Negative `axis` values and negative entries in `indices` (numpy's counting from the end) are not modelled. Both are natural numbers here.
- Arrays of rank 1 or above 3 are not modelled. The tests use only ranks 2 and 3, and every axis of those is supported.
- ScalerObject.MinMaxScaler.Fit: leaving the fields unchanged on a failed fit, and the order in which errors are detected, are modelling choices. The implementation is not available to confirm them.
- The chainer `Link` machinery behind the scaler, such as registering persistent values, is not modelled. Only the three persisted fields are.
