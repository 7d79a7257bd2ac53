/**
 * Numeric arrays of rank 2 and 3, with the two operations the scaler needs
 * from them: the values found at one position of the feature axis (over all
 * other dimensions), and an element-wise map that knows each element's
 * feature position.
 */
module Arrays {

  /** A rank-2 array (`rows` of length `cols` each) or a rank-3 array
      (`slabs` of `d1` rows of length `d2`). The dimensions are explicit so
      that an array with no rows still has a width. */
  datatype NdArray =
    | Matrix(rows: seq<seq<real>>, cols: nat)
    | Cube(slabs: seq<seq<seq<real>>>, d1: nat, d2: nat)

  function Rank(a: NdArray): (n: nat)
  {
    if a.Matrix? then 2 else 3
  }

  function Shape(a: NdArray): (s: seq<nat>)
    ensures |s| == Rank(a)
  {
    match a
    case Matrix(rows, c) => [|rows|, c]
    case Cube(s, d1, d2) => [|s|, d1, d2]
  }

  /** Every row has the declared length, as in an array of that shape. */
  predicate WellShaped(a: NdArray)
  {
    match a
    case Matrix(rows, c) =>
      forall i :: 0 <= i < |rows| ==> |rows[i]| == c
    case Cube(s, d1, d2) =>
      forall i :: 0 <= i < |s| ==>
        |s[i]| == d1 && forall j :: 0 <= j < d1 ==> |s[i][j]| == d2
  }

  /** `p` is a multi-index of `a`. */
  predicate InBounds(a: NdArray, p: seq<nat>)
  {
    var sh := Shape(a);
    |p| == |sh| && forall k :: 0 <= k < |p| ==> p[k] < sh[k]
  }

  function Elem(a: NdArray, p: seq<nat>): (v: real)
    requires WellShaped(a) && InBounds(a, p)
  {
    match a
    case Matrix(rows, _) => rows[p[0]][p[1]]
    case Cube(s, _, _) => s[p[0]][p[1]][p[2]]
  }

  /** `p` is a multi-index of `a` whose coordinate along `axis` is `f`. */
  predicate AtFeature(a: NdArray, axis: nat, p: seq<nat>, f: nat)
    requires axis < Rank(a)
  {
    InBounds(a, p) && p[axis] == f
  }

  /** Two well-shaped arrays of one shape that agree at every index are equal. */
  lemma Extensionality(a: NdArray, b: NdArray)
    requires WellShaped(a) && WellShaped(b) && Shape(a) == Shape(b)
    requires forall p :: InBounds(a, p) ==> Elem(a, p) == Elem(b, p)
    ensures a == b
  {
    match a
    case Matrix(ra, c) =>
      var rb := b.rows;
      forall i | 0 <= i < |ra| ensures ra[i] == rb[i] {
        forall j | 0 <= j < c ensures ra[i][j] == rb[i][j] {
          assert InBounds(a, [i, j]);
        }
      }
    case Cube(sa, d1, d2) =>
      var sb := b.slabs;
      forall i | 0 <= i < |sa| ensures sa[i] == sb[i] {
        forall j | 0 <= j < d1 ensures sa[i][j] == sb[i][j] {
          forall k | 0 <= k < d2 ensures sa[i][j][k] == sb[i][j][k] {
            assert InBounds(a, [i, j, k]);
          }
        }
      }
  }

  /** The array of the same shape whose element at `p` is `g(p[axis], a[p])`:
      one function of the feature position, broadcast over every other
      dimension. */
  function MapFeatures(a: NdArray, axis: nat, g: (nat, real) -> real): (r: NdArray)
    requires WellShaped(a) && axis < Rank(a)
    ensures WellShaped(r) && Shape(r) == Shape(a) && Rank(r) == Rank(a)
    ensures forall p :: InBounds(a, p) ==> InBounds(r, p) && Elem(r, p) == g(p[axis], Elem(a, p))
  {
    match a
    case Matrix(rows, c) =>
      Matrix(seq(|rows|, i requires 0 <= i < |rows| =>
               seq(c, j requires 0 <= j < c =>
                 g(if axis == 0 then i else j, rows[i][j]))), c)
    case Cube(s, d1, d2) =>
      Cube(seq(|s|, i requires 0 <= i < |s| =>
             seq(d1, j requires 0 <= j < d1 =>
               seq(d2, k requires 0 <= k < d2 =>
                 g(if axis == 0 then i else if axis == 1 then j else k, s[i][j][k])))), d1, d2)
  }

  /** The concatenation of a sequence of sequences. */
  function Concat(ss: seq<seq<real>>): (r: seq<real>)
    ensures |ss| > 0 ==> |r| >= |ss[0]|
  {
    if |ss| == 0 then [] else ss[0] + Concat(ss[1..])
  }

  lemma {:induction false} ConcatContains(ss: seq<seq<real>>, i: nat, j: nat)
    requires i < |ss| && j < |ss[i]|
    ensures ss[i][j] in Concat(ss)
  {
    if i > 0 {
      ConcatContains(ss[1..], i - 1, j);
      assert ss[1..][i - 1] == ss[i];
    }
  }

  lemma {:induction false} ConcatMember(ss: seq<seq<real>>, v: real)
    requires v in Concat(ss)
    ensures exists i, j :: 0 <= i < |ss| && 0 <= j < |ss[i]| && ss[i][j] == v
  {
    if v in ss[0] {
      var j :| 0 <= j < |ss[0]| && ss[0][j] == v;
      assert ss[0][j] == v;
    } else {
      ConcatMember(ss[1..], v);
      var i, j :| 0 <= i < |ss[1..]| && 0 <= j < |ss[1..][i]| && ss[1..][i][j] == v;
      assert ss[i + 1][j] == v;
    }
  }

  /** There is at least one index on every dimension other than `axis`, so
      each feature position has at least one sample. */
  predicate HasSamples(a: NdArray, axis: nat)
  {
    match a
    case Matrix(rows, c) =>
      if axis == 0 then c > 0 else |rows| > 0
    case Cube(s, d1, d2) =>
      (axis == 0 || |s| > 0) && (axis == 1 || d1 > 0) && (axis == 2 || d2 > 0)
  }

  /** Every value of `a` at feature position `f` of `axis`: the column of the
      table obtained by moving `axis` last and flattening the other
      dimensions into samples. */
  function FeatureValues(a: NdArray, axis: nat, f: nat): (r: seq<real>)
    requires WellShaped(a) && axis < Rank(a) && f < Shape(a)[axis]
    ensures HasSamples(a, axis) ==> |r| > 0
  {
    match a
    case Matrix(rows, c) =>
      if axis == 0 then rows[f] else seq(|rows|, i requires 0 <= i < |rows| => rows[i][f])
    case Cube(s, d1, d2) =>
      if axis == 0 then Concat(s[f])
      else if axis == 1 then Concat(seq(|s|, i requires 0 <= i < |s| => s[i][f]))
      else Concat(seq(|s|, i requires 0 <= i < |s| => seq(d1, j requires 0 <= j < d1 => s[i][j][f])))
  }

  /** FeatureValues holds exactly the elements at feature position `f`. */
  lemma FeatureValuesSpec(a: NdArray, axis: nat, f: nat)
    requires WellShaped(a) && axis < Rank(a) && f < Shape(a)[axis]
    ensures forall p :: AtFeature(a, axis, p, f) ==> Elem(a, p) in FeatureValues(a, axis, f)
    ensures forall v :: v in FeatureValues(a, axis, f) ==>
              exists p :: AtFeature(a, axis, p, f) && Elem(a, p) == v
  {
    var fv := FeatureValues(a, axis, f);
    forall p | AtFeature(a, axis, p, f) ensures Elem(a, p) in fv {
      FeatureValueAt(a, axis, f, p);
    }
    forall v | v in fv ensures exists p :: AtFeature(a, axis, p, f) && Elem(a, p) == v {
      var p := FeatureValueSource(a, axis, f, v);
    }
  }

  lemma FeatureValueAt(a: NdArray, axis: nat, f: nat, p: seq<nat>)
    requires WellShaped(a) && axis < Rank(a) && f < Shape(a)[axis]
    requires AtFeature(a, axis, p, f)
    ensures Elem(a, p) in FeatureValues(a, axis, f)
  {
    match a
    case Matrix(rows, c) =>
      if axis == 1 {
        assert FeatureValues(a, axis, f)[p[0]] == Elem(a, p);
      }
    case Cube(s, d1, d2) =>
      if axis == 0 {
        ConcatContains(s[f], p[1], p[2]);
      } else if axis == 1 {
        var ss := seq(|s|, i requires 0 <= i < |s| => s[i][f]);
        ConcatContains(ss, p[0], p[2]);
      } else {
        var ss := seq(|s|, i requires 0 <= i < |s| => seq(d1, j requires 0 <= j < d1 => s[i][j][f]));
        ConcatContains(ss, p[0], p[1]);
      }
  }

  lemma FeatureValueSource(a: NdArray, axis: nat, f: nat, v: real) returns (p: seq<nat>)
    requires WellShaped(a) && axis < Rank(a) && f < Shape(a)[axis]
    requires v in FeatureValues(a, axis, f)
    ensures AtFeature(a, axis, p, f) && Elem(a, p) == v
  {
    match a
    case Matrix(rows, c) =>
      if axis == 0 {
        var j :| 0 <= j < |rows[f]| && rows[f][j] == v;
        p := [f, j];
      } else {
        var fv := FeatureValues(a, axis, f);
        var i :| 0 <= i < |fv| && fv[i] == v;
        p := [i, f];
      }
    case Cube(s, d1, d2) =>
      p := CubeValueSource(a, axis, f, v);
  }

  lemma CubeValueSource(a: NdArray, axis: nat, f: nat, v: real) returns (p: seq<nat>)
    requires a.Cube? && WellShaped(a) && axis < 3 && f < Shape(a)[axis]
    requires v in FeatureValues(a, axis, f)
    ensures AtFeature(a, axis, p, f) && Elem(a, p) == v
  {
    if axis == 0 {
      p := SlabSource(a, f, v);
    } else if axis == 1 {
      p := RowSource(a, f, v);
    } else {
      p := ColumnSource(a, f, v);
    }
  }

  lemma SlabSource(a: NdArray, f: nat, v: real) returns (p: seq<nat>)
    requires a.Cube? && WellShaped(a) && f < Shape(a)[0]
    requires v in FeatureValues(a, 0, f)
    ensures AtFeature(a, 0, p, f) && Elem(a, p) == v
  {
    var s := a.slabs;
    ConcatMember(s[f], v);
    var i, j :| 0 <= i < |s[f]| && 0 <= j < |s[f][i]| && s[f][i][j] == v;
    p := [f, i, j];
  }

  lemma RowSource(a: NdArray, f: nat, v: real) returns (p: seq<nat>)
    requires a.Cube? && WellShaped(a) && f < Shape(a)[1]
    requires v in FeatureValues(a, 1, f)
    ensures AtFeature(a, 1, p, f) && Elem(a, p) == v
  {
    var s := a.slabs;
    var ss := seq(|s|, i requires 0 <= i < |s| => s[i][f]);
    ConcatMember(ss, v);
    var i, j :| 0 <= i < |ss| && 0 <= j < |ss[i]| && ss[i][j] == v;
    p := [i, f, j];
  }

  lemma ColumnSource(a: NdArray, f: nat, v: real) returns (p: seq<nat>)
    requires a.Cube? && WellShaped(a) && f < Shape(a)[2]
    requires v in FeatureValues(a, 2, f)
    ensures AtFeature(a, 2, p, f) && Elem(a, p) == v
  {
    var s, d1 := a.slabs, a.d1;
    var ss := seq(|s|, i requires 0 <= i < |s| => seq(d1, j requires 0 <= j < d1 => s[i][j][f]));
    ConcatMember(ss, v);
    var i, j :| 0 <= i < |ss| && 0 <= j < |ss[i]| && ss[i][j] == v;
    p := [i, j, f];
  }

  /** The least element of a non-empty sequence. */
  function SeqMin(s: seq<real>): (m: real)
    requires |s| > 0
    ensures m in s && forall i :: 0 <= i < |s| ==> m <= s[i]
  {
    if |s| == 1 then s[0]
    else
      var t := SeqMin(s[1..]);
      if s[0] <= t then s[0] else t
  }

  /** The greatest element of a non-empty sequence. */
  function SeqMax(s: seq<real>): (m: real)
    requires |s| > 0
    ensures m in s && forall i :: 0 <= i < |s| ==> s[i] <= m
  {
    if |s| == 1 then s[0]
    else
      var t := SeqMax(s[1..]);
      if t <= s[0] then s[0] else t
  }

  /** The extremes of a sequence depend only on the values it holds. */
  lemma ExtremesBySet(s: seq<real>, t: seq<real>)
    requires |s| > 0 && |t| > 0
    requires forall v :: v in s <==> v in t
    ensures SeqMin(s) == SeqMin(t) && SeqMax(s) == SeqMax(t)
  {
  }
  /** `x` (an n-by-m table) with a new last axis of length `k`: every
      element repeated `k` times, shape (n, m, k). */
  function BroadcastLast(x: seq<seq<real>>, m: nat, k: nat): (r: NdArray)
    requires WellShaped(Matrix(x, m))
    ensures WellShaped(r) && Shape(r) == [|x|, m, k]
    ensures forall p :: InBounds(r, p) ==> Elem(r, p) == x[p[0]][p[1]]
  {
    Cube(seq(|x|, i requires 0 <= i < |x| =>
           seq(m, j requires 0 <= j < m => seq(k, _ => x[i][j]))), m, k)
  }

  /** `x` (an n-by-m table) with a new middle axis of length `k`: every row
      repeated `k` times, shape (n, k, m). */
  function BroadcastMiddle(x: seq<seq<real>>, m: nat, k: nat): (r: NdArray)
    requires WellShaped(Matrix(x, m))
    ensures WellShaped(r) && Shape(r) == [|x|, k, m]
    ensures forall p :: InBounds(r, p) ==> Elem(r, p) == x[p[0]][p[2]]
  {
    Cube(seq(|x|, i requires 0 <= i < |x| => seq(k, _ => x[i])), k, m)
  }

  /** A feature-wise map commutes with adding a trailing broadcast axis. */
  lemma MapBroadcastLast(x: seq<seq<real>>, m: nat, k: nat, g: (nat, real) -> real)
    requires WellShaped(Matrix(x, m))
    ensures var y := MapFeatures(Matrix(x, m), 1, g);
            y.Matrix? && y.cols == m && WellShaped(Matrix(y.rows, m)) &&
            MapFeatures(BroadcastLast(x, m, k), 1, g) == BroadcastLast(y.rows, m, k)
  {
    var y := MapFeatures(Matrix(x, m), 1, g);
    var lhs := MapFeatures(BroadcastLast(x, m, k), 1, g);
    var rhs := BroadcastLast(y.rows, m, k);
    forall p | InBounds(lhs, p) ensures Elem(lhs, p) == Elem(rhs, p) {
      assert InBounds(Matrix(x, m), [p[0], p[1]]);
    }
    Extensionality(lhs, rhs);
  }

  /** A feature-wise map commutes with adding a middle broadcast axis when
      the feature axis moves from 1 to 2. */
  lemma MapBroadcastMiddle(x: seq<seq<real>>, m: nat, k: nat, g: (nat, real) -> real)
    requires WellShaped(Matrix(x, m))
    ensures var y := MapFeatures(Matrix(x, m), 1, g);
            y.Matrix? && y.cols == m && WellShaped(Matrix(y.rows, m)) &&
            MapFeatures(BroadcastMiddle(x, m, k), 2, g) == BroadcastMiddle(y.rows, m, k)
  {
    var y := MapFeatures(Matrix(x, m), 1, g);
    var lhs := MapFeatures(BroadcastMiddle(x, m, k), 2, g);
    var rhs := BroadcastMiddle(y.rows, m, k);
    forall p | InBounds(lhs, p) ensures Elem(lhs, p) == Elem(rhs, p) {
      assert InBounds(Matrix(x, m), [p[0], p[2]]);
    }
    Extensionality(lhs, rhs);
  }
}
