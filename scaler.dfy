/**
 * The stateful scaler object: `fit` overwrites its `min`, `max` and
 * `indices` fields; `transform`, `inverse_transform` read them and return
 * new arrays; the three fields are its whole persisted state.
 */
module ScalerObject {
  import opened Wrappers
  import opened Arrays
  import Scaling
  import Properties

  /** The persisted state, with an explicit "absent" for each field, so that
      an unfitted scaler and `indices == None` both survive a save and load. */
  datatype Snapshot = Snapshot(min: Option<seq<real>>, max: Option<seq<real>>, indices: Option<seq<nat>>)

  class MinMaxScaler {
    var min: Option<seq<real>>
    var max: Option<seq<real>>
    var indices: Option<seq<nat>>

    /** A new scaler is unfitted. */
    constructor ()
      ensures min == None && max == None && indices == None
    {
      min, max, indices := None, None, None;
    }

    /** The parameters the transforms use; None until `min` and `max` are set. */
    function Fitted(): (s: Option<Scaling.Params>)
      reads this
      ensures s.Some? <==> min.Some? && max.Some?
      ensures s.Some? ==> s.value.min == min.value && s.value.max == max.value && s.value.indices == indices
    {
      if min.Some? && max.Some? then Some(Scaling.Params(min.value, max.value, indices)) else None
    }

    /** Fits along `axis`, replacing any earlier fit; a failed fit reports its
        error and leaves the scaler as it was. */
    method Fit(data: NdArray, selection: Option<seq<nat>>, axis: nat) returns (error: Option<Scaling.ScalerError>)
      modifies this
      ensures var r := Scaling.Fit(data, selection, axis);
              if r.Ok? then
                error == None && min == Some(r.value.min) && max == Some(r.value.max) && indices == selection
              else
                error == Some(r.error) && min == old(min) && max == old(max) && indices == old(indices)
    {
      var r := Scaling.Fit(data, selection, axis);
      match r
      case Ok(p) =>
        min, max, indices := Some(p.min), Some(p.max), selection;
        error := None;
      case Err(e) =>
        error := Some(e);
    }

    method Transform(data: NdArray, axis: nat) returns (r: Result<NdArray, Scaling.ScalerError>)
      ensures r == Scaling.Transform(Fitted(), data, axis)
      ensures Fitted().None? ==> r == Err(Scaling.NotFitted)
    {
      r := Scaling.Transform(Fitted(), data, axis);
    }

    method InverseTransform(data: NdArray, axis: nat) returns (r: Result<NdArray, Scaling.ScalerError>)
      ensures r == Scaling.InverseTransform(Fitted(), data, axis)
      ensures Fitted().None? ==> r == Err(Scaling.NotFitted)
    {
      r := Scaling.InverseTransform(Fitted(), data, axis);
    }

    /** Fit followed by transform of the same data. */
    method FitTransform(data: NdArray, selection: Option<seq<nat>>, axis: nat) returns (r: Result<NdArray, Scaling.ScalerError>)
      modifies this
      ensures var f := Scaling.Fit(data, selection, axis);
              if f.Ok? then
                && min == Some(f.value.min) && max == Some(f.value.max) && indices == selection
                && r == Scaling.Transform(Some(f.value), data, axis)
                && r.Ok?
              else
                r == Err(f.error) && min == old(min) && max == old(max) && indices == old(indices)
    {
      var error := Fit(data, selection, axis);
      if error.Some? {
        r := Err(error.value);
      } else {
        r := Transform(data, axis);
        Properties.FitCompatible(data, selection, axis, data);
      }
    }

    /** The fields to persist. */
    function Save(): (s: Snapshot)
      reads this
      ensures s.min == min && s.max == max && s.indices == indices
    {
      Snapshot(min, max, indices)
    }

    /** Restores persisted fields, replacing the current state. */
    method Load(s: Snapshot)
      modifies this
      ensures min == s.min && max == s.max && indices == s.indices
    {
      min, max, indices := s.min, s.max, s.indices;
    }
  }

  /** Saving a scaler and loading the snapshot into a new one reproduces its
      state, hence every transform and inverse it computes. */
  method Restore(source: MinMaxScaler) returns (copy: MinMaxScaler)
    ensures fresh(copy)
    ensures copy.min == source.min && copy.max == source.max && copy.indices == source.indices
    ensures copy.Fitted() == source.Fitted()
  {
    copy := new MinMaxScaler();
    copy.Load(source.Save());
  }

  /** A scaler that was never fitted refuses both transforms, whatever the input. */
  method UseBeforeFit(data: NdArray, axis: nat) returns (forward: Result<NdArray, Scaling.ScalerError>, backward: Result<NdArray, Scaling.ScalerError>)
    ensures forward == Err(Scaling.NotFitted) && backward == Err(Scaling.NotFitted)
  {
    var s := new MinMaxScaler();
    forward := s.Transform(data, axis);
    backward := s.InverseTransform(data, axis);
  }
}
