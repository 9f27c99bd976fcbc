/**
 * The arithmetic of `normalise_dicom` that decides how the voxel array is
 * resized: the spacing vector read from the first slice, the target shape
 * on a 1 x 1 x 1 grid, and the effective per-axis factor handed to the
 * interpolation. The interpolation itself is not part of this model.
 */
module Resample {
  import opened Wrappers
  import opened DicomSlices

  /** The target spacing: every axis is resampled to one unit per voxel. */
  const NewSpacing: real := 1.0

  /**
   * `np.round` on one value: the nearest integer, ties going to the even
   * neighbour.
   */
  function Round(r: real): (n: int)
    ensures r - 0.5 <= n as real <= r + 0.5
    ensures (n as real - r == 0.5 || r - n as real == 0.5) ==> n % 2 == 0
  {
    var f := r.Floor;
    var d := r - f as real;
    if d < 0.5 then f
    else if d > 0.5 then f + 1
    else if f % 2 == 0 then f
    else f + 1
  }

  /** A value that is already an integer is left as it is. */
  lemma RoundInteger(n: int)
    ensures Round(n as real) == n
  {
    assert (n as real).Floor == n;
  }

  /**
   * `[SliceThickness, PixelSpacing[0], PixelSpacing[1]]` of the sample
   * slice, converted to floats; a missing attribute or entry ends the
   * request (the `sys.exit` of the source).
   */
  function SpacingVector(sample: SliceRecord): (r: Result<seq<real>, DicomError>)
    ensures r.Success? <==>
      sample.sliceThickness.Some? && sample.pixelSpacing.Some? && |sample.pixelSpacing.value| >= 2
    ensures r.Failure? ==> r.error == MissingSpacing
    ensures r.Success? ==>
      (|r.value| == 3 && r.value[0] == sample.sliceThickness.value &&
       r.value[1..] == sample.pixelSpacing.value[..2])
  {
    match (sample.sliceThickness, sample.pixelSpacing)
    case (Some(t), Some(ps)) =>
      if |ps| < 2 then Failure(MissingSpacing) else Success([t, ps[0], ps[1]])
    case _ => Failure(MissingSpacing)
  }

  /** The shape and factors handed to the interpolation. */
  datatype ResizePlan = ResizePlan(newShape: seq<int>, factor: seq<real>)

  /** One axis of the target shape: its extent in units, rounded. */
  function AxisTarget(extent: nat, spacing: real): (n: int)
    ensures extent as real * spacing - 0.5 <= n as real <= extent as real * spacing + 0.5
  {
    assert spacing / NewSpacing == spacing;
    Round(extent as real * (spacing / NewSpacing))
  }

  /**
   * The target shape: the extent each axis needs so that one voxel spans
   * one unit, rounded per axis.
   */
  function TargetShape(shape: seq<nat>, spacing: seq<real>): (r: seq<int>)
    requires |spacing| == |shape|
    ensures |r| == |shape|
    ensures forall i :: 0 <= i < |shape| ==> r[i] == AxisTarget(shape[i], spacing[i])
    ensures forall i :: 0 <= i < |shape| ==>
      shape[i] as real * spacing[i] - 0.5 <= r[i] as real <= shape[i] as real * spacing[i] + 0.5
  {
    seq(|shape|, i requires 0 <= i < |shape| => AxisTarget(shape[i], spacing[i]))
  }

  /**
   * The effective factor, target extent over current extent. An axis of length 0 makes the
   * factor 0/0, which the interpolation cannot use.
   */
  function ResizeFactor(shape: seq<nat>, newShape: seq<int>): (r: Result<seq<real>, DicomError>)
    requires |newShape| == |shape|
    ensures r.Failure? <==> exists i :: 0 <= i < |shape| && shape[i] == 0
    ensures r.Failure? ==> r.error == EmptyAxis
    ensures r.Success? ==>
      (|r.value| == |shape| &&
       forall i :: 0 <= i < |shape| ==> shape[i] as real * r.value[i] == newShape[i] as real)
  {
    if exists i :: 0 <= i < |shape| && shape[i] == 0 then Failure(EmptyAxis)
    else Success(seq(|shape|, i requires 0 <= i < |shape| => newShape[i] as real / shape[i] as real))
  }

  /** The target shape and the effective factors for an array of shape `shape`. */
  function PlanResize(shape: seq<nat>, spacing: seq<real>): (r: Result<ResizePlan, DicomError>)
    requires |spacing| == |shape|
    ensures r.Failure? <==> exists i :: 0 <= i < |shape| && shape[i] == 0
    ensures r.Success? ==> r.value.newShape == TargetShape(shape, spacing)
    ensures r.Success? ==>
      (|r.value.factor| == |shape| &&
       forall i :: 0 <= i < |shape| ==> shape[i] as real * r.value.factor[i] == r.value.newShape[i] as real)
  {
    var newShape := TargetShape(shape, spacing);
    match ResizeFactor(shape, newShape)
    case Success(f) => Success(ResizePlan(newShape, f))
    case Failure(e) => Failure(e)
  }

  /** Unit spacing leaves the shape as it is, with every factor 1. */
  lemma {:induction false} UnitSpacingIsIdentity(shape: seq<nat>, spacing: seq<real>)
    requires |spacing| == |shape|
    requires forall i :: 0 <= i < |spacing| ==> spacing[i] == 1.0
    requires forall i :: 0 <= i < |shape| ==> shape[i] > 0
    ensures PlanResize(shape, spacing).Success?
    ensures PlanResize(shape, spacing).value.newShape == shape
    ensures forall i :: 0 <= i < |shape| ==> PlanResize(shape, spacing).value.factor[i] == 1.0
  {
    var newShape := TargetShape(shape, spacing);
    forall i | 0 <= i < |shape| ensures newShape[i] == shape[i] {
      RoundInteger(shape[i]);
    }
    assert newShape == shape;
  }

  /**
   * The effective factor differs from the nominal one, `spacing / 1`, by at
   * most half a voxel spread over the axis.
   */
  lemma EffectiveFactorNearNominal(shape: seq<nat>, spacing: seq<real>, i: int)
    requires |spacing| == |shape|
    requires 0 <= i < |shape|
    requires PlanResize(shape, spacing).Success?
    ensures var f := PlanResize(shape, spacing).value.factor[i];
      shape[i] > 0 &&
      spacing[i] - 0.5 / shape[i] as real <= f <= spacing[i] + 0.5 / shape[i] as real
  {
    var p := PlanResize(shape, spacing).value;
    assert shape[i] != 0;
    FactorBound(shape[i] as real, spacing[i], p.newShape[i], p.factor[i]);
  }

  /** One axis of the bound above: a rounded extent divided back by the extent. */
  lemma FactorBound(n: real, s: real, target: int, f: real)
    requires n > 0.0
    requires n * s - 0.5 <= target as real <= n * s + 0.5
    requires n * f == target as real
    ensures s - 0.5 / n <= f <= s + 0.5 / n
  {
    var d := f - s;
    assert n * d <= 0.5 && n * -d <= 0.5;
    DivideByPositive(n * d, 0.5, n);
    DivideByPositive(n * -d, 0.5, n);
    assert (n * d) / n == d && (n * -d) / n == -d;
  }

  lemma DivideByPositive(x: real, y: real, n: real)
    requires n > 0.0 && x <= y
    ensures x / n <= y / n
  {
    assert y / n - x / n == (y - x) / n;
  }

  /**
   * The output shape of `scipy.ndimage.zoom`, which rounds each input extent
   * times its factor.
   */
  function ZoomedShape(shape: seq<nat>, factor: seq<real>): (r: seq<int>)
    requires |factor| == |shape|
    ensures |r| == |shape|
    ensures forall i :: 0 <= i < |shape| ==> r[i] == ZoomedExtent(shape[i], factor[i])
    ensures forall i :: 0 <= i < |shape| ==>
      shape[i] as real * factor[i] - 0.5 <= r[i] as real <= shape[i] as real * factor[i] + 0.5
  {
    seq(|shape|, i requires 0 <= i < |shape| => ZoomedExtent(shape[i], factor[i]))
  }

  /** One axis of the zoom output: the extent times its factor, rounded. */
  function ZoomedExtent(extent: nat, factor: real): (n: int)
    ensures extent as real * factor - 0.5 <= n as real <= extent as real * factor + 0.5
  {
    Round(extent as real * factor)
  }

  /** Zooming by the effective factors yields exactly the target shape. */
  lemma ZoomReachesTargetShape(shape: seq<nat>, spacing: seq<real>)
    requires |spacing| == |shape|
    requires PlanResize(shape, spacing).Success?
    ensures ZoomedShape(shape, PlanResize(shape, spacing).value.factor) == PlanResize(shape, spacing).value.newShape
  {
    var p := PlanResize(shape, spacing).value;
    forall i | 0 <= i < |shape| ensures ZoomedShape(shape, p.factor)[i] == p.newShape[i] {
      assert shape[i] as real * p.factor[i] == p.newShape[i] as real;
      RoundInteger(p.newShape[i]);
    }
  }

  /** Spacing (2, 1, 1) on a 10 x 10 x 10 array doubles axis 0 only. */
  lemma DoubleSpacingOnAxis0()
    ensures PlanResize([10, 10, 10], [2.0, 1.0, 1.0]).Success?
    ensures PlanResize([10, 10, 10], [2.0, 1.0, 1.0]).value.newShape == [20, 10, 10]
    ensures PlanResize([10, 10, 10], [2.0, 1.0, 1.0]).value.factor == [2.0, 1.0, 1.0]
  {
    RoundInteger(20);
    RoundInteger(10);
    var s := TargetShape([10, 10, 10], [2.0, 1.0, 1.0]);
    assert s == [20, 10, 10];
  }
}
