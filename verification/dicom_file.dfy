/**
 * The DICOM entry points that tie the pieces together: `normalise_dicom`
 * (read the slice metadata, build the spacing vector from the first slice,
 * plan the resize of the array it is given) and
 * `read_dicom_as_np_ndarray_and_normalise` (reorient the raw array, then
 * normalise it). Reading files and the interpolation are not modelled: the
 * parsed slices and the raw voxel array are inputs, and the result is the
 * array and the factors that would be handed to `scipy.ndimage.zoom`.
 */
module DicomFile {
  import opened Wrappers
  import opened DicomSlices
  import opened Reorient
  import opened Resample

  /** The arguments of the final `zoom` call: the array and the plan it is resized by. */
  datatype ZoomInput<T> = ZoomInput(voxels: Volume<T>, plan: ResizePlan)

  /**
   * The spacing vector `normalise_dicom` reads from the first slice of the
   * series once the derived thickness has been written onto it.
   */
  function SeriesSpacing(sorted: seq<SliceRecord>): (r: Result<seq<real>, DicomError>)
    ensures |sorted| < 2 ==> r == Failure(TooFewSlices)
    ensures DeriveThickness(sorted).Failure? ==> r == Failure(DeriveThickness(sorted).error)
    ensures r.Success? <==>
      (DeriveThickness(sorted).Success? && sorted[0].pixelSpacing.Some? &&
       |sorted[0].pixelSpacing.value| >= 2)
    ensures DeriveThickness(sorted).Success? && r.Failure? ==> r.error == MissingSpacing
    ensures r.Success? ==>
      (DeriveThickness(sorted).Success? && sorted[0].pixelSpacing.Some? &&
       |sorted[0].pixelSpacing.value| >= 2 &&
       r.value == [DeriveThickness(sorted).value, sorted[0].pixelSpacing.value[0], sorted[0].pixelSpacing.value[1]])
  {
    match DeriveThickness(sorted)
    case Failure(e) => Failure(e)
    case Success(t) =>
      var first := WithThickness(sorted, t)[0];
      assert first == sorted[0].(sliceThickness := Some(t));
      var spacing := SpacingVector(first);
      assert spacing.Success? ==> spacing.value == [spacing.value[0]] + spacing.value[1..];
      spacing
  }

  /**
   * What `normalise_dicom` decides for an array of shape `shape`, given the
   * series as it stands right after sorting. Axis i of the array is scaled
   * by entry i of the spacing vector.
   */
  function NormalisePlan(shape: seq<nat>, sorted: seq<SliceRecord>): (r: Result<ResizePlan, DicomError>)
    requires |shape| == 3
    ensures |sorted| < 2 ==> r == Failure(TooFewSlices)
    ensures DeriveThickness(sorted).Failure? ==> r == Failure(DeriveThickness(sorted).error)
    ensures SeriesSpacing(sorted).Success? ==> r == PlanResize(shape, SeriesSpacing(sorted).value)
    ensures r.Success? ==> |r.value.newShape| == 3
  {
    var spacing := SeriesSpacing(sorted);
    if spacing.Failure? then Failure(spacing.error)
    else
      PlanResize(shape, spacing.value)
  }

  /**
   * `normalise_dicom` yields a plan exactly when the thickness is derived,
   * the first sorted slice has a PixelSpacing pair and no array axis is empty.
   */
  lemma NormalisePlanSucceeds(shape: seq<nat>, sorted: seq<SliceRecord>)
    requires |shape| == 3
    ensures NormalisePlan(shape, sorted).Success? <==>
      (DeriveThickness(sorted).Success? && sorted[0].pixelSpacing.Some? &&
       |sorted[0].pixelSpacing.value| >= 2 && shape[0] > 0 && shape[1] > 0 && shape[2] > 0)
  {
    if SeriesSpacing(sorted).Success? {
      var p := PlanResize(shape, SeriesSpacing(sorted).value);
      assert p.Failure? <==> exists i :: 0 <= i < |shape| && shape[i] == 0;
      if shape[0] == 0 || shape[1] == 0 || shape[2] == 0 {
        assert shape[0] == 0 ==> p.Failure?;
        assert shape[1] == 0 ==> p.Failure?;
        assert shape[2] == 0 ==> p.Failure?;
      }
    }
  }

  /** The plan's factors take every axis of the array exactly to its target extent. */
  lemma NormalisePlanFactors(shape: seq<nat>, sorted: seq<SliceRecord>)
    requires |shape| == 3
    requires NormalisePlan(shape, sorted).Success?
    ensures var p := NormalisePlan(shape, sorted).value;
      |p.factor| == 3 &&
      forall i :: 0 <= i < 3 ==> shape[i] as real * p.factor[i] == p.newShape[i] as real
  {
    assert NormalisePlan(shape, sorted) == PlanResize(shape, SeriesSpacing(sorted).value);
  }

  /**
   * Axis 0 of the array is resized by the derived slice thickness and axes 1
   * and 2 by the two pixel spacings of the first sorted slice, each rounded
   * to the nearest extent.
   */
  lemma NormalisePlanAxes(shape: seq<nat>, sorted: seq<SliceRecord>)
    requires |shape| == 3
    requires NormalisePlan(shape, sorted).Success?
    ensures var p := NormalisePlan(shape, sorted).value;
      var t := DeriveThickness(sorted).value;
      var ps := sorted[0].pixelSpacing.value;
      |sorted| >= 2 && sorted[0].pixelSpacing.Some? && |ps| >= 2 &&
      |p.newShape| == 3 &&
      p.newShape[0] == AxisTarget(shape[0], t) &&
      p.newShape[1] == AxisTarget(shape[1], ps[0]) &&
      p.newShape[2] == AxisTarget(shape[2], ps[1])
  {
    var spacing := SeriesSpacing(sorted).value;
    var ns := TargetShape(shape, spacing);
    assert NormalisePlan(shape, sorted) == PlanResize(shape, spacing);
  }

  /**
   * Whatever the headers, a series whose first slice has no PixelSpacing
   * pair is never normalised: the request ends with MissingSpacing or an
   * earlier error.
   */
  lemma NoPixelSpacingNoPlan(shape: seq<nat>, sorted: seq<SliceRecord>)
    requires |shape| == 3
    requires |sorted| > 0 && (sorted[0].pixelSpacing.None? || |sorted[0].pixelSpacing.value| < 2)
    ensures NormalisePlan(shape, sorted).Failure?
    ensures DeriveThickness(sorted).Success? ==> NormalisePlan(shape, sorted) == Failure(MissingSpacing)
  {
    if DeriveThickness(sorted).Success? {
      var t := DeriveThickness(sorted).value;
      assert WithThickness(sorted, t)[0] == sorted[0].(sliceThickness := Some(t));
    }
  }

  /**
   * `normalise_dicom` on an array of shape `shape` and the parsed slices of
   * its directory; on success, the plan the array is zoomed by. `sorted` is
   * the series right after the in-place sort.
   */
  method NormaliseDicom(shape: seq<nat>, slices: array<SliceRecord>)
    returns (r: Result<ResizePlan, DicomError>, ghost sorted: seq<SliceRecord>)
    requires |shape| == 3
    modifies slices
    ensures multiset(sorted) == multiset(old(slices[..])) && SortedByInstance(sorted)
    ensures r == NormalisePlan(shape, sorted)
    ensures slices[..] == if DeriveThickness(sorted).Success?
      then WithThickness(sorted, DeriveThickness(sorted).value) else sorted
  {
    var thickness;
    thickness, sorted := ReadDicomDataset(slices);
    if thickness.Failure? {
      return Failure(thickness.error), sorted;
    }
    var sample := slices[0];
    var spacing := SpacingVector(sample);
    if spacing.Failure? {
      return Failure(spacing.error), sorted;
    }
    r := PlanResize(shape, spacing.value);
  }

  /**
   * `read_dicom_as_np_ndarray_and_normalise`: the raw (z, y, x) array is
   * reoriented to (x, y, z) first, and that reoriented array is what
   * `normalise_dicom` resizes.
   */
  method ReadDicomAsArrayAndNormalise<T>(raw: Volume<T>, z: nat, y: nat, x: nat, slices: array<SliceRecord>)
    returns (r: Result<ZoomInput<T>, DicomError>, ghost sorted: seq<SliceRecord>)
    requires HasShape(raw, z, y, x)
    modifies slices
    ensures multiset(sorted) == multiset(old(slices[..])) && SortedByInstance(sorted)
    ensures r.Success? ==> r.value.voxels == Flip(raw, z, y, x)
    ensures r.Success? <==> NormalisePlan([x, y, z], sorted).Success?
    ensures r.Success? ==> r.value.plan == NormalisePlan([x, y, z], sorted).value
    ensures r.Failure? ==> r.error == NormalisePlan([x, y, z], sorted).error
  {
    var image := Flip(raw, z, y, x);
    var plan;
    plan, sorted := NormaliseDicom([x, y, z], slices);
    match plan
    case Failure(e) => r := Failure(e);
    case Success(p) => r := Success(ZoomInput(image, p));
  }

  /**
   * Because the array is reoriented before it is normalised, the slice
   * thickness scales the x extent (axis 0 after the flip) and the second
   * pixel spacing scales the z extent (the slice count).
   */
  lemma ThicknessScalesAxisX(z: nat, y: nat, x: nat, sorted: seq<SliceRecord>)
    requires NormalisePlan([x, y, z], sorted).Success?
    ensures var p := NormalisePlan([x, y, z], sorted).value;
      var t := DeriveThickness(sorted).value;
      p.newShape[0] == AxisTarget(x, t) &&
      p.newShape[2] == AxisTarget(z, sorted[0].pixelSpacing.value[1])
  {
    NormalisePlanAxes([x, y, z], sorted);
  }
}
