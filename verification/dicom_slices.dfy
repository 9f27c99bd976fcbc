/**
 * The per-slice metadata pass of the DICOM loader (`read_dicom_dataset`):
 * the slices of one series are sorted in place by their instance number,
 * a slice thickness is derived from the positions of the first two sorted
 * slices, and that thickness is then written onto every slice.
 */
module DicomSlices {
  import opened Wrappers

  /** The DICOM header fields of one slice that the loader and the normaliser read. */
  datatype SliceRecord = SliceRecord(
    instanceNumber: int,                     // InstanceNumber, compared as an integer
    imagePositionPatient: Option<seq<real>>, // ImagePositionPatient (x, y, z), if present
    sliceLocation: Option<real>,             // SliceLocation, if present
    pixelSpacing: Option<seq<real>>,         // PixelSpacing (row, col), if present
    sliceThickness: Option<real>             // SliceThickness, overwritten by the loader
  )

  /** The terminal failures of the DICOM part of the pipeline. */
  datatype DicomError =
    | TooFewSlices            // `slices[1]` does not exist
    | MalformedImagePosition  // ImagePositionPatient present but has no z entry
    | MissingSliceLocation    // fallback taken, but SliceLocation is absent
    | MissingSpacing          // SliceThickness or PixelSpacing[0..1] unavailable
    | EmptyAxis               // an array axis of length 0 (the resize factor is 0/0)

  /** `np.abs` on one value. */
  function Abs(x: real): (r: real)
    ensures r >= 0.0 && (r == x || r == -x)
  {
    if x < 0.0 then -x else x
  }

  predicate SortedByInstance(s: seq<SliceRecord>)
  {
    forall p, q :: 0 <= p < q < |s| ==> s[p].instanceNumber <= s[q].instanceNumber
  }

  /**
   * The slice thickness derived from a sorted series, following the order in
   * which the source reads the z position of slice 0 and then of slice 1
   * from ImagePositionPatient: a missing attribute on either slice
   * (AttributeError) selects the SliceLocation fallback, while an attribute
   * present without a z entry (IndexError) is not caught and ends the load.
   */
  function DeriveThickness(s: seq<SliceRecord>): (r: Result<real, DicomError>)
    ensures |s| < 2 ==> r == Failure(TooFewSlices)
    ensures r.Success? ==> r.value >= 0.0
  {
    if |s| < 2 then Failure(TooFewSlices)
    else match (s[0].imagePositionPatient, s[1].imagePositionPatient)
      case (Some(p0), Some(p1)) =>
        if |p0| < 3 || |p1| < 3 then Failure(MalformedImagePosition)
        else Success(Abs(p0[2] - p1[2]))
      case (Some(p0), None) =>
        if |p0| < 3 then Failure(MalformedImagePosition) else FromSliceLocation(s[0], s[1])
      case (None, _) => FromSliceLocation(s[0], s[1])
  }

  /** The SliceLocation fallback of `read_dicom_dataset`. */
  function FromSliceLocation(first: SliceRecord, second: SliceRecord): (r: Result<real, DicomError>)
    ensures r.Success? <==> first.sliceLocation.Some? && second.sliceLocation.Some?
    ensures r.Success? ==> r.value >= 0.0
  {
    match (first.sliceLocation, second.sliceLocation)
    case (Some(l0), Some(l1)) => Success(Abs(l0 - l1))
    case _ => Failure(MissingSliceLocation)
  }

  /** Whether the first two slices both carry a usable ImagePositionPatient z entry. */
  predicate HasImagePositions(s: seq<SliceRecord>)
  {
    |s| >= 2 &&
    s[0].imagePositionPatient.Some? && |s[0].imagePositionPatient.value| >= 3 &&
    s[1].imagePositionPatient.Some? && |s[1].imagePositionPatient.value| >= 3
  }

  /** Whether reading ImagePositionPatient on the first two slices raises AttributeError. */
  predicate ImagePositionMissing(s: seq<SliceRecord>)
    requires |s| >= 2
  {
    s[0].imagePositionPatient.None? ||
    (|s[0].imagePositionPatient.value| >= 3 && s[1].imagePositionPatient.None?)
  }

  /**
   * The two-way selection: the z component of ImagePositionPatient when both
   * slices carry it, SliceLocation when the attribute is missing on either.
   */
  lemma ThicknessSelection(s: seq<SliceRecord>)
    requires |s| >= 2
    ensures HasImagePositions(s) ==>
      DeriveThickness(s) == Success(Abs(s[0].imagePositionPatient.value[2] - s[1].imagePositionPatient.value[2]))
    ensures ImagePositionMissing(s) ==>
      DeriveThickness(s) == FromSliceLocation(s[0], s[1])
    ensures ImagePositionMissing(s) && s[0].sliceLocation.Some? && s[1].sliceLocation.Some? ==>
      DeriveThickness(s) == Success(Abs(s[0].sliceLocation.value - s[1].sliceLocation.value))
    ensures !HasImagePositions(s) && !ImagePositionMissing(s) ==>
      DeriveThickness(s) == Failure(MalformedImagePosition)
  {
  }

  /** Only the first two slices of the sorted series decide the thickness. */
  lemma ThicknessUsesFirstTwo(s: seq<SliceRecord>, t: seq<SliceRecord>)
    requires |s| >= 2 && |t| >= 2 && s[..2] == t[..2]
    ensures DeriveThickness(s) == DeriveThickness(t)
  {
    assert s[0] == s[..2][0] && s[1] == s[..2][1];
    assert t[0] == t[..2][0] && t[1] == t[..2][1];
  }

  /** Worked cases: positions 0, 2.5, 5 give 2.5; locations 10, 13 without positions give 3; one slice fails. */
  lemma ThicknessExamples(ps: seq<real>, l0: real)
    ensures DeriveThickness([
      SliceRecord(1, Some([0.0, 0.0, 0.0]), None, None, None),
      SliceRecord(2, Some([0.0, 0.0, 2.5]), None, None, None),
      SliceRecord(3, Some([0.0, 0.0, 5.0]), None, None, None)]) == Success(2.5)
    ensures DeriveThickness([
      SliceRecord(1, None, Some(10.0), None, None),
      SliceRecord(2, None, Some(13.0), None, None)]) == Success(3.0)
    ensures DeriveThickness([SliceRecord(1, Some(ps), Some(l0), None, None)]) == Failure(TooFewSlices)
  {
  }

  /** The series after the loader's loop has set SliceThickness to `t` on every slice. */
  function WithThickness(s: seq<SliceRecord>, t: real): (r: seq<SliceRecord>)
    ensures |r| == |s|
    ensures forall k :: 0 <= k < |s| ==> r[k] == s[k].(sliceThickness := Some(t))
  {
    seq(|s|, k requires 0 <= k < |s| => s[k].(sliceThickness := Some(t)))
  }

  /**
   * Broadcasting the thickness makes it a series-wide constant, leaves every
   * other field of every slice as it was, and keeps the sorted order.
   */
  lemma WithThicknessKeepsSeries(s: seq<SliceRecord>, t: real)
    requires SortedByInstance(s)
    ensures var r := WithThickness(s, t);
      SortedByInstance(r) &&
      (forall k :: 0 <= k < |r| ==> r[k].sliceThickness == Some(t)) &&
      (forall k :: 0 <= k < |r| ==>
        r[k].instanceNumber == s[k].instanceNumber &&
        r[k].imagePositionPatient == s[k].imagePositionPatient &&
        r[k].sliceLocation == s[k].sliceLocation &&
        r[k].pixelSpacing == s[k].pixelSpacing)
  {
  }

  /** Broadcasting does not change the positions, so the thickness re-derived from the result is the same. */
  lemma WithThicknessRederives(s: seq<SliceRecord>, t: real)
    ensures DeriveThickness(WithThickness(s, t)) == DeriveThickness(s)
  {
    var r := WithThickness(s, t);
    if |s| >= 2 {
      assert r[0].imagePositionPatient == s[0].imagePositionPatient && r[0].sliceLocation == s[0].sliceLocation;
      assert r[1].imagePositionPatient == s[1].imagePositionPatient && r[1].sliceLocation == s[1].sliceLocation;
    }
  }

  /** Exchanges two adjacent slices; the series keeps its multiset of slices. */
  method SwapAdjacent(a: array<SliceRecord>, j: int)
    requires 0 < j < a.Length
    modifies a
    ensures a[j - 1] == old(a[j]) && a[j] == old(a[j - 1])
    ensures forall k :: 0 <= k < a.Length && k != j - 1 && k != j ==> a[k] == old(a[k])
    ensures multiset(a[..]) == multiset(old(a[..]))
  {
    a[j - 1], a[j] := a[j], a[j - 1];
  }

  /** The loader's in-place sort of the slices by integer InstanceNumber (here an insertion sort). */
  method SortByInstanceNumber(a: array<SliceRecord>)
    modifies a
    ensures SortedByInstance(a[..])
    ensures multiset(a[..]) == multiset(old(a[..]))
  {
    for i := 0 to a.Length
      invariant forall p, q :: 0 <= p < q < i ==> a[p].instanceNumber <= a[q].instanceNumber
      invariant multiset(a[..]) == multiset(old(a[..]))
    {
      var j := i;
      while j > 0 && a[j - 1].instanceNumber > a[j].instanceNumber
        invariant 0 <= j <= i
        invariant forall p, q :: 0 <= p < q <= i && q != j ==> a[p].instanceNumber <= a[q].instanceNumber
        invariant forall q :: j < q <= i ==> a[j].instanceNumber < a[q].instanceNumber
        invariant multiset(a[..]) == multiset(old(a[..]))
      {
        SwapAdjacent(a, j);
        j := j - 1;
      }
    }
  }

  /**
   * `read_dicom_dataset` on the slices already parsed from the directory:
   * sorts them in place, derives the thickness from the first two, and on
   * success writes it onto every slice. `sorted` is the series right after
   * the sort.
   */
  method ReadDicomDataset(a: array<SliceRecord>) returns (r: Result<real, DicomError>, ghost sorted: seq<SliceRecord>)
    modifies a
    ensures multiset(sorted) == multiset(old(a[..]))
    ensures SortedByInstance(sorted)
    ensures r == DeriveThickness(sorted)
    ensures a[..] == if r.Success? then WithThickness(sorted, r.value) else sorted
  {
    SortByInstanceNumber(a);
    sorted := a[..];
    r := DeriveThickness(a[..]);
    if r.Failure? {
      return;
    }
    var t := r.value;
    for i := 0 to a.Length
      invariant forall k :: 0 <= k < i ==> a[k] == sorted[k].(sliceThickness := Some(t))
      invariant forall k :: i <= k < a.Length ==> a[k] == sorted[k]
    {
      a[i] := a[i].(sliceThickness := Some(t));
    }
  }
}
