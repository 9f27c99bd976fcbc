# Organ segmentation front end: DICOM volume preparation and upload rules

This project is a Dafny model of the two pieces of the organ segmentation
service that carry logic of their own.

**DICOM volume preparation** (`HoloPipelines/core/adapters/dicom_file.py`):

- The slice headers of a series are sorted in place by `InstanceNumber`.
- A slice thickness is derived as the absolute z-difference of the first two
  sorted slices. It uses `ImagePositionPatient[2]` and falls back to
  `SliceLocation` when that attribute is missing on either slice. It is then
  written onto every slice.
- The raw voxel array, in scanner order (z, y, x), is transposed to
  (x, y, z) and mirrored along the new axis 0.
- The array is planned for resampling onto a 1 x 1 x 1 grid. The target
  shape is `round(shape * spacing)`, with
  `spacing = [SliceThickness, PixelSpacing[0], PixelSpacing[1]]`. The
  effective factor is `target / shape`.

The model keeps one quirk of the source.
`read_dicom_as_np_ndarray_and_normalise` normalises the array *after* it has
been reoriented. So entry i of the spacing vector scales axis i of the
reoriented array, and the slice thickness ends up scaling the x axis. The
source flags this with a TODO at dicom_file.py:114-115.
`DicomFile.ThicknessScalesAxisX` states it.

**Upload rules** (`server.py`):

- The extension check: the text after the last dot, lower-cased, must be
  `nii`.
- The output-name rule: the prefix before the first underscore, followed by
  `__niftynet_out.nii.gz`.
- The decision of the `/model` view: which 400 answer it gives, when it
  calls the model, and the renaming of the upload to `seg_CT.nii`.

Modules:

- `Wrappers`: `Option` and `Result`.
- `DicomSlices`: the metadata pass, `read_dicom_dataset`. Slices are
  `SliceRecord` values in an `array`. The sort and the thickness loop are
  methods that update that array in place.
- `Reorient`: `flip_numpy_array_dimensions`, as functions on
  `seq<seq<seq<T>>>` with the shape carried explicitly.
- `Resample`: the spacing vector, `np.round` (half to even), target shape
  and effective factors.
- `DicomFile`: `normalise_dicom` and `read_dicom_as_np_ndarray_and_normalise`
  as methods composing the above, each proved against a specification
  function.
- `Server`: `file_format_is_allowed`, `format_output_filename` and `seg_file`,
  as pure functions on strings.

Two behaviours of the code are kept as written:

- The code never checks the sign of the spacings. A zero or negative
  spacing gives a plan with zero or negative target extents.
- Slice 0's `ImagePositionPatient` is read first. So if that attribute is
  present on slice 0 but has no z entry, the load ends, whatever slice 1
  holds.

## Model

| member | source | states |
|---|---|---|
| DicomSlices.Abs | HoloPipelines/core/adapters/dicom_file.py:28-33 | `np.abs`: the result is non-negative and is the value or its negation |
| DicomSlices.DeriveThickness | HoloPipelines/core/adapters/dicom_file.py:26-33 | fewer than two slices is an error (TooFewSlices); a derived thickness is never negative |
| DicomSlices.FromSliceLocation | HoloPipelines/core/adapters/dicom_file.py:31-33 | the fallback succeeds exactly when both slices carry SliceLocation, and then yields a non-negative value |
| DicomSlices.ThicknessSelection | HoloPipelines/core/adapters/dicom_file.py:27-33 | two-way selection: `abs(z0 - z1)` of ImagePositionPatient[2] when both carry it; the SliceLocation fallback (and its value) when the attribute is missing; an error when it is present without a z entry |
| DicomSlices.ThicknessUsesFirstTwo | HoloPipelines/core/adapters/dicom_file.py:28-33 | only the first two sorted slices decide the thickness |
| DicomSlices.ThicknessExamples | HoloPipelines/core/adapters/dicom_file.py:27-33 | positions 0, 2.5, 5 give 2.5; locations 10, 13 give 3.0; a single slice is an error |
| DicomSlices.WithThickness | HoloPipelines/core/adapters/dicom_file.py:35-36 | the loop sets SliceThickness of slice k to the derived value and changes nothing else of slice k |
| DicomSlices.WithThicknessKeepsSeries | HoloPipelines/core/adapters/dicom_file.py:35-38 | after the broadcast every slice has the same SliceThickness; instance numbers, positions, locations and pixel spacings are unchanged, and the order stays sorted |
| DicomSlices.WithThicknessRederives | HoloPipelines/core/adapters/dicom_file.py:26-36 | deriving the thickness again after the broadcast gives the same result |
| DicomSlices.SortByInstanceNumber | HoloPipelines/core/adapters/dicom_file.py:24 | in place: the array ends ordered non-decreasingly by InstanceNumber and is a permutation (same multiset) of what it held |
| DicomSlices.ReadDicomDataset | HoloPipelines/core/adapters/dicom_file.py:13-38 | the result is the thickness derived from the sorted series (a permutation of the input, ordered by InstanceNumber); on success the array holds that series with the thickness on every slice, on failure the sorted series |
| Reorient.Transpose | HoloPipelines/core/adapters/dicom_file.py:68 | shape (a, b, c) becomes (c, b, a) and cell (i, j, k) is input cell (k, j, i) |
| Reorient.MirrorAxis0 | HoloPipelines/core/adapters/dicom_file.py:69 | same length, with position i holding the input's position `n - 1 - i` |
| Reorient.Flip | HoloPipelines/core/adapters/dicom_file.py:60-70 | shape (Z, Y, X) becomes (X, Y, Z) with `out[i][j][k] == in[k][j][X-1-i]` for every in-range index |
| Reorient.Unflip | HoloPipelines/core/adapters/dicom_file.py:60-70 | the reverse mapping: shape (X, Y, Z) back to (Z, Y, X) with `r[k][j][i] == w[X-1-i][j][k]` |
| Reorient.FlipInverse | HoloPipelines/core/adapters/dicom_file.py:60-70 | Unflip undoes Flip and Flip undoes Unflip, so the reorientation is a bijection on cells |
| Reorient.TransposeKeepsValues | HoloPipelines/core/adapters/dicom_file.py:68 | the transpose keeps every value with its multiplicity |
| Reorient.MirrorKeepsValues | HoloPipelines/core/adapters/dicom_file.py:69 | mirroring axis 0 keeps every value with its multiplicity |
| Reorient.FlipKeepsValues | HoloPipelines/core/adapters/dicom_file.py:60-70 | the reoriented array holds the same multiset of values as the input |
| Resample.Round | HoloPipelines/core/adapters/dicom_file.py:112 | `np.round`: the result is within 1/2 of the input, and a tie goes to the even neighbour |
| Resample.RoundInteger | HoloPipelines/core/adapters/dicom_file.py:112 | rounding an integer-valued input returns that integer |
| Resample.SpacingVector | HoloPipelines/core/adapters/dicom_file.py:85-106 | succeeds exactly when SliceThickness and two PixelSpacing entries exist, with value `[SliceThickness, PixelSpacing[0], PixelSpacing[1]]`; otherwise the terminal MissingSpacing error |
| Resample.AxisTarget | HoloPipelines/core/adapters/dicom_file.py:109-112 | the target extent of one axis is within 1/2 of `extent * spacing` (target spacing 1) |
| Resample.TargetShape | HoloPipelines/core/adapters/dicom_file.py:110-112 | one target extent per axis, each the rounded `shape[i] * spacing[i]` and within 1/2 of it |
| Resample.ResizeFactor | HoloPipelines/core/adapters/dicom_file.py:116 | fails exactly when some extent is 0; otherwise `shape[i] * factor[i] == new_shape[i]` on every axis |
| Resample.PlanResize | HoloPipelines/core/adapters/dicom_file.py:109-116 | the plan's shape is the per-axis rounded target, and its factors satisfy `shape[i] * factor[i] == new_shape[i]`; fails exactly on an empty axis |
| Resample.UnitSpacingIsIdentity | HoloPipelines/core/adapters/dicom_file.py:109-116 | spacing (1, 1, 1) leaves the shape unchanged and makes every factor 1 |
| Resample.EffectiveFactorNearNominal | HoloPipelines/core/adapters/dicom_file.py:110-116 | the effective factor differs from the nominal `spacing / 1` by at most `0.5 / shape[i]` |
| Resample.FactorBound | HoloPipelines/core/adapters/dicom_file.py:112-116 | on one axis, a rounded extent divided back by the extent lies within `0.5 / extent` of the spacing |
| Resample.ZoomedShape | HoloPipelines/core/adapters/dicom_file.py:118-120 | zoom's output shape: one extent per input axis, each within 1/2 of `extent * factor` (rounded) |
| Resample.ZoomedExtent | HoloPipelines/core/adapters/dicom_file.py:118-120 | one axis of the zoom output lies within 1/2 of `extent * factor` |
| Resample.ZoomReachesTargetShape | HoloPipelines/core/adapters/dicom_file.py:116-120 | zooming by the effective factors produces exactly the target shape |
| Resample.DoubleSpacingOnAxis0 | HoloPipelines/core/adapters/dicom_file.py:109-116 | spacing (2, 1, 1) on shape (10, 10, 10) plans shape (20, 10, 10) with factors (2, 1, 1) |
| DicomFile.SeriesSpacing | HoloPipelines/core/adapters/dicom_file.py:80-96 | succeeds exactly when the thickness is derived and the first sorted slice has a PixelSpacing pair, with value `[derived thickness, PixelSpacing[0], PixelSpacing[1]]`; a failed derivation passes its error through, otherwise the failure is MissingSpacing; fewer than two slices is an error |
| DicomFile.NormalisePlan | HoloPipelines/core/adapters/dicom_file.py:73-116 | a failed thickness derivation passes its error through unchanged; once the spacing vector exists the plan is PlanResize of it for the array's shape, with three axes; fewer than two slices is an error |
| DicomFile.NormalisePlanSucceeds | HoloPipelines/core/adapters/dicom_file.py:80-116 | a plan exists exactly when the thickness is derived, the first sorted slice has a PixelSpacing pair and no array axis is empty |
| DicomFile.NormalisePlanFactors | HoloPipelines/core/adapters/dicom_file.py:109-116 | the plan's factors take every axis exactly to its target extent: `shape[i] * factor[i] == new_shape[i]` |
| DicomFile.NormalisePlanAxes | HoloPipelines/core/adapters/dicom_file.py:85-116 | axis 0 is resized by the derived thickness and axes 1 and 2 by PixelSpacing[0] and PixelSpacing[1] of the first sorted slice |
| DicomFile.NoPixelSpacingNoPlan | HoloPipelines/core/adapters/dicom_file.py:85-106 | a first slice without a PixelSpacing pair never yields a plan; once the thickness is derived the error is MissingSpacing |
| DicomFile.NormaliseDicom | HoloPipelines/core/adapters/dicom_file.py:73-123 | the result is NormalisePlan of the sorted series; the slice array ends sorted, with the thickness written on success |
| DicomFile.ReadDicomAsArrayAndNormalise | HoloPipelines/core/adapters/dicom_file.py:126-129 | on success the array handed to zoom is Flip of the raw array, and the plan is NormalisePlan for the reoriented shape (X, Y, Z); failures carry NormalisePlan's error |
| DicomFile.ThicknessScalesAxisX | HoloPipelines/core/adapters/dicom_file.py:114-128 | because the array is reoriented first, the thickness scales the x extent and PixelSpacing[1] scales the slice count |
| Server.AfterLastDot | server.py:21 | absent exactly when the name has no dot; otherwise a suffix of the name, preceded by a dot and holding none |
| Server.Lower | server.py:21 | `.lower()` on ASCII: same length, no upper-case letter left, every other character unchanged |
| Server.FileFormatIsAllowed | server.py:20-21 | an allowed name ends in a dot followed by three characters that lower-case to `nii` |
| Server.AllowedIff | server.py:12-21 | a name is allowed if and only if it has a dot whose following text is dot-free and lower-cases to `nii` |
| Server.AllowedIgnoresCase | server.py:21 | two names that differ only in letter case are both allowed or both refused |
| Server.UpperCaseExtensionAllowed | server.py:12-21 | `a.NII` is allowed |
| Server.UploadFilenameAllowed | server.py:12-21 | `seg_CT.nii` is allowed |
| Server.CompressedNameRefused | server.py:12-21 | `a.nii.gz` is refused |
| Server.BareExtensionRefused | server.py:12-21 | `nii` (no dot) is refused |
| Server.BeforeFirstUnderscore | server.py:25 | a prefix of the name with no underscore, followed in the name by an underscore unless it is the whole name |
| Server.FormatOutputFilename | server.py:24-26 | the result ends with `__niftynet_out.nii.gz`, preceded by the longest underscore-free prefix of the name |
| Server.PrefixBeforeUnderscore | server.py:25 | an underscore-free text followed by an underscore splits back to that text |
| Server.FormatOutputFilenameIdempotent | server.py:24-26 | formatting a formatted name gives the same name |
| Server.SegFile | server.py:30-45 | a missing file part gives 400 "No file in the request"; else an empty name gives 400 "No selected file"; else an allowed name reaches prediction, always under the name `seg_CT.nii`; else nothing is returned |
| Server.PredictedUploadIsAllowed | server.py:39-43 | the renamed upload handed to prediction passes the extension check itself |

## Left out

- Reading the series is not modelled: `pydicom.read_file`, `os.listdir` and the SimpleITK series reader are foreign library I/O. Parsed slice headers and the raw voxel array are inputs.
- The spline interpolation of `scipy.ndimage.zoom` is floating-point numerics in a library that is not part of this model. Only the array and factors handed to it are modelled. `Resample.ZoomedShape` uses zoom's documented output-shape rule (round each extent times its factor).
- Floating point: positions, spacings and factors are Dafny reals, so IEEE rounding of `shape * spacing` and of the division is not modelled.
- Converting header values with `float(...)` is not modelled: the model's header values are already reals, so that conversion cannot fail.
- The except handler at dicom_file.py:97-106 reads `PixelSpacing` again, so a missing or short `PixelSpacing` raises a second exception before `sys.exit`. Both outcomes end the request. The model reports both as `MissingSpacing`.
- Logging and the mechanics of `sys.exit` are left out. Each terminal failure is a `Failure` value.
- An empty axis makes numpy's factor `0/0`, which is NaN. The model reports this as `EmptyAxis` and does not carry NaN.
- Zero or negative spacings are not rejected, because the code does not reject them. What zoom does with the resulting extents is outside the model.
- A series with fewer than two slices is reported as `TooFewSlices`. In the source, the exception raised depends on which attribute read fails first.
- DicomSlices.SortByInstanceNumber: states ordered and a permutation, but not the stability of Python's `list.sort`, so equal instance numbers may in principle be reordered by the contract.
- A slice without an `InstanceNumber`, or with one that `int()` rejects, makes the sort at dicom_file.py:24 raise, which ends the load in the source. The model takes every instance number as a valid integer, so it does not express that error path.
- The consistency between the voxel array's slice count and the number of slice headers is not modelled: the source never checks it.
- `models/dense_vnet_abdominal_ct/model.py` is not part of this model. It is directory handling and a blocking external process. `abdominal_model.predict` appears only as the `Predict` decision.
- Flask routing, multipart parsing, `send_file` and `app.run` are transport. A request is the map from part names to uploaded file names. `NoReturn` is the view returning `None`, which Flask turns into a server error.
- `seg_file` renames the upload object in place. The model returns the new name instead of mutating an upload object.
- `format_output_filename` is not called by `seg_file` in the source. It is modelled on its own.
- `str.lower` is restricted to ASCII letters. Unicode case folding is not modelled.
