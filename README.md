# kopare external-air masking, modelled in Dafny

kopare masks the "external air" around a subject in a volumetric scan. Its
algorithmic core is `keep_components_touching_side_faces`: given a 3D boolean
mask, it labels the 6-connected (face-adjacent) components of the true voxels,
collects the labels that occur on four boundary planes of the volume, and keeps
exactly the voxels whose label was collected. `mask_external_air` wraps it:
median-filter the volume, take half of Otsu's threshold, mark the voxels below
it, and filter that mask.

The model:

- `grids.dfy` (module `Grids`): a grid of shape `(n0, n1, n2)` with its cells as
  nested sequences, C-order raveling (`Ravel`), the maximum of a label map
  (`MaxOf`), and grid extensionality.
- `connectivity.dfy` (module `Connectivity`): face-adjacency, paths through true
  voxels, and `Connected` (same 6-connected component), with reflexivity,
  symmetry, transitivity and a closure lemma.
- `labeling.dfy` (module `Labeling`): the connected-component labelling that
  `label(mask, connectivity=1)` provides. `Component` is a flood fill, proved
  to return exactly the voxels connected to its seed. `Label` floods every
  unlabelled true voxel's component with a fresh label, and is proved to return
  a labelling satisfying `IsLabeling`: background gets 0, and two true voxels
  share a label exactly when they are connected.
- `side_faces.dfy` (module `SideFaces`): the specification `Retained(mask)`
  (`out[v] = mask[v] && v is connected to a true voxel on a side plane`), the
  filter in the shape of the code (`KeepWithLabels`: the maximum-label test, the
  four raveled side slices, dropping label 0, the membership map), and the
  proof that the filter equals the specification for every labelling.
- `external_air.dfy` (module `ExternalAir`): `mask_external_air`, with the median
  filter and Otsu's method as function parameters.

**Side planes follow the code, not the docstring.** The docstring of
`keep_components_touching_side_faces` says the axes are `(z, y, x)` and that
the z faces are excluded. The code reads `labels[0,:,:]`, `labels[-1,:,:]`,
`labels[:,0,:]` and `labels[:,-1,:]`. So the side planes are axis 0 at its
first and last index and axis 1 at its first and last index. The two ends of
axis 2 are never inspected. `OnSidePlane` encodes this. The worked lemmas
`AxisZeroEndKept`, `AxisOneEndKept`, `AxisTwoEndRemoved` and
`InteriorAndAxisTwoEndRemoved` show the consequence. A lone true voxel at index
0 of axis 0 is kept, although under the docstring's reading it lies on an
excluded z face. A lone voxel at index 0 of axis 2 is removed, although under
that reading it lies on an "x = 0" face. The code's own comments call axis 0
"x", which fits an `(x, y, z)` array order. So the model treats the docstring
as the inaccurate part and does not record this as a defect.

## Model

| member | source | states |
|---|---|---|
| SideFaces.KeepComponentsTouchingSideFaces | kopare/kopare_masking.py:18-51 | the result is `Retained(mask)`: it has the mask's shape, it is a subset of the mask, and it keeps every true voxel on an axis-0 or axis-1 boundary plane |
| SideFaces.KeepWithLabels | kopare/kopare_masking.py:35-51 | every branch (no component, no touching label, the membership map) returns a well-formed grid of the mask's shape |
| SideFaces.KeepWithLabelsIsRetained | kopare/kopare_masking.py:35-51 | for ANY valid labelling, the filter after labelling returns exactly the true voxels whose component reaches a side plane |
| SideFaces.LabelNumberingUnobservable | kopare/kopare_masking.py:37-51 | two different labellings of the same mask give the same output |
| SideFaces.SideLabelsMembers | kopare/kopare_masking.py:37-46 | a label occurs in the concatenated raveled slices `labels[0,:,:]`, `labels[-1,:,:]`, `labels[:,0,:]`, `labels[:,-1,:]` iff some voxel on those planes carries it |
| SideFaces.AxisZeroSlice | kopare/kopare_masking.py:40-41 | `labels[a,:,:]`: a plane of shape (n1, n2) whose element (j, k) is the label at voxel (a, j, k) |
| SideFaces.AxisOneSlice | kopare/kopare_masking.py:42-43 | `labels[:,b,:]`: a plane of shape (n0, n2) whose element (i, k) is the label at voxel (i, b, k) |
| SideFaces.SideLabels | kopare/kopare_masking.py:38-45 | the concatenation of the four raveled side slices has 2·n1·n2 + 2·n0·n2 elements; what it contains is stated by `SideLabelsMembers` |
| SideFaces.TouchingLabels | kopare/kopare_masking.py:37-47 | the touching labels are exactly the non-zero labels carried by some voxel on a side plane; `RetainedByLabel` states what keeping a voxel by this set means |
| SideFaces.RetainedByLabel | kopare/kopare_masking.py:47-51 | a voxel is kept iff its label is a non-zero label found on a side plane (both directions) |
| SideFaces.ZeroSizeUnchanged | kopare/kopare_masking.py:27-28 | a zero-size mask is returned unchanged |
| SideFaces.AllFalseUnchanged | kopare/kopare_masking.py:30-36 | a mask with no true voxel (maximum label 0) is returned unchanged |
| SideFaces.SideVoxelRetained | kopare/kopare_masking.py:37-51 | a true voxel on an axis-0 or axis-1 boundary plane is true in the output |
| SideFaces.ComponentKeptWhole | kopare/kopare_masking.py:30-51 | two voxels of the same 6-connected component get the same output value |
| SideFaces.AdjacentVoxelsAgree | kopare/kopare_masking.py:30 | two face-adjacent true voxels get the same output value |
| SideFaces.UnreachedComponentRemoved | kopare/kopare_masking.py:37-49 | a component whose voxels all lie strictly inside along axes 0 and 1 is removed, with no constraint on axis 2, so touching the ends of axis 2 does not keep it |
| SideFaces.NoSideVoxelAllFalse | kopare/kopare_masking.py:47-49 | if no true voxel lies on the four side planes, the output is all false |
| SideFaces.Idempotent | kopare/kopare_masking.py:18-51 | filtering the filtered mask again changes nothing |
| SideFaces.AxisZeroEndKept | kopare/kopare_masking.py:40-41 | 5×5×5, one true voxel at (0, 2, 2): the output equals the input |
| SideFaces.AxisOneEndKept | kopare/kopare_masking.py:42-43 | 5×5×5, one true voxel at (2, 0, 2): the output equals the input |
| SideFaces.AxisTwoEndRemoved | kopare/kopare_masking.py:37-46 | 5×5×5, one true voxel at (2, 2, 0): the output is all false |
| SideFaces.InteriorAndAxisTwoEndRemoved | kopare/kopare_masking.py:37-49 | 7×7×7, true voxels at (3, 3, 3) and (3, 3, 0): the output is all false |
| Labeling.Component | kopare/kopare_masking.py:30 | the flood fill from a true voxel returns exactly the voxels connected to it |
| Labeling.LabelComponents | kopare/kopare_masking.py:30 | every true voxel gets a positive label, and labels mark whole components, one label per component |
| Labeling.Label | kopare/kopare_masking.py:30 | `label(mask, connectivity=1)`: 0 exactly on false voxels, and equal labels on true voxels exactly when they are 6-connected |
| Connectivity.Neighbours | kopare/kopare_masking.py:30 | the six candidate neighbours are exactly the voxels that differ by one unit along one axis (connectivity 1) |
| Grids.MaxOf | kopare/kopare_masking.py:35 | `labels.max()`: an upper bound of every label that is itself a label (0 only when there is none) |
| ExternalAir.Below | kopare/kopare_masking.py:13 | `mask = A < threshold`: a boolean grid of A's shape that is true at a voxel exactly when A is below the threshold there |
| ExternalAir.MaskExternalAir | kopare/kopare_masking.py:8-15 | the threshold is 0.5 × the Otsu value of the filtered volume, the mask is the side filter applied to `A < threshold`, has the filtered volume's shape, and is a subset of `{v : A[v] < threshold}` |
| ExternalAir.AirMaskBounds | kopare/kopare_masking.py:13-14 | a voxel at or above the threshold is never marked; a below-threshold voxel on a side plane always is |

## Left out

- Median filtering (`vtkfilters.filterVtiMedian`) and channel extraction (`getArrayAsNumpy`) are foreign VTK calls. `MaskExternalAir` takes them together as the function parameter `medianFilter`, which folds in `median_filter_size` and `arrayName`. The filtered volume is returned as a grid, not a VTK image object.
- Otsu's method (`threshold_otsu`) is floating-point histogram numerics from a foreign library. It is the function parameter `otsu`. The behaviour on empty or constant arrays is whatever that parameter returns.
- Intensities are `real`. Floating-point rounding and NaN comparisons are not modelled; multiplying by 0.5 is exact apart from subnormals.
- The return dtype is not modelled. The source returns the original bool mask, bool zeros, or an int16 0/1 array. Every case is a `Grid<bool>` here.
- `label` numbers components 1..N in scan order. The model's labelling promises only distinct positive labels per component. The filter never depends on the numbering (`LabelNumberingUnobservable`).
- Labelling runs on sets and maps of voxel positions, not in place on an array. The source's `label` is a foreign routine, so no in-place update or array aliasing is lost.
- `np.unique` returns a sorted array of the distinct side labels; `TouchingLabels` is a set. The code reads that array only through membership (`np.isin`) and emptiness (`.size == 0`), which a set gives the same answers to, so the order is not observable.
- The commented-out label dump and debug prints inside the filter are not live behaviour.
- kopare/kopare.py is not part of this model. It holds the CLI, logging, filesystem checks, JSON parameter loading, DICOM discovery and VTK file writes: all I/O and foreign-library glue.
