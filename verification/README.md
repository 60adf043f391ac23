# IoU accuracy evaluator, modelled in Dafny

This project models the scoring core of a small bounding-box evaluation
utility (`utils.py`). A bounding box is four integer pixel coordinates
`(xmin, ymin, xmax, ymax)`. `computeIOU` scores a ground-truth box against a
result box by Intersection over Union, with the help of `computeArea`.
`evalue_accuracy` matches ground-truth and result boxes by image identifier
and returns the mean IoU.

The model is split into four modules:

- `Errors` (`errors.dfy`): the two ways the core fails, as an `EvalError`
  inside a `Result`. On plain integer boxes, both are Python's
  `ZeroDivisionError`. On the numpy boxes the loader produces, the first
  becomes `nan` instead (see "Left out").
  - `ZeroUnion`: overlapping boxes with an empty union (line 102).
  - `EmptyEvaluation`: nothing was collected (line 191).
- `Boxes` (`boxes.dfy`): boxes, axis pairs, the two-element sort, and
  `computeArea`. It also holds a reference definition of area: the set of
  integer unit cells a box covers (`Cells`, `Grid`). This is proved to have
  exactly `computeArea` elements.
- `Iou` (`iou.dfy`): the disjointness test, the intersection and union
  areas, and `computeIOU` itself. The main theorem is `IouIsCellRatio`: the
  IoU is |shared cells| / |covered cells| whenever the boxes cover any cell.
  A small set of lemmas derives symmetry, orientation independence, the
  range [0, 1], self-IoU and worked examples.
- `Accuracy` (`accuracy.dfy`): the loop of `evalue_accuracy`.
  - `AccuracyOf` is a functional definition of the loop.
  - `EvaluateAccuracy` is the loop itself, proved equal to `AccuracyOf`.
  - Lemmas cover the truncation to `min(|ground|, |results|)` keys, the
    skipping of unknown keys, both failure cases, the mean, and
    independence from the key order when nothing is truncated.

In the model, everything is integer arithmetic until the final divisions.
Those are exact `real` quotients, so the model has no floating point. The
source converts the intersection area to a float at line 99. Its rounding is
listed under "Left out".

Inputs that the source gets from I/O are parameters here:

- the ground-truth map and the result map, which the source loads from XML
  directories;
- `keys`, the result map's key order. Python 2's `dict.keys()` does not fix
  this order. `keys` must list every result identifier exactly once
  (`IsKeyOrder`).

The model follows the code as written:

- `computeArea` returns an integer product, not a float.
- A degenerate overlapping pair is an error (`ZeroUnion`), as the
  unguarded division at line 102 makes it on integer boxes. It does not
  score 0.
- Keys are truncated to `min(len(ground), len(results))` as written at
  line 182. A shared identifier listed after the first `count` result
  keys is never scored (`TruncationExample`).
- The disjointness test at line 95 counts a box of zero width or height as
  separated from every box it merely touches, including itself. So
  `computeIOU(a, a)` is `0` for such a box (`SelfIou`).

## Model

| member | source | states |
|---|---|---|
| Boxes.Sort | utils.py:87-94 | sorting an axis pair yields the same two values, smaller first |
| Boxes.Area | utils.py:104-105 | the area is never negative, and it is zero exactly when one side has zero length |
| Boxes.BoxArea | utils.py:100-101 | the area of a box is never negative, and it is zero exactly when the box has zero width or zero height |
| Boxes.AreaSwapInvariant | utils.py:104-105 | exchanging the two endpoints of either interval leaves the area unchanged |
| Boxes.AreaCountsCells | utils.py:104-105 | the area of two sorted intervals equals the number of integer unit cells they span |
| Boxes.BoxAreaCountsCells | utils.py:100-101 | `gt_area` and `test_area` count the unit cells the box covers |
| Iou.Separated | utils.py:95 | for a non-separated pair the intersection rectangle is well formed; for two boxes of positive area, the test holds exactly when that rectangle is empty |
| Iou.Overlap | utils.py:97-98 | the intersection interval starts at one of the two lower ends, no lower than either, and stops at one of the two upper ends, no higher than either |
| Iou.CrossArea | utils.py:97-99 | for boxes that pass the overlap test, the intersection area is between 0 and the area of each box |
| Iou.UnionArea | utils.py:100-102 | the denominator `gt_area + test_area - cross_area` is at least the area of each box |
| Iou.CrossAreaCountsCells | utils.py:97-102 | the intersection area is the number of cells both boxes cover, and the denominator is the number of cells either covers |
| Iou.ComputeIou | utils.py:80-102 | the IoU fails exactly when the boxes pass the overlap test and both have zero area, and the failure is the zero-union error; a successful IoU lies in [0, 1] |
| Iou.SeparatedSharesNoCell | utils.py:95-96 | boxes caught by the disjointness test share no unit cell |
| Iou.SeparatedIouZero | utils.py:95-96 | separated boxes, including boxes that touch along an edge or at a corner, score exactly 0 |
| Iou.OverlappingIouIsCellRatio | utils.py:97-102 | for overlapping boxes the IoU is shared cells over covered cells, or the zero-union error when they cover no cell |
| Iou.IouIsCellRatio | utils.py:95-102 | the IoU equals shared cells over covered cells whenever any cell is covered |
| Iou.EmptyCoverIou | utils.py:95-102 | when no cell is covered, the IoU is 0 for separated boxes and the zero-union error otherwise |
| Iou.IouSymmetric | utils.py:95-102 | swapping the ground-truth and result boxes does not change the IoU |
| Iou.IouOrientationFree | utils.py:87-94 | reversing the x or y coordinates of either box does not change the IoU |
| Iou.PositiveAreaIouInRange | utils.py:97-102 | two boxes of positive area always have an IoU, and it lies in [0, 1] |
| Iou.SelfIou | utils.py:95-102 | a box of positive area scores 1 against itself; a box of zero area scores 0 against itself |
| Iou.IouOneIffSameCells | utils.py:97-102 | the IoU is 1 exactly when both boxes cover the same nonempty set of cells |
| Iou.PartialOverlapExample | utils.py:97-102 | `(0,0,4,4)` against `(2,2,6,6)` scores 4/28 |
| Iou.TouchingExample | utils.py:95-96 | boxes that share only an edge or only a corner score 0 |
| Iou.DegenerateCrossExample | utils.py:95-102 | the crossing segments `(5,0,5,10)` and `(0,5,10,5)` fail with a zero union |
| Accuracy.IsKeyOrder | utils.py:179 | a key order is a duplicate-free listing whose set of entries is exactly the result map's key set |
| Accuracy.Examined | utils.py:182-186 | the visited keys are the first entries of the key order, and there are exactly min(#ground, #keys) of them |
| Accuracy.Matched | utils.py:185-187 | the matched keys are exactly the visited keys present in the ground truth, with no more entries than visited keys and no duplicates when the visited keys have none |
| Accuracy.CollectIous | utils.py:181-189 | the collected list has one value per matched key, each in [0, 1]; the only failure is the zero-union error |
| Accuracy.CollectedAreIous | utils.py:186-189 | the i-th collected value is the IoU of the i-th matched key's ground-truth and result boxes |
| Accuracy.CollectFailsIff | utils.py:185-189 | the loop fails exactly when some visited key in the ground truth has a failing IoU |
| Accuracy.ErrPersists | utils.py:185-189 | a failure at some key ends the loop with that failure, whatever keys follow |
| Accuracy.Sum | utils.py:191 | the sum of non-negative values is non-negative |
| Accuracy.SumFirst | utils.py:191 | the sum is the first value plus the sum of the rest |
| Accuracy.SumIsPythonSum | utils.py:191 | the model's sum equals Python's `sum`, which adds the values to the start value one at a time from the left |
| Accuracy.SumBounds | utils.py:191 | the sum of n values from [0, 1] lies in [0, n] |
| Accuracy.Mean | utils.py:191 | the mean times the list length is the sum; the mean of values from [0, 1] lies in [0, 1] |
| Accuracy.MeanBounds | utils.py:191 | the sum divided by the length of a nonempty list of values from [0, 1] lies in [0, 1] |
| Accuracy.SumOfCollected | utils.py:188-191 | `sum(result_IoU)` equals the IoUs of the matched keys added in order |
| Accuracy.AccuracyOf | utils.py:178-193 | a successful accuracy lies in [0, 1] and comes from at least one matched key |
| Accuracy.EvaluateAccuracy | utils.py:178-193 | the loop returns exactly what the functional definition of the evaluation returns, failures included |
| Accuracy.AccuracyFailures | utils.py:182-191 | the evaluation fails with a zero union exactly when a visited matched pair has one, and with no data exactly when no visited key is in the ground truth |
| Accuracy.AccuracyIsMeanIou | utils.py:188-191 | a successful accuracy is the sum of the matched keys' IoUs divided by their number |
| Accuracy.KeyOrderLength | utils.py:179-182 | a key order lists as many keys as the result map holds |
| Accuracy.CollectedCountBound | utils.py:182-189 | exactly the first min(#ground, #results) result keys are visited; a key is matched iff it is among them and in the ground truth; at most min(#ground, #results) and at most the number of shared keys IoUs are collected |
| Accuracy.NoTruncationWhenResultsFit | utils.py:171-187 | when the result map is no larger than the ground truth, every result key is visited and every shared key is matched |
| Accuracy.TruncationExample | utils.py:182-189 | with one ground-truth key and two result keys, a shared key listed second is never scored, and the result depends on the key order |
| Accuracy.EmptyInputFails | utils.py:182-191 | an empty map on either side fails with no data |
| Accuracy.NoSharedKeyFails | utils.py:185-191 | maps with no identifier in common fail with no data |
| Accuracy.PositiveAreasAccuracy | utils.py:185-191 | if every box has positive area, the zero-union error cannot occur, the evaluation succeeds exactly when a key is matched, and the accuracy lies in [0, 1] |
| Accuracy.AccuracyIndependentOfKeyOrder | utils.py:178-191 | when the result map is no larger than the ground truth, any two orders of the result keys give the same accuracy |
| Accuracy.ContainedBoxExample | utils.py:97-102 | a 5x5 box inside a 10x10 box scores 0.25 |
| Accuracy.AggregationExample | utils.py:178-193 | ground truth `a:(0,0,10,10), b:(0,0,5,5)` against results `a:(0,0,10,10), b:(0,0,10,10)` gives accuracy 0.625 |

## Left out

- `load_imglst` (utils.py:9-25): it lists, filters, sorts and renames
  directory entries, with no scoring logic.
- `load_bbox_from_xml` (utils.py:28-51): it parses XML with a foreign DOM
  library and converts coordinates through numpy `float32`. The model
  receives the boxes already as integers.
- `load_bboxlist_from_xml` (utils.py:53-78): it scans a directory. As
  written, line 70 uses an undefined name, so it raises `NameError` as soon
  as the directory holds an `.xml` file.
- `write_xml` (utils.py:107-165): it writes a file through an XML
  serialisation library.
- The loader calls at utils.py:175-176: the two maps are parameters.
- Floating point: the IoU and the mean are exact rational numbers. Python
  float rounding is not modelled.
- Python 2's `dict.keys()` order is not modelled. It becomes the parameter
  `keys`.
- `has_key` and `dict.get` become plain map membership and lookup.
- Iou.ComputeIou: the boxes are plain unbounded integers. The loader turns
  them into numpy integer arrays (utils.py:49-50). Then `cross_area` is a
  Python float (line 99), but the denominator at line 102 is a numpy
  `float64`. For a degenerate overlap the division gives `nan` with a runtime
  warning and raises nothing. The model reports it as `ZeroUnion`, the
  exception plain integer boxes would raise.
- Accuracy.AccuracyFailures: for the same reason, when the program is fed by
  its own loader, a degenerate overlap makes the accuracy `nan`
  (`sum` of a list holding `nan`), not an error. The model states it as the
  `ZeroUnion` failure.
- Iou.UnionArea: areas are unbounded integers here. The loader's
  `astype('int')` (utils.py:50) gives the platform's C `long`: 64 bits on
  Linux, 32 bits on Windows. At line 102, `gt_area + test_area` is added in
  that width before the float is subtracted. So the program wraps around once
  a coordinate difference, an area, or that sum passes the largest `long`.
  For two equal squares with 64 bits, that means sides above about
  2.1 * 10^9. The model does not follow that wrap-around. For example, two
  copies of `(0, 0, 2200000000, 2200000000)` score 1 here, but the program
  returns a negative number.
- The model keeps the two `ZeroDivisionError`s apart as `ZeroUnion` and
  `EmptyEvaluation`. On plain integer boxes, Python raises the same exception
  type for both.
