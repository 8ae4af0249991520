# Image and annotation tiling, modelled in Dafny

This project models `src/tiling.py` of ChartExtractor. The module cuts a large image into a grid of overlapping tiles so that an object detector can work on small crops. It also hands each bounding-box annotation to every tile that fully contains it. The module has four parts:

- `validate_tile_parameters` checks the slice width, the slice height, the horizontal overlap ratio and the vertical overlap ratio, in that order. It raises on the first one out of range.
- `generate_tile_coordinates` builds a row-major grid of `(left, top, right, bottom)` boxes. There are `floor(image_height / (slice_height * v))` rows and `floor(image_width / (slice_width * h))` columns. The horizontal stride is `round(slice_width * h)` and the vertical stride is `round(slice_width * v)`. Boxes are not clamped to the image.
- `get_annotations_in_tile` keeps, in input order, the annotations whose box lies inside a tile, edges included.
- `tile_annotations` maps that filter over the coordinate grid. `tile_image` validates, generates the coordinates and maps the image library's `crop` over the grid.

The model is pure: datatypes, functions and lemmas, in two modules.

- `PyNumeric` (`py_numeric.dfy`) holds Python's `round` (round half to even) on exact rationals and the length of `range(n)`.
- `Tiling` (`tiling.dfy`) holds the rest.

Overlap ratios are `real`, which is exact rational arithmetic. `math.floor` is `.Floor`. An annotation is any value of a type `A` together with a function `boxOf: A -> Rect` that plays the part of its `box` property. An image is its width, its height and opaque pixel content, and `crop` is a function parameter.

Python evaluates the outer `range` of the comprehension first and the inner one once per row. So `generate_tile_coordinates` raises `ZeroDivisionError` when `slice_height * v` is zero. When `slice_width * h` is zero it raises only if there is at least one row. `Tiling.Layout` models both cases as `Err(DivisionByZero)`. `tile_annotations` does not validate, so it inherits these errors. `tile_image` validates first, so it never reaches them.

The vertical stride is taken from the slice width, as the code does. A corrected layout that takes it from the slice height, `Tiling.GenerateTileCoordinatesCorrected`, sits beside it; see Findings. `TileImage` and `TileAnnotations` use the as-written layout, because that is what the module computes.

## Model

| member | source | states |
|---|---|---|
| `PyNumeric.RoundHalfEven` | src/tiling.py:115-118 | `round(x)` lies within one half of `x`, and on an exact tie it is even |
| `PyNumeric.RoundIsNearest` | src/tiling.py:115-118 | no integer is closer to `x` than `round(x)` |
| `PyNumeric.RoundUnique` | src/tiling.py:115-118 | any integer within one half of `x`, and even on a tie, is `round(x)` |
| `PyNumeric.RoundOfInt` | src/tiling.py:115-118 | rounding an integer gives it back, so a ratio of 1 gives a stride equal to the slice extent |
| `PyNumeric.RoundMonotone` | src/tiling.py:115-118 | rounding preserves order |
| `Tiling.ValidateTileParameters` | src/tiling.py:74-89 | success means no parameter is out of range; an error names a parameter that is out of range, carries the value passed for it, and every parameter checked before it is in range |
| `Tiling.ValidateAcceptsExactly` | src/tiling.py:74-89 | the validator succeeds iff `0 < slice_width <= image_width`, `0 < slice_height <= image_height`, `0 < h <= 1` and `0 < v <= 1` |
| `Tiling.ValidateBoundaries` | src/tiling.py:74-89 | a slice the size of the image with ratio 1 is accepted; width 0, width above the image, height above the image, ratio 0 and ratio 1.5 are rejected with that parameter named |
| `Tiling.Layout` | src/tiling.py:112-127 | fails only with a division by zero, exactly when `slice_height * v` is zero or there are rows and `slice_width * h` is zero; otherwise the grid has `floor(image_height / (slice_height * v))` rows (none if negative), and when it has rows each has `floor(image_width / (slice_width * h))` boxes, box (y, x) starting at `(x * hs, y * vs)` and measuring `slice_width` by `slice_height` |
| `Tiling.GenerateTileCoordinates` | src/tiling.py:92-128 | `Layout` with the slice width as the basis of the vertical stride, as the code has it: any error is a division by zero, and a non-empty result is the tile grid whose columns step by `round(slice_width * h)` and whose rows step by `round(slice_width * v)` |
| `Tiling.GenerateTileCoordinatesCorrected` | src/tiling.py:115-118 | the same layout with the rows stepping by `round(slice_height * v)`, the evidently intended stride |
| `Tiling.GridSteps` | src/tiling.py:115-118 | in a tile grid all boxes of a row share one top, the next column starts one horizontal stride to the right, and the next row starts one vertical stride lower |
| `Tiling.StrideBounds` | src/tiling.py:115-116 | for a positive extent and a ratio in (0, 1] the rounded stride is between 0 and the extent, and equals the extent when the ratio is 1 |
| `Tiling.CountAtLeastOne` | src/tiling.py:120-125 | for a slice no larger than the image and a ratio in (0, 1], the divisor is non-zero and the row or column count is at least 1 |
| `Tiling.GenerateTileCoordinatesShape` | src/tiling.py:92-128 | for valid parameters the coordinates are produced without error, with at least one row and one column, the first box is `(0, 0, slice_width, slice_height)`, and every box has the slice's size and sits at `(x * round(slice_width * h), y * round(slice_width * v))` |
| `Tiling.HorizontalNeighbours` | src/tiling.py:115-117 | for valid parameters the next box in a row starts at or after this box's left edge and no later than its right edge; with `h == 1` it starts exactly at this box's right edge |
| `Tiling.AsWrittenRowsLeaveGap` | src/tiling.py:116-118 | with the as-written vertical stride, a 100x100 image in 50x25 slices with no overlap has rows at tops 0, 50, 100, 150, and pixel row 30 lies in no tile |
| `Tiling.AsWrittenRowsOverlap` | src/tiling.py:116-118 | with the as-written vertical stride, a 100x100 image in 25x50 slices with ratio 1 has two rows at tops 0 and 25 that overlap, and pixel row 80 lies in no tile |
| `Tiling.CorrectedRowsLeaveNoGap` | src/tiling.py:116-118 | with the vertical stride taken from the slice height and valid parameters, the next row starts at or below this row's top and no lower than its bottom; with `v == 1` it starts exactly at its bottom |
| `Tiling.ZeroStrideTilesCoincide` | src/tiling.py:115-121 | validation admits a zero stride: a 1x1 slice with ratio 0.5 on a 10x10 image gives 20 columns that are all the same box |
| `Tiling.TileCanStartPastImage` | src/tiling.py:115-122 | the column count uses the unrounded stride, so a valid layout (slice 7, ratio 0.5, width 100) has 28 columns and its last box starts at 108, past the image's right edge |
| `Tiling.AnnotationsInTile` | src/tiling.py:177-190 | an annotation is in the result iff it is in the input and its box is inside the tile, all four edges compared with `>=` and `<=` |
| `Tiling.AnnotationsInTileIsFilter` | src/tiling.py:187-189 | the result is a subsequence of the input, in input order; each annotation occurs as often as in the input if its box is inside the tile, and not at all otherwise |
| `Tiling.BoxEqualToTileKept` | src/tiling.py:179-186 | an annotation whose box equals the tile is kept |
| `Tiling.StraddlingDropped` | src/tiling.py:179-186 | an annotation whose box crosses one of the tile's edges is dropped |
| `Tiling.AnnotationsInTileAppend` | src/tiling.py:187-189 | filtering a concatenation is the concatenation of the filtered parts |
| `Tiling.AnnotationsInNestedTile` | src/tiling.py:179-189 | filtering by a tile and then by a tile inside it equals filtering by the inner tile; filtering twice by one tile changes nothing |
| `Tiling.MapGrid` | src/tiling.py:170-173 | mapping over a grid keeps its shape and applies the function to every cell |
| `Tiling.TileAnnotations` | src/tiling.py:131-174 | fails exactly when coordinate generation fails, with the same error; otherwise the result has the coordinate grid's shape and cell (y, x) is the filter of the annotations by box (y, x) |
| `Tiling.TileAnnotationsCell` | src/tiling.py:162-173 | without validation, whenever both divisors are non-zero, an annotation is in cell (y, x) iff it is in the input and its box lies within `[x * hs, x * hs + slice_width]` by `[y * vs, y * vs + slice_height]` |
| `Tiling.TileImage` | src/tiling.py:11-52 | fails exactly when validation fails, with the validator's error; otherwise the result has the coordinate grid's shape, with at least one row and one column, and cell (y, x) is the crop of box (y, x) |
| `Tiling.QuadrantsExample` | src/tiling.py:112-127 | a 100x100 image in 50x50 slices with no overlap gives the four quadrant boxes, row by row |
| `Tiling.QuadrantsAnnotationsExample` | src/tiling.py:170-189 | on those quadrants, an annotation at (10, 10, 40, 40) is only in the top-left cell and one at (40, 10, 60, 40) is in no cell |

## Left out

- Floating point: ratios, products, the divisions and `math.floor` use exact rationals. Python float rounding, infinities and NaN are not modelled.
- The text of the `ValueError` messages. An error carries only the parameter and the value passed.
- PIL: image decoding, `image.size` and `image.crop` with its black padding. An image is its width, height and opaque pixels, and `crop` is a function parameter that is applied cell by cell.
- Annotation objects: only the `box` property is modelled, as `boxOf`, with real coordinates. Integer boxes are the special case of whole numbers.
- Python `TypeError`s from arguments of the wrong type. Every argument has its declared numeric type.
- The docstring of `validate_tile_parameters` (src/tiling.py:72) gives the slice height's range as the open interval (0, image_height). The check at src/tiling.py:78 accepts `slice_height == image_height`, and the model follows the check.

## Findings

| source | as written | input that shows it | evidently intended | confidence | as-written member | corrected member |
|---|---|---|---|---|---|---|
| src/tiling.py:116-118 | the vertical stride is `round(slice_width * v)` | image 100x100, slice 50 wide and 25 high, both ratios 1: rows start at 0, 50, 100, 150 and pixel rows 25-49 are in no tile; with slices 25 wide and 50 high the two rows overlap and pixel rows 75-99 are in no tile | `round(slice_height * v)`, so that vertically adjacent tiles overlap or abut | high (not executed) | `Tiling.AsWrittenRowsLeaveGap`, `Tiling.AsWrittenRowsOverlap` | `Tiling.CorrectedRowsLeaveNoGap` |

The as-written lemmas are about `Tiling.GenerateTileCoordinates`. The corrected lemma is about `Tiling.GenerateTileCoordinatesCorrected`, the same layout with the rows stepping by `round(slice_height * v)`.
