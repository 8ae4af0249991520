/**
 * A model of `src/tiling.py`: cutting an image into a grid of overlapping
 * tiles, and assigning bounding-box annotations to the tiles that fully
 * contain them.
 *
 * Everything here is pure. Overlap ratios are exact rationals (`real`);
 * `round` is Python's round-half-to-even and `math.floor` is `.Floor`.
 * A tile is a `Box` of integer pixel coordinates (left, top, right, bottom);
 * a grid is a row-major `seq<seq<_>>` whose outer index is the row (y) and
 * whose inner index is the column (x).
 */
module Tiling {
  import opened PyNumeric

  /** A tile's (left, top, right, bottom), in pixels. */
  datatype Box = Box(left: int, top: int, right: int, bottom: int)

  /** An annotation's bounding box (left, top, right, bottom). */
  datatype Rect = Rect(left: real, top: real, right: real, bottom: real)

  /** A decoded image: its size and its (uninterpreted) pixel content. */
  datatype Image<P> = Image(width: nat, height: nat, pixels: P)

  /** The four tiling parameters, in the order they are validated. */
  datatype Param = SliceWidth | SliceHeight | HorizontalOverlapRatio | VerticalOverlapRatio

  /**
   * `InvalidParameter` is the `ValueError` of the validator, naming the
   * parameter and the value passed; `DivisionByZero` is the
   * `ZeroDivisionError` the grid arithmetic raises on a zero tile extent.
   */
  datatype TilingError =
    | InvalidParameter(param: Param, value: real)
    | DivisionByZero

  datatype Result<T> = Ok(value: T) | Err(error: TilingError)

  // ---------------------------------------------------------------------
  // validate_tile_parameters
  // ---------------------------------------------------------------------

  /** The position of a parameter in the validation order. */
  function Rank(p: Param): nat {
    match p
    case SliceWidth => 0
    case SliceHeight => 1
    case HorizontalOverlapRatio => 2
    case VerticalOverlapRatio => 3
  }

  /** The value that was passed for parameter `p`. */
  function ValueOf(p: Param, sliceWidth: int, sliceHeight: int, h: real, v: real): real {
    match p
    case SliceWidth => sliceWidth as real
    case SliceHeight => sliceHeight as real
    case HorizontalOverlapRatio => h
    case VerticalOverlapRatio => v
  }

  /** Parameter `p` is outside its allowed range. */
  predicate Violates(p: Param, imageWidth: int, imageHeight: int,
                     sliceWidth: int, sliceHeight: int, h: real, v: real)
  {
    match p
    case SliceWidth => !(0 < sliceWidth <= imageWidth)
    case SliceHeight => !(0 < sliceHeight <= imageHeight)
    case HorizontalOverlapRatio => !(0.0 < h <= 1.0)
    case VerticalOverlapRatio => !(0.0 < v <= 1.0)
  }

  /** The parameters the validator accepts, stated as one conjunction. */
  predicate ValidParameters(imageWidth: int, imageHeight: int,
                            sliceWidth: int, sliceHeight: int, h: real, v: real)
  {
    && 0 < sliceWidth <= imageWidth
    && 0 < sliceHeight <= imageHeight
    && 0.0 < h <= 1.0
    && 0.0 < v <= 1.0
  }

  /**
   * `validate_tile_parameters`, with the image given by its size. It checks
   * the slice width, the slice height, the horizontal ratio and the vertical
   * ratio in that order and reports the first one out of range.
   */
  function ValidateTileParameters(imageWidth: int, imageHeight: int,
                                  sliceWidth: int, sliceHeight: int, h: real, v: real): (r: Result<()>)
    ensures r.Ok? ==> forall p :: !Violates(p, imageWidth, imageHeight, sliceWidth, sliceHeight, h, v)
    ensures r.Err? ==>
      && r.error.InvalidParameter?
      && r.error.value == ValueOf(r.error.param, sliceWidth, sliceHeight, h, v)
      && Violates(r.error.param, imageWidth, imageHeight, sliceWidth, sliceHeight, h, v)
      && forall q :: Rank(q) < Rank(r.error.param) ==>
           !Violates(q, imageWidth, imageHeight, sliceWidth, sliceHeight, h, v)
  {
    if !(0 < sliceWidth <= imageWidth) then Err(InvalidParameter(SliceWidth, sliceWidth as real))
    else if !(0 < sliceHeight <= imageHeight) then Err(InvalidParameter(SliceHeight, sliceHeight as real))
    else if !(0.0 < h <= 1.0) then Err(InvalidParameter(HorizontalOverlapRatio, h))
    else if !(0.0 < v <= 1.0) then Err(InvalidParameter(VerticalOverlapRatio, v))
    else Ok(())
  }

  /** The validator succeeds exactly on `ValidParameters`. */
  lemma ValidateAcceptsExactly(imageWidth: int, imageHeight: int,
                               sliceWidth: int, sliceHeight: int, h: real, v: real)
    ensures ValidateTileParameters(imageWidth, imageHeight, sliceWidth, sliceHeight, h, v).Ok?
        <==> ValidParameters(imageWidth, imageHeight, sliceWidth, sliceHeight, h, v)
  {
    if !ValidParameters(imageWidth, imageHeight, sliceWidth, sliceHeight, h, v) {
      var p :=
        if !(0 < sliceWidth <= imageWidth) then SliceWidth
        else if !(0 < sliceHeight <= imageHeight) then SliceHeight
        else if !(0.0 < h <= 1.0) then HorizontalOverlapRatio
        else VerticalOverlapRatio;
      assert Violates(p, imageWidth, imageHeight, sliceWidth, sliceHeight, h, v);
    }
  }

  /**
   * Boundary cases: a slice as large as the image with ratio 1 is accepted;
   * a zero slice width, a slice wider than the image, a zero ratio and a
   * ratio of 1.5 are each rejected, naming that parameter.
   */
  lemma ValidateBoundaries(imageWidth: int, imageHeight: int)
    requires imageWidth > 0 && imageHeight > 0
    ensures ValidateTileParameters(imageWidth, imageHeight, imageWidth, imageHeight, 1.0, 1.0) == Ok(())
    ensures ValidateTileParameters(imageWidth, imageHeight, 0, 1, 1.0, 1.0)
         == Err(InvalidParameter(SliceWidth, 0.0))
    ensures ValidateTileParameters(imageWidth, imageHeight, imageWidth + 1, 1, 1.0, 1.0)
         == Err(InvalidParameter(SliceWidth, (imageWidth + 1) as real))
    ensures ValidateTileParameters(imageWidth, imageHeight, 1, imageHeight + 1, 1.0, 1.0)
         == Err(InvalidParameter(SliceHeight, (imageHeight + 1) as real))
    ensures ValidateTileParameters(imageWidth, imageHeight, 1, 1, 0.0, 1.0)
         == Err(InvalidParameter(HorizontalOverlapRatio, 0.0))
    ensures ValidateTileParameters(imageWidth, imageHeight, 1, 1, 1.0, 1.5)
         == Err(InvalidParameter(VerticalOverlapRatio, 1.5))
  {
  }

  // ---------------------------------------------------------------------
  // generate_tile_coordinates
  // ---------------------------------------------------------------------

  /** Horizontal distance between neighbouring tiles: `round(slice_width * h)`. */
  function HStride(sliceWidth: int, h: real): int {
    RoundHalfEven(sliceWidth as real * h)
  }

  /**
   * Vertical distance between neighbouring tiles: `round(basis * v)`. The
   * source passes the slice WIDTH as the basis; the corrected layout passes
   * the slice height.
   */
  function VStride(basis: int, v: real): int {
    RoundHalfEven(basis as real * v)
  }

  /**
   * Number of rows (or columns): the length of
   * `range(floor(image_extent / span))`, the span being the slice extent
   * times the overlap ratio.
   */
  function TileCount(imageExtent: int, span: real): nat
    requires span != 0.0
  {
    RangeLength((imageExtent as real / span).Floor)
  }

  /**
   * `g` is a `rows` by `cols` grid whose tile at row y, column x starts at
   * (x * hStride, y * vStride) and measures sliceWidth by sliceHeight.
   */
  ghost predicate IsTileGrid(g: seq<seq<Box>>, rows: nat, cols: nat,
                             sliceWidth: int, sliceHeight: int, hStride: int, vStride: int)
  {
    && |g| == rows
    && (forall y :: 0 <= y < rows ==> |g[y]| == cols)
    && (forall y, x :: 0 <= y < rows && 0 <= x < cols ==>
          && g[y][x].left == x * hStride
          && g[y][x].top == y * vStride
          && g[y][x].right - g[y][x].left == sliceWidth
          && g[y][x].bottom - g[y][x].top == sliceHeight)
  }

  /**
   * The nested comprehension of `generate_tile_coordinates`, with the
   * vertical stride taken from `vBasis * v`. Python evaluates the row count
   * first and the column count once per row, so a zero
   * `slice_width * h` raises only when there is at least one row.
   */
  function Layout(imageWidth: int, imageHeight: int, sliceWidth: int, sliceHeight: int,
                  h: real, v: real, vBasis: int): (r: Result<seq<seq<Box>>>)
    ensures r.Err? ==> r.error == DivisionByZero
    ensures r.Err? <==>
      || sliceHeight as real * v == 0.0
      || (TileCount(imageHeight, sliceHeight as real * v) > 0 && sliceWidth as real * h == 0.0)
    ensures r.Ok? ==>
      && sliceHeight as real * v != 0.0
      && |r.value| == TileCount(imageHeight, sliceHeight as real * v)
    ensures r.Ok? && |r.value| > 0 ==>
      && sliceWidth as real * h != 0.0
      && IsTileGrid(r.value, TileCount(imageHeight, sliceHeight as real * v), TileCount(imageWidth, sliceWidth as real * h),
                    sliceWidth, sliceHeight, HStride(sliceWidth, h), VStride(vBasis, v))
  {
    if sliceHeight as real * v == 0.0 then Err(DivisionByZero)
    else
      var rows := TileCount(imageHeight, sliceHeight as real * v);
      if rows > 0 && sliceWidth as real * h == 0.0 then Err(DivisionByZero)
      else if rows == 0 then Ok([])
      else
        var cols := TileCount(imageWidth, sliceWidth as real * h);
        var hs, vs := HStride(sliceWidth, h), VStride(vBasis, v);
        Ok(seq(rows, y requires 0 <= y < rows =>
             seq(cols, x requires 0 <= x < cols =>
               Box(x * hs, y * vs, sliceWidth + x * hs, sliceHeight + y * vs))))
  }

  /**
   * `generate_tile_coordinates` as written: the vertical stride is
   * `round(slice_width * v)`, taken from the slice width.
   */
  function GenerateTileCoordinates(imageWidth: int, imageHeight: int, sliceWidth: int, sliceHeight: int,
                                   h: real, v: real): (r: Result<seq<seq<Box>>>)
    ensures r.Err? ==> r.error == DivisionByZero
    ensures r.Ok? && |r.value| > 0 ==>
      && sliceHeight as real * v != 0.0 && sliceWidth as real * h != 0.0
      && IsTileGrid(r.value, TileCount(imageHeight, sliceHeight as real * v), TileCount(imageWidth, sliceWidth as real * h),
                    sliceWidth, sliceHeight, RoundHalfEven(sliceWidth as real * h), RoundHalfEven(sliceWidth as real * v))
  {
    Layout(imageWidth, imageHeight, sliceWidth, sliceHeight, h, v, sliceWidth)
  }

  /**
   * `generate_tile_coordinates` with the vertical stride taken from the
   * slice height, `round(slice_height * v)`.
   */
  function GenerateTileCoordinatesCorrected(imageWidth: int, imageHeight: int, sliceWidth: int, sliceHeight: int,
                                            h: real, v: real): (r: Result<seq<seq<Box>>>)
    ensures r.Err? ==> r.error == DivisionByZero
    ensures r.Ok? && |r.value| > 0 ==>
      && sliceHeight as real * v != 0.0 && sliceWidth as real * h != 0.0
      && IsTileGrid(r.value, TileCount(imageHeight, sliceHeight as real * v), TileCount(imageWidth, sliceWidth as real * h),
                    sliceWidth, sliceHeight, RoundHalfEven(sliceWidth as real * h), RoundHalfEven(sliceHeight as real * v))
  {
    Layout(imageWidth, imageHeight, sliceWidth, sliceHeight, h, v, sliceHeight)
  }

  /** In any tile grid, moving one step along a row or down a column moves by the stride. */
  lemma GridSteps(g: seq<seq<Box>>, rows: nat, cols: nat,
                  sliceWidth: int, sliceHeight: int, hStride: int, vStride: int, y: nat, x: nat)
    requires IsTileGrid(g, rows, cols, sliceWidth, sliceHeight, hStride, vStride)
    requires y < rows && x < cols
    ensures g[y][x].top == g[y][0].top
    ensures x + 1 < cols ==> g[y][x + 1].left - g[y][x].left == hStride
    ensures y + 1 < rows ==> g[y + 1][x].top - g[y][x].top == vStride
  {
    if x + 1 < cols {
      assert (x + 1) * hStride == x * hStride + hStride;
    }
    if y + 1 < rows {
      assert (y + 1) * vStride == y * vStride + vStride;
    }
  }

  /** A positive extent scaled by a ratio in (0, 1] stays positive and below any bound on it. */
  lemma ScaleWithin(b: real, ratio: real, bound: real)
    requires 0.0 < b <= bound && 0.0 < ratio <= 1.0
    ensures 0.0 < b * ratio <= b <= bound
  {
    assert b - b * ratio == b * (1.0 - ratio);
    assert b * (1.0 - ratio) >= 0.0;
  }

  /** Dividing by a positive divisor no larger than the dividend gives at least 1. */
  lemma QuotientAtLeastOne(n: real, d: real)
    requires 0.0 < d <= n
    ensures n / d >= 1.0
  {
    assert (n / d) * d == n;
  }

  /** For valid parameters a stride basis times a ratio rounds to between 0 and the basis. */
  lemma StrideBounds(basis: int, ratio: real)
    requires basis > 0 && 0.0 < ratio <= 1.0
    ensures 0 <= VStride(basis, ratio) <= basis
    ensures ratio == 1.0 ==> VStride(basis, ratio) == basis
  {
    var b := basis as real;
    var x := b * ratio;
    ScaleWithin(b, ratio, b);
    RoundWithin(x, 0, basis);
    if ratio == 1.0 {
      assert x == b;
      RoundOfInt(basis);
    }
  }

  /** A positive span no longer than the image fits at least once. */
  lemma TileCountAtLeastOne(imageExtent: int, span: real)
    requires 0.0 < span <= imageExtent as real
    ensures TileCount(imageExtent, span) >= 1
  {
    QuotientAtLeastOne(imageExtent as real, span);
    FloorAtLeast(imageExtent as real / span, 1);
  }

  /** For valid parameters the image holds at least one tile along each axis. */
  lemma CountAtLeastOne(imageExtent: int, sliceExtent: int, ratio: real)
    requires 0 < sliceExtent <= imageExtent && 0.0 < ratio <= 1.0
    ensures sliceExtent as real * ratio != 0.0
    ensures TileCount(imageExtent, sliceExtent as real * ratio) >= 1
  {
    ScaleWithin(sliceExtent as real, ratio, imageExtent as real);
    TileCountAtLeastOne(imageExtent, sliceExtent as real * ratio);
  }

  /**
   * With valid parameters the coordinates are produced without error, the
   * grid has at least one row and one column, its first tile is the
   * slice-sized box at the origin, and every box has the slice's size, sits
   * at (x * round(slice_width * h), y * round(slice_width * v)), and steps
   * right by that horizontal stride and down by that vertical stride.
   */
  lemma GenerateTileCoordinatesShape(imageWidth: int, imageHeight: int, sliceWidth: int, sliceHeight: int,
                                     h: real, v: real)
    requires ValidParameters(imageWidth, imageHeight, sliceWidth, sliceHeight, h, v)
    ensures sliceWidth as real * h != 0.0 && sliceHeight as real * v != 0.0
    ensures GenerateTileCoordinates(imageWidth, imageHeight, sliceWidth, sliceHeight, h, v).Ok?
    ensures TileCount(imageHeight, sliceHeight as real * v) >= 1 && TileCount(imageWidth, sliceWidth as real * h) >= 1
    ensures IsTileGrid(GenerateTileCoordinates(imageWidth, imageHeight, sliceWidth, sliceHeight, h, v).value,
                       TileCount(imageHeight, sliceHeight as real * v), TileCount(imageWidth, sliceWidth as real * h),
                       sliceWidth, sliceHeight, HStride(sliceWidth, h), VStride(sliceWidth, v))
    ensures GenerateTileCoordinates(imageWidth, imageHeight, sliceWidth, sliceHeight, h, v).value[0][0]
         == Box(0, 0, sliceWidth, sliceHeight)
  {
    CountAtLeastOne(imageHeight, sliceHeight, v);
    CountAtLeastOne(imageWidth, sliceWidth, h);
  }

  /**
   * With valid parameters, horizontally adjacent tiles never leave a gap
   * and never go backwards: the next tile starts at or after this one's
   * left edge and no later than its right edge. With `h == 1` they abut
   * exactly.
   */
  lemma HorizontalNeighbours(imageWidth: int, imageHeight: int, sliceWidth: int, sliceHeight: int,
                             h: real, v: real)
    requires ValidParameters(imageWidth, imageHeight, sliceWidth, sliceHeight, h, v)
    ensures GenerateTileCoordinates(imageWidth, imageHeight, sliceWidth, sliceHeight, h, v).Ok?
    ensures var g := GenerateTileCoordinates(imageWidth, imageHeight, sliceWidth, sliceHeight, h, v).value;
      forall y, x :: 0 <= y < |g| && 0 <= x && x + 1 < |g[y]| ==>
        && g[y][x].left <= g[y][x + 1].left <= g[y][x].right
        && (h == 1.0 ==> g[y][x + 1].left == g[y][x].right)
  {
    GenerateTileCoordinatesShape(imageWidth, imageHeight, sliceWidth, sliceHeight, h, v);
    StrideBounds(sliceWidth, h);
    var g: seq<seq<Box>> := GenerateTileCoordinates(imageWidth, imageHeight, sliceWidth, sliceHeight, h, v).value;
    var rows, cols := TileCount(imageHeight, sliceHeight as real * v), TileCount(imageWidth, sliceWidth as real * h);
    forall y: int, x: int | 0 <= y < |g| && 0 <= x && x + 1 < |g[y]|
      ensures g[y][x].left <= g[y][x + 1].left <= g[y][x].right
      ensures h == 1.0 ==> g[y][x + 1].left == g[y][x].right
    {
      GridSteps(g, rows, cols, sliceWidth, sliceHeight, HStride(sliceWidth, h), VStride(sliceWidth, v), y, x);
    }
  }

  /**
   * The as-written vertical stride can exceed the slice height and leave
   * pixel rows in no tile: a 100x100 image cut into 50-wide, 25-high
   * slices with no overlap has four rows of tiles at tops 0, 50, 100, 150,
   * and pixel row 30 lies in none of them.
   */
  lemma AsWrittenRowsLeaveGap()
    ensures ValidParameters(100, 100, 50, 25, 1.0, 1.0)
    ensures GenerateTileCoordinates(100, 100, 50, 25, 1.0, 1.0).Ok?
    ensures var g := GenerateTileCoordinates(100, 100, 50, 25, 1.0, 1.0).value;
      && |g| == 4
      && g[0][0].bottom < g[1][0].top
      && forall y, x :: 0 <= y < |g| && 0 <= x < |g[y]| ==> !(g[y][x].top <= 30 < g[y][x].bottom)
  {
    assert 100.0 / (25 as real * 1.0) == 4.0;
    assert 100.0 / (50 as real * 1.0) == 2.0;
    RoundOfInt(50);
    var g: seq<seq<Box>> := GenerateTileCoordinates(100, 100, 50, 25, 1.0, 1.0).value;
    forall y: int, x: int | 0 <= y < |g| && 0 <= x < |g[y]|
      ensures !(g[y][x].top <= 30 < g[y][x].bottom)
    {
      assert g[y][x].top == y * 50;
    }
  }

  /**
   * The as-written vertical stride can also fall short of the slice height,
   * so that rows overlap although no overlap was asked for and the bottom
   * of the image is left out: a 100x100 image cut into 25-wide, 50-high
   * slices with ratio 1 has two rows of tiles at tops 0 and 25, the first
   * reaching down to 50, and pixel row 80 lies in neither.
   */
  lemma AsWrittenRowsOverlap()
    ensures ValidParameters(100, 100, 25, 50, 1.0, 1.0)
    ensures GenerateTileCoordinates(100, 100, 25, 50, 1.0, 1.0).Ok?
    ensures var g := GenerateTileCoordinates(100, 100, 25, 50, 1.0, 1.0).value;
      && |g| == 2
      && g[1][0].top < g[0][0].bottom
      && forall y, x :: 0 <= y < |g| && 0 <= x < |g[y]| ==> !(g[y][x].top <= 80 < g[y][x].bottom)
  {
    assert 100.0 / (50 as real * 1.0) == 2.0;
    assert 100.0 / (25 as real * 1.0) == 4.0;
    RoundOfInt(25);
    var g: seq<seq<Box>> := GenerateTileCoordinates(100, 100, 25, 50, 1.0, 1.0).value;
    forall y: int, x: int | 0 <= y < |g| && 0 <= x < |g[y]|
      ensures !(g[y][x].top <= 80 < g[y][x].bottom)
    {
      assert g[y][x].top == y * 25;
    }
  }

  /**
   * With the corrected vertical stride and valid parameters, vertically
   * adjacent tiles leave no gap, and with `v == 1` they abut exactly.
   */
  lemma CorrectedRowsLeaveNoGap(imageWidth: int, imageHeight: int, sliceWidth: int, sliceHeight: int,
                                h: real, v: real)
    requires ValidParameters(imageWidth, imageHeight, sliceWidth, sliceHeight, h, v)
    ensures GenerateTileCoordinatesCorrected(imageWidth, imageHeight, sliceWidth, sliceHeight, h, v).Ok?
    ensures var g := GenerateTileCoordinatesCorrected(imageWidth, imageHeight, sliceWidth, sliceHeight, h, v).value;
      forall y, x {:trigger g[y][x]} :: 0 <= y && y + 1 < |g| && 0 <= x < |g[y]| ==>
        && x < |g[y + 1]|
        && g[y][x].top <= g[y + 1][x].top <= g[y][x].bottom
        && (v == 1.0 ==> g[y + 1][x].top == g[y][x].bottom)
  {
    CountAtLeastOne(imageHeight, sliceHeight, v);
    CountAtLeastOne(imageWidth, sliceWidth, h);
    StrideBounds(sliceHeight, v);
    var g: seq<seq<Box>> := GenerateTileCoordinatesCorrected(imageWidth, imageHeight, sliceWidth, sliceHeight, h, v).value;
    var rows, cols := TileCount(imageHeight, sliceHeight as real * v), TileCount(imageWidth, sliceWidth as real * h);
    forall y: int, x: int {:trigger g[y][x]} | 0 <= y && y + 1 < |g| && 0 <= x < |g[y]|
      ensures x < |g[y + 1]|
      ensures g[y][x].top <= g[y + 1][x].top <= g[y][x].bottom
      ensures v == 1.0 ==> g[y + 1][x].top == g[y][x].bottom
    {
      GridSteps(g, rows, cols, sliceWidth, sliceHeight, HStride(sliceWidth, h), VStride(sliceHeight, v), y, x);
    }
  }

  /**
   * Validation does not rule out a zero stride: a 1x1 slice with ratio 0.5
   * has `round(0.5) == 0`, so all twenty tiles of a row of a 10x10 image
   * are the same box.
   */
  lemma ZeroStrideTilesCoincide()
    ensures ValidParameters(10, 10, 1, 1, 0.5, 0.5)
    ensures GenerateTileCoordinates(10, 10, 1, 1, 0.5, 0.5).Ok?
    ensures var g := GenerateTileCoordinates(10, 10, 1, 1, 0.5, 0.5).value;
      && |g| == 20 && |g[0]| == 20
      && forall x :: 0 <= x < 20 ==> g[0][x] == Box(0, 0, 1, 1)
  {
    assert 10.0 / (1 as real * 0.5) == 20.0;
    assert HStride(1, 0.5) == 0;
  }

  /**
   * The column count comes from the unrounded stride, so when rounding goes
   * up a valid layout can hold a tile that starts past the image's right
   * edge: slice width 7 with ratio 0.5 on a 100-wide image gives stride
   * round(3.5) == 4 and 28 columns, the last starting at 108.
   */
  lemma TileCanStartPastImage()
    ensures ValidParameters(100, 100, 7, 7, 0.5, 0.5)
    ensures GenerateTileCoordinates(100, 100, 7, 7, 0.5, 0.5).Ok?
    ensures var g := GenerateTileCoordinates(100, 100, 7, 7, 0.5, 0.5).value;
      |g| > 0 && |g[0]| == 28 && g[0][27].left == 108 > 100
  {
    assert 100.0 / (7 as real * 0.5) == 200.0 / 7.0;
    assert HStride(7, 0.5) == 4;
  }

  // ---------------------------------------------------------------------
  // get_annotations_in_tile
  // ---------------------------------------------------------------------

  /** The annotation box lies inside the tile, edges included. */
  predicate Contains(tile: Box, b: Rect) {
    && b.left >= tile.left as real
    && b.top >= tile.top as real
    && b.right <= tile.right as real
    && b.bottom <= tile.bottom as real
  }

  /** `sub` can be obtained from `s` by deleting elements, keeping the rest in order. */
  ghost predicate IsSubsequence<A>(sub: seq<A>, s: seq<A>)
    decreases |s|
  {
    if sub == [] then true
    else if s == [] then false
    else (sub[0] == s[0] && IsSubsequence(sub[1..], s[1..])) || IsSubsequence(sub, s[1..])
  }

  /**
   * `get_annotations_in_tile`: the annotations, in input order, whose box
   * (`boxOf`, the `box` property) is fully inside `tile`.
   */
  function AnnotationsInTile<A(==)>(annotations: seq<A>, boxOf: A -> Rect, tile: Box): (kept: seq<A>)
    ensures forall a | a in kept :: a in annotations && Contains(tile, boxOf(a))
    ensures forall a | a in annotations && Contains(tile, boxOf(a)) :: a in kept
    decreases |annotations|
  {
    if annotations == [] then []
    else
      var rest := AnnotationsInTile(annotations[1..], boxOf, tile);
      assert forall a | a in annotations[1..] :: a in annotations;
      if Contains(tile, boxOf(annotations[0])) then [annotations[0]] + rest else rest
  }

  /**
   * The kept annotations are a subsequence of the input, and each one
   * occurs exactly as often as in the input when its box is inside the
   * tile and not at all otherwise: the filter keeps order and drops or
   * keeps every occurrence.
   */
  lemma {:induction false} AnnotationsInTileIsFilter<A>(annotations: seq<A>, boxOf: A -> Rect, tile: Box)
    ensures IsSubsequence(AnnotationsInTile(annotations, boxOf, tile), annotations)
    ensures forall a ::
      multiset(AnnotationsInTile(annotations, boxOf, tile))[a]
        == if Contains(tile, boxOf(a)) then multiset(annotations)[a] else 0
    decreases |annotations|
  {
    if annotations != [] {
      AnnotationsInTileIsFilter(annotations[1..], boxOf, tile);
      assert annotations == [annotations[0]] + annotations[1..];
      var rest := AnnotationsInTile(annotations[1..], boxOf, tile);
      if Contains(tile, boxOf(annotations[0])) {
        assert ([annotations[0]] + rest)[1..] == rest;
      }
    }
  }

  /** An annotation whose box is exactly the tile is kept. */
  lemma BoxEqualToTileKept<A>(annotations: seq<A>, boxOf: A -> Rect, tile: Box, a: A)
    requires a in annotations
    requires boxOf(a) == Rect(tile.left as real, tile.top as real, tile.right as real, tile.bottom as real)
    ensures a in AnnotationsInTile(annotations, boxOf, tile)
  {
  }

  /** The annotation box crosses one of the tile's edges. */
  predicate Straddles(tile: Box, b: Rect) {
    || b.left < tile.left as real < b.right
    || b.top < tile.top as real < b.bottom
    || b.left < tile.right as real < b.right
    || b.top < tile.bottom as real < b.bottom
  }

  /** An annotation that straddles an edge of the tile is dropped. */
  lemma StraddlingDropped<A>(annotations: seq<A>, boxOf: A -> Rect, tile: Box, a: A)
    requires Straddles(tile, boxOf(a))
    ensures a !in AnnotationsInTile(annotations, boxOf, tile)
  {
  }

  /** Filtering distributes over concatenation. */
  lemma {:induction false} AnnotationsInTileAppend<A>(s: seq<A>, t: seq<A>, boxOf: A -> Rect, tile: Box)
    ensures AnnotationsInTile(s + t, boxOf, tile)
         == AnnotationsInTile(s, boxOf, tile) + AnnotationsInTile(t, boxOf, tile)
    decreases |s|
  {
    if s != [] {
      var st := s + t;
      assert st[0] == s[0] && st[1..] == s[1..] + t;
      AnnotationsInTileAppend(s[1..], t, boxOf, tile);
      var head := if Contains(tile, boxOf(s[0])) then [s[0]] else [];
      assert AnnotationsInTile(st, boxOf, tile) == head + AnnotationsInTile(s[1..] + t, boxOf, tile);
      assert AnnotationsInTile(s, boxOf, tile) == head + AnnotationsInTile(s[1..], boxOf, tile);
    } else {
      assert s + t == t;
    }
  }

  /**
   * Filtering by a tile and then by a tile inside it is filtering by the
   * inner tile; in particular filtering twice by the same tile changes
   * nothing.
   */
  lemma {:induction false} AnnotationsInNestedTile<A>(s: seq<A>, boxOf: A -> Rect, outer: Box, inner: Box)
    requires outer.left <= inner.left && outer.top <= inner.top
    requires inner.right <= outer.right && inner.bottom <= outer.bottom
    ensures AnnotationsInTile(AnnotationsInTile(s, boxOf, outer), boxOf, inner)
         == AnnotationsInTile(s, boxOf, inner)
    decreases |s|
  {
    if s != [] {
      AnnotationsInNestedTile(s[1..], boxOf, outer, inner);
      var rest := AnnotationsInTile(s[1..], boxOf, outer);
      if Contains(outer, boxOf(s[0])) {
        assert ([s[0]] + rest)[1..] == rest;
      }
    }
  }

  // ---------------------------------------------------------------------
  // tile_annotations and tile_image
  // ---------------------------------------------------------------------

  /** Apply `f` to every cell of a grid, keeping its shape. */
  function MapGrid<T, U>(g: seq<seq<T>>, f: T -> U): (r: seq<seq<U>>)
    ensures |r| == |g|
    ensures forall y :: 0 <= y < |g| ==> |r[y]| == |g[y]|
    ensures forall y, x :: 0 <= y < |g| && 0 <= x < |g[y]| ==> r[y][x] == f(g[y][x])
  {
    seq(|g|, y requires 0 <= y < |g| => seq(|g[y]|, x requires 0 <= x < |g[y]| => f(g[y][x])))
  }

  /**
   * `tile_annotations`: generate the tile coordinates (no validation) and
   * replace every box by the annotations it fully contains. Fails exactly
   * when the coordinate generation fails, with the same error; otherwise
   * the result has the grid's shape and cell (y, x) is
   * `get_annotations_in_tile` of box (y, x).
   */
  function TileAnnotations<A(==)>(annotations: seq<A>, boxOf: A -> Rect,
                                  imageWidth: int, imageHeight: int, sliceWidth: int, sliceHeight: int,
                                  h: real, v: real): (r: Result<seq<seq<seq<A>>>>)
    ensures var coords := GenerateTileCoordinates(imageWidth, imageHeight, sliceWidth, sliceHeight, h, v);
      && (r.Ok? <==> coords.Ok?)
      && (r.Err? ==> r.error == coords.error)
      && (r.Ok? ==>
            && |r.value| == |coords.value|
            && (forall y :: 0 <= y < |coords.value| ==> |r.value[y]| == |coords.value[y]|)
            && (forall y, x :: 0 <= y < |coords.value| && 0 <= x < |coords.value[y]| ==>
                  r.value[y][x] == AnnotationsInTile(annotations, boxOf, coords.value[y][x])))
  {
    match GenerateTileCoordinates(imageWidth, imageHeight, sliceWidth, sliceHeight, h, v)
    case Err(e) => Err(e)
    case Ok(coords) => Ok(MapGrid(coords, tile => AnnotationsInTile(annotations, boxOf, tile)))
  }

  /**
   * Whenever both divisors are non-zero, so that `tile_annotations`
   * succeeds, an annotation is in cell (y, x) exactly when its
   * box lies within [x * hs, x * hs + slice_width] by
   * [y * vs, y * vs + slice_height], hs and vs being the as-written strides.
   */
  lemma TileAnnotationsCell<A>(annotations: seq<A>, boxOf: A -> Rect,
                                   imageWidth: int, imageHeight: int, sliceWidth: int, sliceHeight: int,
                                   h: real, v: real, y: nat, x: nat, a: A)
    requires sliceHeight as real * v != 0.0 && sliceWidth as real * h != 0.0
    requires y < TileCount(imageHeight, sliceHeight as real * v) && x < TileCount(imageWidth, sliceWidth as real * h)
    ensures TileAnnotations(annotations, boxOf, imageWidth, imageHeight, sliceWidth, sliceHeight, h, v).Ok?
    ensures var cells := TileAnnotations(annotations, boxOf, imageWidth, imageHeight, sliceWidth, sliceHeight, h, v).value;
      var hs, vs := HStride(sliceWidth, h), VStride(sliceWidth, v);
      && y < |cells| && x < |cells[y]|
      && (a in cells[y][x] <==>
            && a in annotations
            && boxOf(a).left >= (x * hs) as real
            && boxOf(a).top >= (y * vs) as real
            && boxOf(a).right <= (x * hs + sliceWidth) as real
            && boxOf(a).bottom <= (y * vs + sliceHeight) as real)
  {
  }

  /**
   * `tile_image`: validate, generate the coordinates and crop every box
   * with the image library's `crop`. Fails exactly when validation fails,
   * with the validator's error; otherwise the result has the grid's shape
   * and cell (y, x) is the crop of box (y, x).
   */
  function TileImage<P, T>(image: Image<P>, crop: (Image<P>, Box) -> T,
                           sliceWidth: int, sliceHeight: int, h: real, v: real): (r: Result<seq<seq<T>>>)
    ensures r.Ok? <==> ValidParameters(image.width, image.height, sliceWidth, sliceHeight, h, v)
    ensures r.Err? ==>
      r.error == ValidateTileParameters(image.width, image.height, sliceWidth, sliceHeight, h, v).error
    ensures r.Ok? ==>
      var coords := GenerateTileCoordinates(image.width, image.height, sliceWidth, sliceHeight, h, v).value;
      && |r.value| == |coords| >= 1
      && (forall y :: 0 <= y < |coords| ==> |r.value[y]| == |coords[y]| >= 1)
      && (forall y, x :: 0 <= y < |coords| && 0 <= x < |coords[y]| ==>
            r.value[y][x] == crop(image, coords[y][x]))
  {
    ValidateAcceptsExactly(image.width, image.height, sliceWidth, sliceHeight, h, v);
    match ValidateTileParameters(image.width, image.height, sliceWidth, sliceHeight, h, v)
    case Err(e) => Err(e)
    case Ok(_) =>
      GenerateTileCoordinatesShape(image.width, image.height, sliceWidth, sliceHeight, h, v);
      var coords := GenerateTileCoordinates(image.width, image.height, sliceWidth, sliceHeight, h, v).value;
      Ok(MapGrid(coords, box => crop(image, box)))
  }

  /**
   * Example: a 100x100 image in 50x50 slices with no overlap
   * gives the four quadrants, row by row.
   */
  lemma QuadrantsExample()
    ensures GenerateTileCoordinates(100, 100, 50, 50, 1.0, 1.0)
         == Ok([[Box(0, 0, 50, 50), Box(50, 0, 100, 50)], [Box(0, 50, 50, 100), Box(50, 50, 100, 100)]])
  {
    assert 100.0 / (50 as real * 1.0) == 2.0;
    RoundOfInt(50);
    GenerateTileCoordinatesShape(100, 100, 50, 50, 1.0, 1.0);
    var g := GenerateTileCoordinates(100, 100, 50, 50, 1.0, 1.0).value;
    assert g[0] == [Box(0, 0, 50, 50), Box(50, 0, 100, 50)];
    assert g[1] == [Box(0, 50, 50, 100), Box(50, 50, 100, 100)];
    assert g == [g[0], g[1]];
  }

  /**
   * On the quadrants, an annotation at (10, 10, 40, 40) falls only in the
   * top-left tile and one at (40, 10, 60, 40), across the vertical edge
   * between the two top tiles, in none. The annotations here are their own
   * boxes.
   */
  lemma QuadrantsAnnotationsExample(boxOf: Rect -> Rect)
    requires forall b :: boxOf(b) == b
    ensures TileAnnotations([Rect(10.0, 10.0, 40.0, 40.0), Rect(40.0, 10.0, 60.0, 40.0)], boxOf,
                            100, 100, 50, 50, 1.0, 1.0)
         == Ok([[[Rect(10.0, 10.0, 40.0, 40.0)], []], [[], []]])
  {
    QuadrantsExample();
    var inner, across := Rect(10.0, 10.0, 40.0, 40.0), Rect(40.0, 10.0, 60.0, 40.0);
    var anns := [inner, across];
    assert anns[1..] == [across] && [across][1..] == [];
    assert boxOf(inner) == inner && boxOf(across) == across;
    var none: seq<Rect> := [];
    forall tile: Box
      ensures AnnotationsInTile(anns, boxOf, tile)
           == (if Contains(tile, inner) then [inner] else none)
            + (if Contains(tile, across) then [across] else none)
    {
      assert AnnotationsInTile([across], boxOf, tile)
          == (if Contains(tile, across) then [across] else none) + AnnotationsInTile(none, boxOf, tile);
    }
    var r := TileAnnotations(anns, boxOf, 100, 100, 50, 50, 1.0, 1.0);
    var cells := r.value;
    assert cells[0][0] == AnnotationsInTile(anns, boxOf, Box(0, 0, 50, 50)) == [inner];
    assert cells[0][1] == AnnotationsInTile(anns, boxOf, Box(50, 0, 100, 50)) == [];
    assert cells[1][0] == AnnotationsInTile(anns, boxOf, Box(0, 50, 50, 100)) == [];
    assert cells[1][1] == AnnotationsInTile(anns, boxOf, Box(50, 50, 100, 100)) == [];
    assert cells[0] == [cells[0][0], cells[0][1]] && cells[1] == [cells[1][0], cells[1][1]];
    assert cells == [cells[0], cells[1]];
  }
}
