/**
 * The fixed NDFD 2.5 km CONUS reference grid: the projection parameters and
 * the affine transform of code/constants.py, the raster dimensions of
 * `create_grid`, and stand-ins for the two rasterio calls the pipeline makes
 * on that raster, `index` (world point to cell) and `xy` (cell corner to
 * world point).
 *
 * World coordinates are exact `real`s; the floating-point rounding of the
 * original is not modelled.
 */
module ReferenceGrid {

  /** A point in the grid's projected (metre) coordinate system. */
  datatype Point = Point(x: real, y: real)

  /**
   * A raster cell, named as the pipeline names it: `x` is the raster ROW
   * (it grows towards the south) and `y` is the raster COLUMN (it grows
   * towards the east), because rasterio's `index` returns (row, col).
   */
  datatype Cell = Cell(x: int, y: int)

  /** The six coefficients of an `affine.Affine(a, b, c, d, e, f)`. */
  datatype Affine = Affine(a: real, b: real, c: real, d: real, e: real, f: real)

  /** A proj4 Lambert conformal conic definition (`+proj=lcc ... +no_defs`). */
  datatype LambertConformalConic = Lcc(
    lat0: int, lon0: int, lat1: int, lat2: int,
    falseEasting: int, falseNorthing: int, sphereRadius: int, units: string)

  /** Cell size in metres, shared by both axes. */
  const CellSize: real := 2539.70

  /** World x of the grid's west edge and world y of its north edge. */
  const OriginX: real := -2764474.35
  const OriginY: real := 3232111.71

  /** Raster height (rows) and width (columns) of the reference grid. */
  const Rows: nat := 1377
  const Cols: nat := 2145

  /** The projection of code/constants.py. */
  function NdfdProjection(): (p: LambertConformalConic)
    ensures p.lat0 == p.lat1 == p.lat2 == 25
    ensures p.lon0 == 265
    ensures p.falseEasting == 0 && p.falseNorthing == 0
    ensures p.sphereRadius == 6371200 && p.units == "m"
  {
    Lcc(25, 265, 25, 25, 0, 0, 6371200, "m")
  }

  /** The affine transform `aff` of code/constants.py. */
  function NdfdTransform(): (t: Affine)
    ensures NorthUp(t)
    ensures t.a == CellSize && t.e == -t.a
    ensures t.c == OriginX && t.f == OriginY
  {
    Affine(CellSize, 0.0, OriginX, 0.0, -CellSize, OriginY)
  }

  /** No rotation or shear, square cells, and world y falling as the row grows. */
  ghost predicate NorthUp(t: Affine) {
    t.b == 0.0 && t.d == 0.0 && t.a > 0.0 && t.e == -t.a
  }

  /** `Affine * (col, row)`: the world point of fractional raster position (col, row). */
  function Forward(t: Affine, col: real, row: real): Point {
    Point(t.a * col + t.b * row + t.c, t.d * col + t.e * row + t.f)
  }

  /**
   * rasterio `DatasetReader.index(x, y)` on the reference raster, with its
   * default `op=math.floor`: the floor of the inverse of `aff`, as (row, col).
   * No bounds check is made: a point off the grid yields indices outside
   * 0..Rows-1 or 0..Cols-1.
   */
  function Index(p: Point): (cell: Cell)
    ensures cell.x as real <= (OriginY - p.y) / CellSize < (cell.x + 1) as real
    ensures cell.y as real <= (p.x - OriginX) / CellSize < (cell.y + 1) as real
  {
    Cell(((p.y - OriginY) / -CellSize).Floor, ((p.x - OriginX) / CellSize).Floor)
  }

  /** The corner offsets of rasterio's `xy` that the pipeline uses. */
  datatype Corner = LowerLeft | UpperRight

  /** rasterio `DatasetReader.xy(row, col, offset)` on the reference raster, for offsets 'll' and 'ur'. */
  function CornerXY(row: int, col: int, corner: Corner): (p: Point)
    ensures corner == LowerLeft ==>
      p == Point(OriginX + col as real * CellSize, OriginY - (row + 1) as real * CellSize)
    ensures corner == UpperRight ==>
      p == Point(OriginX + (col + 1) as real * CellSize, OriginY - row as real * CellSize)
  {
    match corner
    case LowerLeft => Forward(NdfdTransform(), col as real, (row + 1) as real)
    case UpperRight => Forward(NdfdTransform(), (col + 1) as real, row as real)
  }

  /** shapely `box(minx, miny, maxx, maxy)` as its four bounds. */
  datatype Box = Box(minX: real, minY: real, maxX: real, maxY: real)

  /** `box(*src.xy(x, y, 'll'), *src.xy(x, y, 'ur'))` for cell (x, y). */
  function CellBox(cell: Cell): (b: Box)
    ensures b.maxX - b.minX == CellSize && b.maxY - b.minY == CellSize
  {
    var ll := CornerXY(cell.x, cell.y, LowerLeft);
    var ur := CornerXY(cell.x, cell.y, UpperRight);
    Box(ll.x, ll.y, ur.x, ur.y)
  }

  predicate InBox(b: Box, p: Point) {
    b.minX <= p.x <= b.maxX && b.minY <= p.y <= b.maxY
  }

  predicate InGrid(cell: Cell) {
    0 <= cell.x < Rows && 0 <= cell.y < Cols
  }

  /**
   * The box of cell (row r, col k) spans x in [c + k*a, c + (k+1)*a] and
   * y in [f + (r+1)*e, f + r*e], with e = -a: a square of side a.
   */
  lemma CellBoxBounds(cell: Cell)
    ensures var bx := CellBox(cell);
      && bx.minX == OriginX + cell.y as real * CellSize
      && bx.maxX == OriginX + (cell.y + 1) as real * CellSize
      && bx.minY == OriginY - (cell.x + 1) as real * CellSize
      && bx.maxY == OriginY - cell.x as real * CellSize
      && bx.maxX - bx.minX == bx.maxY - bx.minY == CellSize
  {
  }

  /**
   * Index followed by the cell box is a containment round trip: every world
   * point lies in the box of the cell `index` assigns it to.
   */
  lemma IndexedPointInCellBox(p: Point)
    ensures InBox(CellBox(Index(p)), p)
  {
  }

  /**
   * Conversely, `index` sends every point of a cell's box that is not on its
   * south or east edge back to that cell; in particular a cell's upper-left
   * corner indexes to the cell itself.
   */
  lemma IndexOfBoxInterior(cell: Cell, p: Point)
    requires var bx := CellBox(cell); bx.minX <= p.x < bx.maxX && bx.minY < p.y <= bx.maxY
    ensures Index(p) == cell
  {
  }

  /**
   * The raster written by `create_grid` spans the linspace end points it is
   * built from: 2145 columns from x = -2764474.35 to 2683182.15 and 1377 rows
   * from y = 3232111.71 down to -265055.19.
   */
  lemma GridExtent()
    ensures var t := NdfdTransform();
      && Forward(t, 0.0, 0.0) == Point(-2764474.35, 3232111.71)
      && Forward(t, Cols as real, Rows as real) == Point(2683182.15, -265055.19)
  {
  }

  /**
   * `index` of a point inside the grid's extent is a cell of the grid: the
   * unchecked indices stay in range exactly for such points.
   */
  lemma IndexInGrid(p: Point)
    ensures InGrid(Index(p)) <==>
      OriginX <= p.x < OriginX + Cols as real * CellSize &&
      OriginY - Rows as real * CellSize < p.y <= OriginY
  {
  }
}
