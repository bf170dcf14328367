/**
 * The grid intersector of code/get_grid.py: flattening LineString vertices
 * into one list of projected points, mapping each point to its cell of the
 * reference grid, de-duplicating the cells and emitting one box per cell,
 * plus the argument checks of the command-line entry point.
 *
 * Input geometries are taken as already reprojected into the grid's
 * projection; the reprojections before and after (`to_crs`) are not part of
 * this model.
 */
module GetGrid {
  import opened Wrappers
  import opened ReferenceGrid

  /** A vertex as shapely reports it: two components, or three with a height. */
  datatype Vertex = Vertex(x: real, y: real, z: Option<real>)

  /** An input geometry; only LineStrings are supported. */
  datatype Geometry = LineString(coords: seq<Vertex>) | OtherGeometry(geomType: string)

  datatype GridError =
    | NotALineString      // the assertion 'only LineString geometry currently supported'
    | FillNotImplemented  // `fill_cells` returns None, so `list(None)` raises
    | BothInputsGiven     // ValueError('Either bbox or file must be provided') when both are present
    | NoInputGiven        // the same ValueError when neither is present
    | BboxNotImplemented  // NotImplementedError for a bounding box

  /** One row of the output table: the cell (x = row, y = column) and its box. */
  datatype CellRow = CellRow(x: int, y: int, geometry: Box) {
    function Cell(): ReferenceGrid.Cell { ReferenceGrid.Cell(x, y) }
  }

  /** The first two components of every vertex of a line, in order. */
  function Planar(coords: seq<Vertex>): (ps: seq<Point>)
    ensures |ps| == |coords|
    ensures forall k :: 0 <= k < |coords| ==> ps[k] == Point(coords[k].x, coords[k].y)
  {
    seq(|coords|, k requires 0 <= k < |coords| => Point(coords[k].x, coords[k].y))
  }

  /**
   * `all_coords` of `main`: the in-order concatenation of the planar vertices
   * of every line, or the assertion failure if some geometry is not a
   * LineString.
   */
  function AllCoords(geoms: seq<Geometry>): (r: Result<seq<Point>, GridError>)
    ensures r.Failure? ==> r.error == NotALineString
  {
    if geoms == [] then Success([])
    else
      match AllCoords(geoms[..|geoms| - 1])
      case Failure(e) => Failure(e)
      case Success(ps) =>
        var line := geoms[|geoms| - 1];
        if line.LineString? then Success(ps + Planar(line.coords)) else Failure(NotALineString)
  }

  /** The number of vertices of the geometries (LineStrings; other geometries have none). */
  function VertexCount(geoms: seq<Geometry>): nat {
    if geoms == [] then 0
    else
      var line := geoms[|geoms| - 1];
      VertexCount(geoms[..|geoms| - 1]) + (if line.LineString? then |line.coords| else 0)
  }

  /** The position of vertex j of line i in the flattened list. */
  function FlatIndex(geoms: seq<Geometry>, i: nat, j: nat): nat
    requires i <= |geoms|
  {
    VertexCount(geoms[..i]) + j
  }

  /**
   * `AllCoords` succeeds exactly when every geometry is a LineString, and
   * then vertex j of line i sits at position FlatIndex(geoms, i, j) of
   * the flattened list, which has one point per vertex.
   */
  lemma {:induction false} AllCoordsInOrder(geoms: seq<Geometry>)
    ensures AllCoords(geoms).Success? <==> forall i :: 0 <= i < |geoms| ==> geoms[i].LineString?
    ensures AllCoords(geoms).Success? ==> |AllCoords(geoms).value| == VertexCount(geoms)
    ensures AllCoords(geoms).Success? ==>
      forall i, j :: 0 <= i < |geoms| && 0 <= j < |geoms[i].coords| ==>
        FlatIndex(geoms, i, j) < VertexCount(geoms) &&
        AllCoords(geoms).value[FlatIndex(geoms, i, j)] == Point(geoms[i].coords[j].x, geoms[i].coords[j].y)
  {
    if geoms != [] {
      var n := |geoms| - 1;
      var init := geoms[..n];
      AllCoordsInOrder(init);
      assert forall i :: 0 <= i < n ==> geoms[i] == init[i];
      assert geoms[..n][..n] == init;
      forall i | 0 <= i < n ensures geoms[..i] == init[..i] { }
      if AllCoords(geoms).Success? {
        var ps := AllCoords(geoms).value;
        assert AllCoords(init).Success?;
        var front := AllCoords(init).value;
        assert |front| == VertexCount(init);
        var line := geoms[n];
        assert ps == front + Planar(line.coords);
        forall i, j | 0 <= i < |geoms| && 0 <= j < |geoms[i].coords|
          ensures FlatIndex(geoms, i, j) < VertexCount(geoms)
          ensures AllCoords(geoms).value[FlatIndex(geoms, i, j)] == Point(geoms[i].coords[j].x, geoms[i].coords[j].y)
        {
          if i < n {
            assert geoms[i] == init[i];
            assert geoms[..i] == init[..i];
            assert FlatIndex(geoms, i, j) == FlatIndex(init, i, j);
            assert 0 <= i < |init| && 0 <= j < |init[i].coords|;
            assert init[i].coords[j] == geoms[i].coords[j];
            assert front[FlatIndex(init, i, j)] == Point(init[i].coords[j].x, init[i].coords[j].y);
          } else {
            assert geoms[..i] == init;
            assert FlatIndex(geoms, i, j) == |front| + j;
          }
        }
      }
    }
  }

  /**
   * `main`'s nested loops building `all_coords`, checking each geometry's
   * type as it is reached.
   */
  method FlattenCoords(geoms: seq<Geometry>) returns (r: Result<seq<Point>, GridError>)
    ensures r == AllCoords(geoms)
  {
    var allCoords: seq<Point> := [];
    var i := 0;
    while i < |geoms|
      invariant 0 <= i <= |geoms|
      invariant AllCoords(geoms[..i]) == Success(allCoords)
    {
      var line := geoms[i];
      assert geoms[..i + 1][..i] == geoms[..i];
      if !line.LineString? {
        PrefixFailurePersists(geoms, i + 1);
        return Failure(NotALineString);
      }
      ghost var before := allCoords;
      var j := 0;
      while j < |line.coords|
        invariant 0 <= j <= |line.coords|
        invariant allCoords == before + Planar(line.coords[..j])
      {
        var coord := line.coords[j];
        allCoords := allCoords + [Point(coord.x, coord.y)];
        j := j + 1;
      }
      assert line.coords[..j] == line.coords;
      i := i + 1;
    }
    assert geoms[..i] == geoms;
    return Success(allCoords);
  }

  /** Once a prefix of the geometries fails, every longer list fails the same way. */
  lemma {:induction false} PrefixFailurePersists(geoms: seq<Geometry>, n: nat)
    requires n <= |geoms|
    requires AllCoords(geoms[..n]).Failure?
    ensures AllCoords(geoms) == AllCoords(geoms[..n])
  {
    if n < |geoms| {
      assert geoms[..|geoms| - 1][..n] == geoms[..n];
      PrefixFailurePersists(geoms[..|geoms| - 1], n);
    } else {
      assert geoms[..n] == geoms;
    }
  }

  /** `intersected_cells`: the set of cells `index` assigns to the points. */
  function IntersectedCells(intCoords: seq<Point>): (cells: set<Cell>)
    ensures forall p :: p in intCoords ==> Index(p) in cells
    ensures forall c :: c in cells ==> exists p :: p in intCoords && Index(p) == c
  {
    set p | p in intCoords :: Index(p)
  }

  /** There are never more intersected cells than points. */
  lemma {:induction false} IntersectedCellsBound(intCoords: seq<Point>)
    ensures |IntersectedCells(intCoords)| <= |intCoords|
  {
    if intCoords != [] {
      var n := |intCoords| - 1;
      IntersectedCellsBound(intCoords[..n]);
      assert intCoords == intCoords[..n] + [intCoords[n]];
      assert IntersectedCells(intCoords) == IntersectedCells(intCoords[..n]) + {Index(intCoords[n])};
    }
  }

  /** The table holds exactly one row per cell, each carrying that cell's box. */
  ghost predicate OneRowPerCell(rows: seq<CellRow>, cells: set<Cell>) {
    && |rows| == |cells|
    && (forall i, j :: 0 <= i < j < |rows| ==> rows[i].Cell() != rows[j].Cell())
    && (forall i :: 0 <= i < |rows| ==> rows[i].Cell() in cells && rows[i].geometry == CellBox(rows[i].Cell()))
    && (forall c :: c in cells ==> exists i :: 0 <= i < |rows| && rows[i].Cell() == c)
  }

  /** `fill_cells`: an unimplemented stub whose body is `pass`, so it returns None. */
  function FillCells(cells: set<Cell>): (r: Option<set<Cell>>)
    ensures r.None?
  {
    None
  }

  /**
   * `intersect_with_grid`: collect the cell of every point into a set, then
   * emit one box per cell in the set's (unspecified) iteration order. With
   * `fill` the stub's None reaches `list(...)` and raises.
   */
  method IntersectWithGrid(intCoords: seq<Point>, fill: bool) returns (r: Result<seq<CellRow>, GridError>)
    ensures fill <==> r.Failure?
    ensures fill ==> r.error == FillNotImplemented
    ensures !fill ==> OneRowPerCell(r.value, IntersectedCells(intCoords))
  {
    var intersected: set<Cell> := {};
    for k := 0 to |intCoords|
      invariant intersected == IntersectedCells(intCoords[..k])
    {
      assert intCoords[..k + 1] == intCoords[..k] + [intCoords[k]];
      intersected := intersected + {Index(intCoords[k])};
    }
    assert intCoords[..|intCoords|] == intCoords;
    if fill {
      match FillCells(intersected)
      case None =>
        return Failure(FillNotImplemented);
      case Some(filled) =>
        intersected := filled;
    }
    var rows := CellBoxes(intersected);
    r := Success(rows);
  }

  /** The loop of `intersect_with_grid` over the cell set: one box row per cell, in iteration order. */
  method CellBoxes(intersected: set<Cell>) returns (cellBoxes: seq<CellRow>)
    ensures OneRowPerCell(cellBoxes, intersected)
  {
    cellBoxes := [];
    var rest := intersected;
    while rest != {}
      invariant rest <= intersected
      invariant |cellBoxes| + |rest| == |intersected|
      invariant forall i, j :: 0 <= i < j < |cellBoxes| ==> cellBoxes[i].Cell() != cellBoxes[j].Cell()
      invariant forall i :: 0 <= i < |cellBoxes| ==>
        cellBoxes[i].Cell() in intersected - rest && cellBoxes[i].geometry == CellBox(cellBoxes[i].Cell())
      invariant forall c :: c in intersected - rest ==> exists i :: 0 <= i < |cellBoxes| && cellBoxes[i].Cell() == c
      decreases rest
    {
      var cell :| cell in rest;
      var row := CellRow(cell.x, cell.y, CellBox(cell));
      assert row.Cell() == cell;
      ghost var done := intersected - rest;
      ghost var before := cellBoxes;
      cellBoxes := cellBoxes + [row];
      rest := rest - {cell};
      forall c | c in intersected - rest
        ensures exists i :: 0 <= i < |cellBoxes| && cellBoxes[i].Cell() == c
      {
        if c == cell {
          assert cellBoxes[|cellBoxes| - 1].Cell() == c;
        } else {
          assert c in done;
          var i :| 0 <= i < |before| && before[i].Cell() == c;
          assert cellBoxes[i] == before[i];
        }
      }
    }
    assert intersected - rest == intersected;
  }

  /**
   * Every input point lies in the box of the output row for its own cell,
   * and every output row is the cell of some input point.
   */
  lemma PointsCovered(intCoords: seq<Point>, rows: seq<CellRow>)
    requires OneRowPerCell(rows, IntersectedCells(intCoords))
    ensures forall p :: p in intCoords ==> exists i :: 0 <= i < |rows| && rows[i].Cell() == Index(p) && InBox(rows[i].geometry, p)
    ensures forall i :: 0 <= i < |rows| ==> exists p :: p in intCoords && Index(p) == rows[i].Cell()
  {
    forall p | p in intCoords
      ensures exists i :: 0 <= i < |rows| && rows[i].Cell() == Index(p) && InBox(rows[i].geometry, p)
    {
      assert Index(p) in IntersectedCells(intCoords);
      var i :| 0 <= i < |rows| && rows[i].Cell() == Index(p);
      IndexedPointInCellBox(p);
    }
  }

  /** What the argument checks of `main` decide. */
  datatype Dispatch = Raise(error: GridError) | ReadFiles | NoBranch

  /**
   * The checks of `main` as written. `file` comes from a click argument with
   * `nargs=-1`, so it is always a tuple and never None: the first check can
   * never fire, the second fires whenever a bbox is given, and an empty tuple
   * skips every branch.
   */
  function ArgumentCheckAsWritten(bbox: Option<string>, files: seq<seq<Geometry>>): (d: Dispatch)
    ensures d != Raise(NoInputGiven) && d != Raise(BboxNotImplemented)
    ensures d == Raise(BothInputsGiven) <==> bbox.Some?
    ensures d == ReadFiles <==> bbox.None? && files != []
    ensures d == NoBranch <==> bbox.None? && files == []
  {
    var fileIsNone := false;
    if bbox.None? && fileIsNone then Raise(NoInputGiven)
    else if bbox.Some? && !fileIsNone then Raise(BothInputsGiven)
    else if bbox.Some? && bbox != Some("") then Raise(BboxNotImplemented)
    else if files != [] then ReadFiles
    else NoBranch
  }

  /** The checks as evidently intended: an empty `file` tuple counts as no file. */
  function ArgumentCheck(bbox: Option<string>, files: seq<seq<Geometry>>): (d: Dispatch)
    ensures d != NoBranch
    ensures d == ReadFiles <==> bbox.None? && files != []
    ensures d == Raise(NoInputGiven) <==> bbox.None? && files == []
    ensures d == Raise(BothInputsGiven) <==> bbox.Some? && files != []
    ensures d == Raise(BboxNotImplemented) <==> bbox.Some? && files == []
  {
    var fileIsNone := files == [];
    if bbox.None? && fileIsNone then Raise(NoInputGiven)
    else if bbox.Some? && !fileIsNone then Raise(BothInputsGiven)
    else if bbox.Some? then Raise(BboxNotImplemented)
    else ReadFiles
  }

  /**
   * The checks as written diverge from the intended ones: with no argument at
   * all no branch runs and `main` reaches `int_gdf` unassigned, and a bbox
   * alone is rejected as "both given" rather than as not implemented.
   */
  lemma ArgumentCheckDivergence()
    ensures ArgumentCheckAsWritten(None, []) == NoBranch
    ensures ArgumentCheck(None, []) == Raise(NoInputGiven)
    ensures ArgumentCheckAsWritten(Some("-120.49,37.96,-119.66,38.75"), []) == Raise(BothInputsGiven)
    ensures ArgumentCheck(Some("-120.49,37.96,-119.66,38.75"), []) == Raise(BboxNotImplemented)
  {
  }

  /** The as-written checks only ever read files that the intended checks also read. */
  lemma ArgumentChecksAgreeOnReads(bbox: Option<string>, files: seq<seq<Geometry>>)
    ensures ArgumentCheckAsWritten(bbox, files) == ReadFiles <==> ArgumentCheck(bbox, files) == ReadFiles
  {
  }

  /** The geometries of all files, concatenated in file order (`pd.concat`). */
  function Concat(files: seq<seq<Geometry>>): seq<Geometry> {
    if files == [] then [] else Concat(files[..|files| - 1]) + files[|files| - 1]
  }

  /**
   * `main` without the elevation lookups and the JSON printing, using the
   * corrected argument checks.
   */
  method RunMain(bbox: Option<string>, files: seq<seq<Geometry>>) returns (r: Result<seq<CellRow>, GridError>)
    ensures ArgumentCheck(bbox, files).Raise? ==> r == Failure(ArgumentCheck(bbox, files).error)
    ensures ArgumentCheck(bbox, files) == ReadFiles && AllCoords(Concat(files)).Failure? ==> r == Failure(NotALineString)
    ensures r.Success? <==> ArgumentCheck(bbox, files) == ReadFiles && AllCoords(Concat(files)).Success?
    ensures r.Success? ==> OneRowPerCell(r.value, IntersectedCells(AllCoords(Concat(files)).value))
  {
    var dispatch := ArgumentCheck(bbox, files);
    if dispatch.Raise? {
      return Failure(dispatch.error);
    }
    var gdf := Concat(files);
    var allCoords := FlattenCoords(gdf);
    if allCoords.Failure? {
      return Failure(allCoords.error);
    }
    r := IntersectWithGrid(allCoords.value, false);
  }
}
