/**
 * The sphere mesh of the 3-D view: a grid of `latSegments + 1` rings of
 * `lonSegments + 1` vertices, three coordinates each, and an index list
 * that covers every cell of the grid with two triangles.
 *
 * The coordinates come from single-precision sine and cosine of the ring
 * and column angles; here they are a caller-supplied function `at` of the
 * ring and the column. The indices are `uint`, and the source's unchecked
 * `uint` arithmetic and `(uint)` cast are written out as reduction modulo
 * 2^32.
 */
module SphereMesh {

  /** A C# `int`. */
  type Int32 = x: int | -0x8000_0000 <= x < 0x8000_0000

  /** A C# `uint`. */
  type UInt32 = x: int | 0 <= x < 0x1_0000_0000

  /** Unchecked conversion to `uint`: reduction modulo 2^32. */
  function U32(x: int): UInt32 {
    x % 0x1_0000_0000
  }

  /** A value already in the `uint` range is unchanged by the conversion. */
  lemma U32InRange(x: int)
    requires 0 <= x < 0x1_0000_0000
    ensures U32(x) == x
  {
  }

  /** `uint` addition, which wraps around. */
  function UAdd(a: UInt32, b: UInt32): UInt32 {
    U32(a as int + b as int)
  }

  /** `uint` multiplication, which wraps around. */
  function UMul(a: UInt32, b: UInt32): UInt32 {
    U32(a as int * b as int)
  }

  /** One vertex position. */
  datatype Point = Point(x: real, y: real, z: real)

  /** The returned mesh: the vertex list and the index list, in the order they were added. */
  datatype Mesh = Mesh(vertices: seq<real>, indices: seq<UInt32>)

  /** How often `for (i = 0; i <= n; i++)` runs its body. */
  function Inclusive(n: int): nat {
    if n < 0 then 0 else n + 1
  }

  /** How often `for (i = 0; i < n; i++)` runs its body. */
  function Exclusive(n: int): nat {
    if n < 0 then 0 else n
  }

  /** The three entries a vertex adds to the vertex list: `x`, `y`, `z`. */
  function Coords(p: Point): seq<real> {
    [p.x, p.y, p.z]
  }

  /** The cells of row `lat`, columns `0` to `cols - 1`, one after another. */
  function Row<T>(cell: (int, int) -> seq<T>, lat: int, cols: nat): seq<T> {
    if cols == 0 then [] else Row(cell, lat, cols - 1) + cell(lat, cols - 1)
  }

  /** The cells of rows `0` to `rows - 1`, in row-major order. */
  function Grid<T>(cell: (int, int) -> seq<T>, rows: nat, cols: nat): seq<T> {
    if rows == 0 then [] else Grid(cell, rows - 1, cols) + Row(cell, rows - 1, cols)
  }

  /** Every cell has `w` entries. */
  ghost predicate Width<T>(cell: (int, int) -> seq<T>, w: nat) {
    forall i, j :: |cell(i, j)| == w
  }

  /** What the vertex loop adds for ring `lat`, column `lon`. */
  function VertexCell(at: (int, int) -> Point): (int, int) -> seq<real> {
    (lat, lon) => Coords(at(lat, lon))
  }

  /** The vertex list `CreateSphere` builds. */
  function Vertices(latSegments: Int32, lonSegments: Int32, at: (int, int) -> Point): seq<real> {
    Grid(VertexCell(at), Inclusive(latSegments), Inclusive(lonSegments))
  }

  /** The number of the vertex at ring `lat`, column `lon`: its place in ring-major order. */
  function VertexNumber(lat: int, lon: int, lonSegments: int): int {
    lat * (lonSegments + 1) + lon
  }

  /**
   * The six indices of the cell whose top-left corner is ring `lat`,
   * column `lon`, computed in `uint`: the triangles
   * `(first, second, first + 1)` and `(second, second + 1, first + 1)`.
   */
  function Quad(lat: int, lon: int, lonSegments: int): (q: seq<UInt32>)
    ensures |q| == 6
  {
    var first := UAdd(UMul(U32(lat), U32(lonSegments + 1)), U32(lon));
    var second := UAdd(first, U32(lonSegments + 1));
    [first, second, UAdd(first, 1), second, UAdd(second, 1), UAdd(first, 1)]
  }

  /** What the index loop adds for the cell at row `lat`, column `lon`. */
  function QuadCell(lonSegments: int): (int, int) -> seq<UInt32> {
    (lat, lon) => Quad(lat, lon, lonSegments)
  }

  /** The index list `CreateSphere` builds. */
  function Indices(latSegments: Int32, lonSegments: Int32): seq<UInt32> {
    Grid(QuadCell(lonSegments), Exclusive(latSegments), Exclusive(lonSegments))
  }

  /**
   * No index computation leaves the `uint` range: the grid has at most
   * 2^32 vertices. A vertex list long enough to break this could not be
   * allocated, so it holds whenever the vertex loops finish.
   */
  predicate NoWrap(latSegments: Int32, lonSegments: Int32) {
    Inclusive(latSegments) * Inclusive(lonSegments) <= 0x1_0000_0000
  }

  /**
   * `CreateSphere`: first every vertex, ring by ring and column by column,
   * then the six indices of every cell, row by row and column by column.
   */
  method CreateSphere(latSegments: Int32, lonSegments: Int32, at: (int, int) -> Point) returns (mesh: Mesh)
    ensures mesh.vertices == Vertices(latSegments, lonSegments, at)
    ensures mesh.indices == Indices(latSegments, lonSegments)
  {
    var vertices := AddVertices(latSegments, lonSegments, at);
    var indices := AddIndices(latSegments, lonSegments);
    mesh := Mesh(vertices, indices);
  }

  /** The vertex loops of `CreateSphere`. */
  method AddVertices(latSegments: Int32, lonSegments: Int32, at: (int, int) -> Point) returns (vertices: seq<real>)
    ensures vertices == Vertices(latSegments, lonSegments, at)
  {
    vertices := [];
    var lat := 0;
    while lat <= latSegments
      invariant 0 <= lat <= Inclusive(latSegments)
      invariant vertices == Grid(VertexCell(at), lat, Inclusive(lonSegments))
    {
      var lon := 0;
      while lon <= lonSegments
        invariant 0 <= lon <= Inclusive(lonSegments)
        invariant vertices == Grid(VertexCell(at), lat, Inclusive(lonSegments)) + Row(VertexCell(at), lat, lon)
      {
        var p := at(lat, lon);
        assert VertexCell(at)(lat, lon) == [p.x, p.y, p.z];
        vertices := vertices + [p.x];
        vertices := vertices + [p.y];
        vertices := vertices + [p.z];
        lon := lon + 1;
      }
      lat := lat + 1;
    }
  }

  /** The index loops of `CreateSphere`. */
  method AddIndices(latSegments: Int32, lonSegments: Int32) returns (indices: seq<UInt32>)
    ensures indices == Indices(latSegments, lonSegments)
  {
    indices := [];
    var lat: UInt32 := 0;
    while lat < latSegments
      invariant lat <= Exclusive(latSegments)
      invariant indices == Grid(QuadCell(lonSegments), lat, Exclusive(lonSegments))
    {
      var lon: UInt32 := 0;
      while lon < lonSegments
        invariant lon <= Exclusive(lonSegments)
        invariant indices == Grid(QuadCell(lonSegments), lat, Exclusive(lonSegments)) + Row(QuadCell(lonSegments), lat, lon)
      {
        U32InRange(lat);
        U32InRange(lon);
        var first := UAdd(UMul(lat, U32(lonSegments + 1)), lon);
        var second := UAdd(first, U32(lonSegments + 1));
        var cell := [first, second, UAdd(first, 1), second, UAdd(second, 1), UAdd(first, 1)];
        assert Quad(lat, lon, lonSegments) == cell;
        assert QuadCell(lonSegments)(lat, lon) == cell;
        // the six `indices.Add` calls, in order
        indices := indices + cell;
        lon := lon + 1;
      }
      lat := lat + 1;
    }
  }


  lemma MulMonotone(a: int, b: int, c: int)
    requires a <= b && 0 <= c
    ensures c * a <= c * b
  {
    assert c * b - c * a == c * (b - a);
  }

  lemma Offset(w: int, lat: int, cols: int, lon: int)
    ensures w * (lat * cols + lon) == lat * (w * cols) + w * lon
  {
  }

  /** The arithmetic of a grid point in row `lat` of a grid with `rows + 1` rows of `cols` points. */
  lemma RowsBelow(rows: int, cols: int, lat: int)
    requires 0 <= lat < rows && 1 <= cols
    ensures 0 <= lat * cols
    ensures (lat + 1) * cols == lat * cols + cols
    ensures (lat + 1) * cols <= rows * cols
    ensures (rows + 1) * cols == rows * cols + cols
  {
    MulMonotone(lat + 1, rows, cols);
  }

  lemma MulPred(a: int, b: int)
    ensures a * (b - 1) == a * b - a
    ensures (b - 1) * a == b * a - a
  {
  }

  lemma {:induction false} RowLength<T>(cell: (int, int) -> seq<T>, w: nat, lat: int, cols: nat)
    requires Width(cell, w)
    ensures |Row(cell, lat, cols)| == w * cols
    decreases cols
  {
    if cols > 0 {
      RowLength(cell, w, lat, cols - 1);
      assert |cell(lat, cols - 1)| == w;
      MulPred(w, cols);
    }
  }

  lemma {:induction false} GridLength<T>(cell: (int, int) -> seq<T>, w: nat, rows: nat, cols: nat)
    requires Width(cell, w)
    ensures |Grid(cell, rows, cols)| == rows * (w * cols)
    decreases rows
  {
    if rows > 0 {
      GridLength(cell, w, rows - 1, cols);
      RowLength(cell, w, rows - 1, cols);
      MulPred(w * cols, rows);
    }
  }

  /** Cell `lon` of a row follows the `lon` cells before it. */
  lemma {:induction false} RowAt<T>(cell: (int, int) -> seq<T>, lat: int, cols: nat, lon: nat)
    requires lon < cols
    ensures |Row(cell, lat, lon)| + |cell(lat, lon)| <= |Row(cell, lat, cols)|
    ensures Row(cell, lat, cols)[|Row(cell, lat, lon)| .. |Row(cell, lat, lon)| + |cell(lat, lon)|] == cell(lat, lon)
    decreases cols
  {
    var front := Row(cell, lat, cols - 1);
    var o := |Row(cell, lat, lon)|;
    var w := |cell(lat, lon)|;
    if lon < cols - 1 {
      RowAt(cell, lat, cols - 1, lon);
      assert Row(cell, lat, cols)[o .. o + w] == front[o .. o + w];
    }
  }

  /**
   * Cell `(lat, lon)` of a grid follows the `lat` rows before it and the
   * `lon` cells before it in its own row.
   */
  lemma {:induction false} CellAt<T>(cell: (int, int) -> seq<T>, rows: nat, cols: nat, lat: nat, lon: nat)
    requires lat < rows && lon < cols
    ensures |Grid(cell, lat, cols)| + |Row(cell, lat, lon)| + |cell(lat, lon)| <= |Grid(cell, rows, cols)|
    ensures var o := |Grid(cell, lat, cols)| + |Row(cell, lat, lon)|;
            Grid(cell, rows, cols)[o .. o + |cell(lat, lon)|] == cell(lat, lon)
    decreases rows
  {
    var front := Grid(cell, rows - 1, cols);
    var o := |Grid(cell, lat, cols)| + |Row(cell, lat, lon)|;
    var w := |cell(lat, lon)|;
    RowAt(cell, lat, cols, lon);
    if lat < rows - 1 {
      CellAt(cell, rows - 1, cols, lat, lon);
      assert Grid(cell, rows, cols)[o .. o + w] == front[o .. o + w];
    } else {
      assert Grid(cell, rows, cols)[o .. o + w] == Row(cell, lat, cols)[o - |front| .. o - |front| + w];
    }
  }

  /** A property of every entry of every cell of a row holds of every entry of the row. */
  lemma {:induction false} RowEvery<T>(cell: (int, int) -> seq<T>, lat: int, cols: nat, ok: T -> bool)
    requires forall j, t :: 0 <= j < cols && 0 <= t < |cell(lat, j)| ==> ok(cell(lat, j)[t])
    ensures forall k :: 0 <= k < |Row(cell, lat, cols)| ==> ok(Row(cell, lat, cols)[k])
    decreases cols
  {
    if cols > 0 {
      var front := Row(cell, lat, cols - 1);
      var last := cell(lat, cols - 1);
      RowEvery(cell, lat, cols - 1, ok);
      forall k | 0 <= k < |Row(cell, lat, cols)|
        ensures ok(Row(cell, lat, cols)[k])
      {
        if k >= |front| {
          assert Row(cell, lat, cols)[k] == last[k - |front|];
        }
      }
    }
  }

  /** A property of every entry of every cell of a grid holds of every entry of the grid. */
  lemma {:induction false} GridEvery<T>(cell: (int, int) -> seq<T>, rows: nat, cols: nat, ok: T -> bool)
    requires forall i, j, t :: 0 <= i < rows && 0 <= j < cols && 0 <= t < |cell(i, j)| ==> ok(cell(i, j)[t])
    ensures forall k :: 0 <= k < |Grid(cell, rows, cols)| ==> ok(Grid(cell, rows, cols)[k])
    decreases rows
  {
    if rows > 0 {
      var front := Grid(cell, rows - 1, cols);
      var last := Row(cell, rows - 1, cols);
      GridEvery(cell, rows - 1, cols, ok);
      RowEvery(cell, rows - 1, cols, ok);
      forall k | 0 <= k < |Grid(cell, rows, cols)|
        ensures ok(Grid(cell, rows, cols)[k])
      {
        if k >= |front| {
          assert Grid(cell, rows, cols)[k] == last[k - |front|];
        }
      }
    }
  }

  lemma VertexWidth(at: (int, int) -> Point)
    ensures Width(VertexCell(at), 3)
  {
    forall i, j
      ensures |VertexCell(at)(i, j)| == 3
    {
      assert VertexCell(at)(i, j) == Coords(at(i, j));
    }
  }

  lemma QuadWidth(lonSegments: int)
    ensures Width(QuadCell(lonSegments), 6)
  {
    forall i, j
      ensures |QuadCell(lonSegments)(i, j)| == 6
    {
      assert QuadCell(lonSegments)(i, j) == Quad(i, j, lonSegments);
    }
  }

  lemma Reassociate(w: int, rows: int, cols: int)
    ensures rows * (w * cols) == w * (rows * cols)
  {
  }

  /** The vertex list has three entries per grid point: `3*(latSegments+1)*(lonSegments+1)`. */
  lemma VertexCount(latSegments: Int32, lonSegments: Int32, at: (int, int) -> Point)
    ensures |Vertices(latSegments, lonSegments, at)| == 3 * (Inclusive(latSegments) * Inclusive(lonSegments))
    ensures 0 <= latSegments && 0 <= lonSegments ==>
      |Vertices(latSegments, lonSegments, at)| == 3 * ((latSegments + 1) * (lonSegments + 1))
  {
    VertexWidth(at);
    GridLength(VertexCell(at), 3, Inclusive(latSegments), Inclusive(lonSegments));
    Reassociate(3, Inclusive(latSegments), Inclusive(lonSegments));
  }

  /**
   * The vertex at ring `lat`, column `lon` is the three entries starting at
   * `3*(lat*(lonSegments+1)+lon)`: three times its vertex number.
   */
  lemma VertexOffset(latSegments: Int32, lonSegments: Int32, at: (int, int) -> Point, lat: int, lon: int)
    requires 0 <= lat <= latSegments && 0 <= lon <= lonSegments
    ensures var o := 3 * VertexNumber(lat, lon, lonSegments);
            0 <= o && o + 3 <= |Vertices(latSegments, lonSegments, at)| &&
            Vertices(latSegments, lonSegments, at)[o .. o + 3] == Coords(at(lat, lon))
  {
    var cell, cols := VertexCell(at), lonSegments + 1;
    VertexWidth(at);
    GridLength(cell, 3, lat, cols);
    RowLength(cell, 3, lat, lon);
    CellAt(cell, latSegments + 1, cols, lat, lon);
    Offset(3, lat, cols, lon);
  }

  /** The index list has six entries per cell: `6*latSegments*lonSegments`. */
  lemma IndexCount(latSegments: Int32, lonSegments: Int32)
    ensures |Indices(latSegments, lonSegments)| == 6 * (Exclusive(latSegments) * Exclusive(lonSegments))
    ensures 0 <= latSegments && 0 <= lonSegments ==>
      |Indices(latSegments, lonSegments)| == 6 * (latSegments * lonSegments)
  {
    QuadWidth(lonSegments);
    GridLength(QuadCell(lonSegments), 6, Exclusive(latSegments), Exclusive(lonSegments));
    Reassociate(6, Exclusive(latSegments), Exclusive(lonSegments));
  }

  /** The six indices of cell `(lat, lon)` start at position `6*(lat*lonSegments+lon)`. */
  lemma QuadPosition(latSegments: Int32, lonSegments: Int32, lat: int, lon: int)
    requires 0 <= lat < latSegments && 0 <= lon < lonSegments
    ensures var o := 6 * (lat * lonSegments + lon);
            0 <= o && o + 6 <= |Indices(latSegments, lonSegments)| &&
            Indices(latSegments, lonSegments)[o .. o + 6] == Quad(lat, lon, lonSegments)
  {
    var cell := QuadCell(lonSegments);
    QuadWidth(lonSegments);
    GridLength(cell, 6, lat, lonSegments);
    RowLength(cell, 6, lat, lon);
    CellAt(cell, latSegments, lonSegments, lat, lon);
    Offset(6, lat, lonSegments, lon);
  }

  /**
   * Without wrap-around, the cell at ring `lat`, column `lon` joins the
   * grid points `(lat, lon)`, `(lat+1, lon)`, `(lat, lon+1)` and
   * `(lat+1, lon+1)`, so `second == first + lonSegments + 1` is the same
   * column on the next ring, and every corner is a vertex of the mesh.
   */
  lemma QuadCorners(latSegments: Int32, lonSegments: Int32, lat: int, lon: int)
    requires NoWrap(latSegments, lonSegments)
    requires 0 <= lat < latSegments && 0 <= lon < lonSegments
    ensures var q := Quad(lat, lon, lonSegments);
            q == [VertexNumber(lat, lon, lonSegments), VertexNumber(lat + 1, lon, lonSegments),
                  VertexNumber(lat, lon + 1, lonSegments), VertexNumber(lat + 1, lon, lonSegments),
                  VertexNumber(lat + 1, lon + 1, lonSegments), VertexNumber(lat, lon + 1, lonSegments)]
    ensures var q := Quad(lat, lon, lonSegments);
            q[1] == q[0] + lonSegments + 1 && q[4] == q[1] + 1 && q[2] == q[0] + 1
    ensures forall t :: 0 <= t < 6 ==> Quad(lat, lon, lonSegments)[t] < (latSegments + 1) * (lonSegments + 1)
  {
    var cols := lonSegments + 1;
    RowsBelow(latSegments, cols, lat);
    assert (latSegments + 1) * cols <= 0x1_0000_0000;
    var first := VertexNumber(lat, lon, lonSegments);
    U32InRange(lat);
    U32InRange(lon);
    U32InRange(cols);
    U32InRange(lat * cols);
    U32InRange(first);
    U32InRange(first + 1);
    U32InRange(first + cols);
    U32InRange(first + cols + 1);
  }

  /** The two triangles of a cell share the edge from `second` to `first + 1`. */
  lemma SharedEdge(lat: int, lon: int, lonSegments: int)
    ensures var q := Quad(lat, lon, lonSegments);
            q[3] == q[1] && q[5] == q[2]
  {
  }

  /** Both triangles of every cell have three different corners. */
  lemma TrianglesNonDegenerate(latSegments: Int32, lonSegments: Int32, lat: int, lon: int)
    requires NoWrap(latSegments, lonSegments)
    requires 0 <= lat < latSegments && 0 <= lon < lonSegments
    ensures var q := Quad(lat, lon, lonSegments);
            q[0] != q[1] && q[1] != q[2] && q[0] != q[2] &&
            q[3] != q[4] && q[4] != q[5] && q[3] != q[5]
  {
    QuadCorners(latSegments, lonSegments, lat, lon);
  }

  /**
   * Without wrap-around every index names an existing vertex: it is below
   * the number of grid points, a third of the vertex list's length.
   */
  lemma IndicesInRange(latSegments: Int32, lonSegments: Int32, at: (int, int) -> Point)
    requires NoWrap(latSegments, lonSegments)
    ensures forall k :: 0 <= k < |Indices(latSegments, lonSegments)| ==>
      3 * Indices(latSegments, lonSegments)[k] < |Vertices(latSegments, lonSegments, at)|
  {
    var n := Inclusive(latSegments) * Inclusive(lonSegments);
    VertexCount(latSegments, lonSegments, at);
    var cell := QuadCell(lonSegments);
    var rows, cols := Exclusive(latSegments), Exclusive(lonSegments);
    var below := x => x < n;
    forall i, j, t | 0 <= i < rows && 0 <= j < cols && 0 <= t < |cell(i, j)|
      ensures below(cell(i, j)[t])
    {
      QuadCorners(latSegments, lonSegments, i, j);
    }
    GridEvery(cell, rows, cols, below);
    var indices := Indices(latSegments, lonSegments);
    forall k | 0 <= k < |indices|
      ensures 3 * indices[k] < 3 * n
    {
      assert below(indices[k]);
    }
  }
}
