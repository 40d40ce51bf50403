/** The terrain mesh builder: a regular grid mesh over a height map, one
    vertex per cell and two triangles per quad, written into preallocated
    buffers. */
module MeshGenerator {
  import opened Grid

  datatype Vector3 = Vector3(x: real, y: real, z: real)
  datatype Vector2 = Vector2(x: real, y: real)

  // ---------------------------------------------------------------------
  // What the buffers hold

  /** The six indices emitted for the quad whose top-left corner is vertex
      `v` in a mesh `width` vertices wide: triangle (v, v+w+1, v+w), then
      triangle (v+w+1, v, v+1). */
  function QuadIndices(width: int, v: int): (r: seq<int>)
    ensures |r| == 6
    ensures forall k :: 0 <= k < 6 ==> r[k] in {v, v + 1, v + width, v + width + 1}
    ensures r[0] == r[4] == v && r[1] == r[3] == v + width + 1
  {
    [v, v + width + 1, v + width, v + width + 1, v, v + 1]
  }

  /** The number of triangle-index slots of a `width` by `height` mesh. */
  function TriangleSlots(width: int, height: int): (r: int)
    ensures width >= 1 && height >= 1 ==> r >= 0 && (r == 0 <==> width == 1 || height == 1)
    ensures width == 0 && height == 0 ==> r == 6
  {
    (width - 1) * (height - 1) * 6
  }

  /** The first slot of the quad at row `row`, column `col`: quads are
      numbered in row-major order over the `width - 1` quads of each row. */
  function QuadOffset(width: nat, row: nat, col: nat): nat
    requires width >= 1
  {
    Flat(width - 1, row, col) * 6
  }

  /** The index in slot `k` of the triangle buffer: the `k % 6`-th index of
      quad number `k / 6`. */
  function TriangleAt(width: nat, k: nat): int
    requires width >= 2
  {
    var quad := k / 6;
    QuadIndices(width, Flat(width, RowOf(width - 1, quad), ColOf(width - 1, quad)))[k % 6]
  }

  /** The position of the vertex of cell (`row`, `col`): the grid is centred
      on x, row 0 is at the back, and the height goes through the curve. */
  function VertexAt(heightMap: array2<real>, heightMultiplier: real, heightCurve: real -> real, row: nat, col: nat)
    : (p: Vector3)
    reads heightMap
    requires col < heightMap.Length0 && row < heightMap.Length1
    ensures -((heightMap.Length0 - 1) as real / 2.0) <= p.x <= (heightMap.Length0 - 1) as real / 2.0
    ensures -((heightMap.Length1 - 1) as real / 2.0) <= p.z <= (heightMap.Length1 - 1) as real / 2.0
    ensures p.y == heightCurve(heightMap[col, row]) * heightMultiplier
  {
    var topLeftX := (heightMap.Length0 - 1) as real / -2.0;
    var topLeftZ := (heightMap.Length1 - 1) as real / 2.0;
    Vector3(topLeftX + col as real, heightCurve(heightMap[col, row]) * heightMultiplier, topLeftZ - row as real)
  }

  /** The position of the vertex with flat index `v`. */
  function VertexOf(heightMap: array2<real>, heightMultiplier: real, heightCurve: real -> real, v: nat): Vector3
    reads heightMap
    requires v < heightMap.Length0 * heightMap.Length1
  {
    RowInRange(heightMap.Length0, heightMap.Length1, v);
    FlatUnflat(heightMap.Length0, v);
    VertexAt(heightMap, heightMultiplier, heightCurve, RowOf(heightMap.Length0, v), ColOf(heightMap.Length0, v))
  }

  /** The texture coordinate of cell (`row`, `col`). */
  function UvAt(width: nat, height: nat, row: nat, col: nat): (uv: Vector2)
    requires width > 0 && height > 0
    ensures 0.0 <= uv.x && uv.x * width as real == col as real
    ensures 0.0 <= uv.y && uv.y * height as real == row as real
  {
    Vector2(col as real / width as real, row as real / height as real)
  }

  /** The grid is centred on the origin: cells mirrored across the middle
      column have opposite x, cells mirrored across the middle row opposite
      z, and neighbouring cells are one unit apart. */
  lemma MeshIsCentred(heightMap: array2<real>, heightMultiplier: real, heightCurve: real -> real, row: nat, col: nat)
    requires col < heightMap.Length0 && row < heightMap.Length1
    ensures VertexAt(heightMap, heightMultiplier, heightCurve, row, col).x ==
            -VertexAt(heightMap, heightMultiplier, heightCurve, row, heightMap.Length0 - 1 - col).x
    ensures VertexAt(heightMap, heightMultiplier, heightCurve, row, col).z ==
            -VertexAt(heightMap, heightMultiplier, heightCurve, heightMap.Length1 - 1 - row, col).z
    ensures col + 1 < heightMap.Length0 ==>
      VertexAt(heightMap, heightMultiplier, heightCurve, row, col + 1).x ==
      VertexAt(heightMap, heightMultiplier, heightCurve, row, col).x + 1.0
    ensures row + 1 < heightMap.Length1 ==>
      VertexAt(heightMap, heightMultiplier, heightCurve, row + 1, col).z ==
      VertexAt(heightMap, heightMultiplier, heightCurve, row, col).z - 1.0
  {
  }

  /** Texture coordinates lie in the unit square and, scaled back by the
      grid size, give the cell's column and row. */
  lemma {:induction false} UvInUnitSquare(width: nat, height: nat, row: nat, col: nat)
    requires row < height && col < width
    ensures 0.0 <= UvAt(width, height, row, col).x < 1.0 && 0.0 <= UvAt(width, height, row, col).y < 1.0
    ensures UvAt(width, height, row, col).x * width as real == col as real
    ensures UvAt(width, height, row, col).y * height as real == row as real
  {
    RatioBelowOne(col as real, width as real);
    RatioBelowOne(row as real, height as real);
  }

  lemma RatioBelowOne(a: real, d: real)
    requires 0.0 <= a < d
    ensures 0.0 <= a / d < 1.0 && (a / d) * d == a
  {
    var q := a / d;
    assert q * d == a;
    assert 0.0 <= q;
  }

  // ---------------------------------------------------------------------
  // Properties of the triangle buffer

  /** Quad (`row`, `col`) occupies the six slots from its offset on, in
      winding order. */
  lemma {:induction false} QuadAtOffset(width: nat, row: nat, col: nat, r: nat)
    requires width >= 2 && col < width - 1 && r < 6
    ensures TriangleAt(width, QuadOffset(width, row, col) + r) == QuadIndices(width, Flat(width, row, col))[r]
  {
    UnflatFlat(width - 1, row, col);
    SlotOfQuad(width, Flat(width - 1, row, col), r, row, col);
  }

  /** Slot `r` of quad number `quad`, the quad at (`row`, `col`). */
  lemma {:induction false} SlotOfQuad(width: nat, quad: nat, r: nat, row: nat, col: nat)
    requires width >= 2 && r < 6
    requires RowOf(width - 1, quad) == row && ColOf(width - 1, quad) == col
    ensures TriangleAt(width, quad * 6 + r) == QuadIndices(width, Flat(width, row, col))[r]
  {
    DivModUnique(quad * 6 + r, 6, quad, r);
  }

  /** Every slot of the buffer holds the index of a vertex of the mesh. */
  lemma {:induction false} TriangleInRange(width: nat, height: nat, k: nat)
    requires width >= 2 && height >= 2 && k < TriangleSlots(width, height)
    ensures 0 <= TriangleAt(width, k) < width * height
  {
    var quad := k / 6;
    assert quad < (width - 1) * (height - 1);
    RowInRange(width - 1, height - 1, quad);
    FlatUnflat(width - 1, quad);
    var row, col := RowOf(width - 1, quad), ColOf(width - 1, quad);
    assert row < height - 1 && col < width - 1;
    FlatInRange(width, height, row + 1, col + 1);
    FlatNextCol(width, row + 1, col);
  }

  /** Twice the signed area of the triangle (`a`, `b`, `c`) of vertex
      indices, in the horizontal plane of the mesh (x grows with the column,
      z falls as the row grows). */
  function SignedArea(width: nat, a: nat, b: nat, c: nat): int
    requires width > 0
  {
    var ax, az := ColOf(width, a) as int, -(RowOf(width, a) as int);
    var bx, bz := ColOf(width, b) as int, -(RowOf(width, b) as int);
    var cx, cz := ColOf(width, c) as int, -(RowOf(width, c) as int);
    (bx - ax) * (cz - az) - (bz - az) * (cx - ax)
  }

  /** Both triangles of every quad are non-degenerate half-cells wound the
      same way (clockwise seen from above), so after the normals are
      recomputed the whole surface faces the same side. */
  lemma {:induction false} QuadWindingAgrees(width: nat, row: nat, col: nat)
    requires width >= 2 && col < width - 1
    ensures var q := QuadIndices(width, Flat(width, row, col));
      SignedArea(width, q[0], q[1], q[2]) == -1 && SignedArea(width, q[3], q[4], q[5]) == -1
  {
    var v := Flat(width, row, col);
    UnflatFlat(width, row, col);
    UnflatFlat(width, row, col + 1);
    UnflatFlat(width, row + 1, col);
    UnflatFlat(width, row + 1, col + 1);
    FlatNextCol(width, row, col);
    FlatNextCol(width, row + 1, col);
    assert SignedArea(width, v, v + width + 1, v + width) == -1;
    assert SignedArea(width, v + width + 1, v, v + 1) == -1;
  }

  // ---------------------------------------------------------------------
  // The buffers

  /** The vertex, texture-coordinate and triangle-index buffers of a mesh,
      with the cursor `triangleIndex` of the next free triangle slot. */
  class MeshData {
    var vertices: array<Vector3>
    var triangles: array<int>
    var uvs: array<Vector2>
    var triangleIndex: nat

    /** Allocates zero-filled buffers for a `meshWidth` by `meshHeight` grid. */
    constructor (meshWidth: int, meshHeight: int)
      requires meshWidth >= 1 && meshHeight >= 1
      ensures fresh(vertices) && fresh(uvs) && fresh(triangles)
      ensures vertices.Length == meshWidth * meshHeight && uvs.Length == meshWidth * meshHeight
      ensures triangles.Length == TriangleSlots(meshWidth, meshHeight)
      ensures triangleIndex == 0
      ensures forall k :: 0 <= k < triangles.Length ==> triangles[k] == 0
    {
      vertices := new Vector3[meshWidth * meshHeight](_ => Vector3(0.0, 0.0, 0.0));
      uvs := new Vector2[meshWidth * meshHeight](_ => Vector2(0.0, 0.0));
      triangles := new int[(meshWidth - 1) * (meshHeight - 1) * 6](_ => 0);
      triangleIndex := 0;
    }

    /** Appends one triangle at the cursor. Writing past the end of the
        buffer raises an exception in the source; here the buffer must have
        room for three more indices. */
    method AddTriangle(x: int, y: int, z: int)
      requires triangleIndex + 3 <= triangles.Length
      modifies this`triangleIndex, triangles
      ensures triangleIndex == old(triangleIndex) + 3
      ensures triangles[..] == old(triangles[..])[old(triangleIndex) := x][old(triangleIndex) + 1 := y][old(triangleIndex) + 2 := z]
    {
      triangles[triangleIndex] := x;
      triangles[triangleIndex + 1] := y;
      triangles[triangleIndex + 2] := z;
      triangleIndex := triangleIndex + 3;
    }
  }

  /** The number of quads emitted before cell (`row`, `col`) in row-major
      order: one per cell that is on neither the last row nor the last
      column. */
  function QuadsBefore(width: nat, height: nat, row: nat, col: nat): nat
    requires width >= 1 && height >= 1
  {
    if row < height - 1 then Flat(width - 1, row, if col < width - 1 then col else width - 1)
    else Flat(width - 1, height - 1, 0)
  }

  /** Visiting cell (`row`, `col`) emits one quad exactly when the cell is on
      neither the last row nor the last column. */
  lemma {:induction false} QuadsBeforeStep(width: nat, height: nat, row: nat, col: nat)
    requires width >= 1 && height >= 1 && row < height && col < width
    ensures QuadsBefore(width, height, row, col + 1) ==
      QuadsBefore(width, height, row, col) + (if col < width - 1 && row < height - 1 then 1 else 0)
  {
    FlatNextCol(width - 1, row, col);
  }

  lemma {:induction false} QuadsBeforeNextRow(width: nat, height: nat, row: nat)
    requires width >= 1 && height >= 1 && row < height
    ensures QuadsBefore(width, height, row, width) == QuadsBefore(width, height, row + 1, 0)
  {
    NextRowStart(width - 1, row);
  }

  /** The quads emitted so far never exceed the buffer, and a cell that still
      has a quad to emit has room for it. */
  lemma {:induction false} QuadsBeforeBound(width: nat, height: nat, row: nat, col: nat)
    requires width >= 1 && height >= 1 && row <= height && col <= width
    ensures QuadsBefore(width, height, row, col) * 6 <= TriangleSlots(width, height)
    ensures row < height - 1 && col < width - 1 ==>
      QuadsBefore(width, height, row, col) * 6 + 6 <= TriangleSlots(width, height)
    ensures row == height ==> QuadsBefore(width, height, row, col) * 6 == TriangleSlots(width, height)
  {
    var n := QuadsBefore(width, height, row, col);
    if row < height - 1 {
      var c := if col < width - 1 then col else width - 1;
      FlatIsRowMajor(width - 1, row, c);
      assert n <= (row + 1) * (width - 1);
      MulMono(row + 1, height - 1, width - 1);
      if col < width - 1 {
        assert n + 1 <= (row + 1) * (width - 1);
      }
    }
    FlatIsRowMajor(width - 1, height - 1, 0);
    assert (height - 1) * (width - 1) == (width - 1) * (height - 1);
  }

  /** The first `n` vertices and texture coordinates are in place. */
  ghost predicate VerticesUpTo(meshData: MeshData, heightMap: array2<real>, heightMultiplier: real,
                               heightCurve: real -> real, n: nat)
    reads meshData`vertices, meshData`uvs, meshData.vertices, meshData.uvs, heightMap
    requires heightMap.Length0 >= 1 && heightMap.Length1 >= 1
    requires n <= meshData.vertices.Length && n <= meshData.uvs.Length && n <= heightMap.Length0 * heightMap.Length1
  {
    forall v :: 0 <= v < n ==>
      meshData.vertices[v] == VertexOf(heightMap, heightMultiplier, heightCurve, v) &&
      meshData.uvs[v] == UvAt(heightMap.Length0, heightMap.Length1,
                              RowOf(heightMap.Length0, v), ColOf(heightMap.Length0, v))
  }

  /** The first `n` triangle slots hold their final indices. */
  ghost predicate TrianglesUpTo(meshData: MeshData, width: nat, n: nat)
    reads meshData`triangles, meshData.triangles
    requires n <= meshData.triangles.Length
  {
    width >= 2 ==> forall k :: 0 <= k < n ==> meshData.triangles[k] == TriangleAt(width, k)
  }

  /** Builds the mesh of `heightMap`, whose first dimension is the width. */
  method GenerateTerrainMesh(heightMap: array2<real>, heightMultiplier: real, heightCurve: real -> real)
    returns (meshData: MeshData)
    requires heightMap.Length0 >= 1 && heightMap.Length1 >= 1
    ensures fresh(meshData) && fresh(meshData.vertices) && fresh(meshData.uvs) && fresh(meshData.triangles)
    ensures meshData.vertices.Length == heightMap.Length0 * heightMap.Length1
    ensures meshData.uvs.Length == heightMap.Length0 * heightMap.Length1
    ensures meshData.triangles.Length == TriangleSlots(heightMap.Length0, heightMap.Length1)
    ensures meshData.triangleIndex == meshData.triangles.Length
    ensures forall v :: 0 <= v < meshData.vertices.Length ==>
      meshData.vertices[v] == VertexOf(heightMap, heightMultiplier, heightCurve, v)
    ensures forall v :: 0 <= v < meshData.uvs.Length ==>
      meshData.uvs[v] == UvAt(heightMap.Length0, heightMap.Length1,
                              RowOf(heightMap.Length0, v), ColOf(heightMap.Length0, v))
    ensures heightMap.Length0 >= 2 ==>
      forall k :: 0 <= k < meshData.triangles.Length ==> meshData.triangles[k] == TriangleAt(heightMap.Length0, k)
  {
    var mapWidth := heightMap.Length0;
    var mapHeight := heightMap.Length1;

    meshData := new MeshData(mapWidth, mapHeight);
    var vertexIndex := 0;

    var i := 0;
    QuadsBeforeBound(mapWidth, mapHeight, 0, 0);
    while i < mapHeight
      invariant 0 <= i <= mapHeight
      invariant fresh(meshData.vertices) && fresh(meshData.uvs) && fresh(meshData.triangles)
      invariant meshData.vertices.Length == mapWidth * mapHeight && meshData.uvs.Length == mapWidth * mapHeight
      invariant meshData.triangles.Length == TriangleSlots(mapWidth, mapHeight)
      invariant vertexIndex == Flat(mapWidth, i, 0) && vertexIndex <= mapWidth * mapHeight
      invariant meshData.triangleIndex == QuadsBefore(mapWidth, mapHeight, i, 0) * 6
      invariant meshData.triangleIndex <= meshData.triangles.Length
      invariant VerticesUpTo(meshData, heightMap, heightMultiplier, heightCurve, vertexIndex)
      invariant TrianglesUpTo(meshData, mapWidth, meshData.triangleIndex)
    {
      vertexIndex := FillRow(meshData, heightMap, heightMultiplier, heightCurve, i, vertexIndex);
      QuadsBeforeBound(mapWidth, mapHeight, i + 1, 0);
      i := i + 1;
    }
    QuadsBeforeBound(mapWidth, mapHeight, mapHeight, 0);
    FlatIsRowMajor(mapWidth, mapHeight, 0);
    assert vertexIndex == meshData.vertices.Length;
  }

  /** One pass of the inner loop: visits the cells of row `i`, starting at
      flat index `vertexIndex`, and returns the index after the row. */
  method FillRow(meshData: MeshData, heightMap: array2<real>, heightMultiplier: real, heightCurve: real -> real,
                 i: nat, vertexIndex: nat)
    returns (next: nat)
    requires heightMap.Length0 >= 1 && i < heightMap.Length1
    requires meshData.vertices.Length == heightMap.Length0 * heightMap.Length1
    requires meshData.uvs.Length == heightMap.Length0 * heightMap.Length1
    requires meshData.triangles.Length == TriangleSlots(heightMap.Length0, heightMap.Length1)
    requires vertexIndex == Flat(heightMap.Length0, i, 0) && vertexIndex <= heightMap.Length0 * heightMap.Length1
    requires meshData.triangleIndex == QuadsBefore(heightMap.Length0, heightMap.Length1, i, 0) * 6
    requires meshData.triangleIndex <= meshData.triangles.Length
    requires VerticesUpTo(meshData, heightMap, heightMultiplier, heightCurve, vertexIndex)
    requires TrianglesUpTo(meshData, heightMap.Length0, meshData.triangleIndex)
    modifies meshData`triangleIndex, meshData.vertices, meshData.uvs, meshData.triangles
    ensures next == Flat(heightMap.Length0, i + 1, 0) && next <= heightMap.Length0 * heightMap.Length1
    ensures meshData.triangleIndex == QuadsBefore(heightMap.Length0, heightMap.Length1, i + 1, 0) * 6
    ensures meshData.triangleIndex <= meshData.triangles.Length
    ensures VerticesUpTo(meshData, heightMap, heightMultiplier, heightCurve, next)
    ensures TrianglesUpTo(meshData, heightMap.Length0, meshData.triangleIndex)
  {
    var mapWidth := heightMap.Length0;
    var mapHeight := heightMap.Length1;
    next := vertexIndex;
    var j := 0;
    while j < mapWidth
      invariant 0 <= j <= mapWidth
      invariant next == Flat(mapWidth, i, j) && next <= mapWidth * mapHeight
      invariant meshData.triangleIndex == QuadsBefore(mapWidth, mapHeight, i, j) * 6
      invariant meshData.triangleIndex <= meshData.triangles.Length
      invariant VerticesUpTo(meshData, heightMap, heightMultiplier, heightCurve, next)
      invariant TrianglesUpTo(meshData, mapWidth, meshData.triangleIndex)
    {
      VisitCell(meshData, heightMap, heightMultiplier, heightCurve, i, j, next);
      FlatNextCol(mapWidth, i, j);
      next := next + 1;
      j := j + 1;
    }
    NextRowStart(mapWidth, i);
    RowStartInRange(mapWidth, mapHeight, i + 1);
    QuadsBeforeNextRow(mapWidth, mapHeight, i);
  }

  /** The body of the inner loop: places the vertex and texture coordinate of
      cell (`i`, `j`) at flat index `vertexIndex` and, unless the cell is on
      the last row or column, emits the quad whose top-left corner it is. */
  method VisitCell(meshData: MeshData, heightMap: array2<real>, heightMultiplier: real, heightCurve: real -> real,
                   i: nat, j: nat, vertexIndex: nat)
    requires j < heightMap.Length0 && i < heightMap.Length1
    requires meshData.vertices.Length == heightMap.Length0 * heightMap.Length1
    requires meshData.uvs.Length == heightMap.Length0 * heightMap.Length1
    requires meshData.triangles.Length == TriangleSlots(heightMap.Length0, heightMap.Length1)
    requires vertexIndex == Flat(heightMap.Length0, i, j)
    requires meshData.triangleIndex == QuadsBefore(heightMap.Length0, heightMap.Length1, i, j) * 6
    requires meshData.triangleIndex <= meshData.triangles.Length
    requires vertexIndex <= heightMap.Length0 * heightMap.Length1
    requires VerticesUpTo(meshData, heightMap, heightMultiplier, heightCurve, vertexIndex)
    requires TrianglesUpTo(meshData, heightMap.Length0, meshData.triangleIndex)
    modifies meshData`triangleIndex, meshData.vertices, meshData.uvs, meshData.triangles
    ensures vertexIndex < heightMap.Length0 * heightMap.Length1
    ensures meshData.triangleIndex == QuadsBefore(heightMap.Length0, heightMap.Length1, i, j + 1) * 6
    ensures meshData.triangleIndex <= meshData.triangles.Length
    ensures VerticesUpTo(meshData, heightMap, heightMultiplier, heightCurve, vertexIndex + 1)
    ensures TrianglesUpTo(meshData, heightMap.Length0, meshData.triangleIndex)
  {
    var mapWidth := heightMap.Length0;
    var mapHeight := heightMap.Length1;
    UnflatFlat(mapWidth, i, j);
    FlatInRange(mapWidth, mapHeight, i, j);
    QuadsBeforeStep(mapWidth, mapHeight, i, j);
    QuadsBeforeBound(mapWidth, mapHeight, i, j);
    QuadsBeforeBound(mapWidth, mapHeight, i, j + 1);
    meshData.vertices[vertexIndex] := VertexAt(heightMap, heightMultiplier, heightCurve, i, j);
    meshData.uvs[vertexIndex] := UvAt(mapWidth, mapHeight, i, j);
    assert VerticesUpTo(meshData, heightMap, heightMultiplier, heightCurve, vertexIndex + 1);

    if j < mapWidth - 1 && i < mapHeight - 1 {
      EmitQuad(meshData, mapWidth, mapHeight, i, j, vertexIndex);
    }
  }

  /** The body of the `if` that emits the two triangles of quad (`i`, `j`)
      whose top-left vertex is `vertexIndex`. */
  method EmitQuad(meshData: MeshData, mapWidth: nat, mapHeight: nat, i: nat, j: nat, vertexIndex: nat)
    requires mapWidth >= 2 && mapHeight >= 2 && j < mapWidth - 1 && i < mapHeight - 1
    requires vertexIndex == Flat(mapWidth, i, j)
    requires meshData.triangles.Length == TriangleSlots(mapWidth, mapHeight)
    requires meshData.triangleIndex == QuadOffset(mapWidth, i, j)
    requires meshData.triangleIndex + 6 <= meshData.triangles.Length
    requires TrianglesUpTo(meshData, mapWidth, meshData.triangleIndex)
    modifies meshData`triangleIndex, meshData.triangles
    ensures meshData.triangleIndex == old(meshData.triangleIndex) + 6
    ensures TrianglesUpTo(meshData, mapWidth, meshData.triangleIndex)
  {
    ghost var start := meshData.triangleIndex;
    meshData.AddTriangle(vertexIndex, vertexIndex + mapWidth + 1, vertexIndex + mapWidth);
    meshData.AddTriangle(vertexIndex + mapWidth + 1, vertexIndex, vertexIndex + 1);
    forall k | start <= k < start + 6
      ensures meshData.triangles[k] == TriangleAt(mapWidth, k)
    {
      QuadAtOffset(mapWidth, i, j, k - start);
    }
  }
}
