/** OpenGLTriangleList: the vertex and index buffers of a terrain grid of
    `width` by `depth` points. Each vertex is identified by the grid point
    (x, z) it is initialised from; its position is computed from the
    terrain's height map in floating point and is not modelled. */
module TriangleList {
  import opened Common

  datatype GridVertex = GridVertex(x: int, z: int)

  /** The six indices one grid cell emits: bottom-left, top-left, top-right,
      then bottom-left, top-right, bottom-right. */
  function Quad(width: int, z: int, x: int): seq<int>
  {
    var bottomLeft := z * width + x;
    var topLeft := (z + 1) * width + x;
    var topRight := (z + 1) * width + x + 1;
    var bottomRight := z * width + x + 1;
    [bottomLeft, topLeft, topRight, bottomLeft, topRight, bottomRight]
  }

  /** The cells x = 0 .. n-1 of row z. */
  function RowQuads(width: int, z: int, n: nat): seq<int>
  {
    if n == 0 then [] else RowQuads(width, z, n - 1) + Quad(width, z, n - 1)
  }

  /** The rows z = 0 .. m-1, each with `width - 1` cells (so `width` is at
      least 1, as for `GridIndices`). */
  function Rows(width: nat, m: nat): seq<int>
    requires width >= 1
  {
    if m == 0 then [] else Rows(width, m - 1) + RowQuads(width, m - 1, width - 1)
  }

  /** The full index buffer of a `width` by `depth` grid. A grid needs at
      least one vertex each way: with a zero side, the quad count
      `(width - 1) * (depth - 1)` that `populateBuffers` sizes the index
      vector by is negative, or counts quads that have no vertices, so such
      grids are outside the model. */
  function GridIndices(width: nat, depth: nat): seq<int>
    requires width >= 1 && depth >= 1
  {
    Rows(width, depth - 1)
  }

  /** The vertices z = 0 .. m-1, each row x = 0 .. width-1. */
  function GridRows(width: nat, m: nat): seq<GridVertex>
  {
    if m == 0 then [] else GridRows(width, m - 1) + GridRow(width, m - 1, width)
  }

  function GridRow(width: nat, z: int, n: nat): seq<GridVertex>
  {
    if n == 0 then [] else GridRow(width, z, n - 1) + [GridVertex(n - 1, z)]
  }

  /** OpenGLTriangleList::render: the number of elements it draws. */
  function RenderElementCount(width: int, depth: int): int
  {
    (depth - 1) * (width - 1) * 6
  }

  lemma {:induction false} RowQuadsLength(width: int, z: int, n: nat)
    ensures |RowQuads(width, z, n)| == 6 * n
  {
    if n > 0 {
      RowQuadsLength(width, z, n - 1);
    }
  }

  lemma {:induction false} RowsLength(width: nat, m: nat)
    requires width >= 1
    ensures |Rows(width, m)| == 6 * (m * (width - 1))
  {
    if m > 0 {
      RowsLength(width, m - 1);
      RowQuadsLength(width, m - 1, width - 1);
      MulSucc(m - 1, width - 1);
    }
  }

  /** `render` draws exactly as many elements as `initIndices` fills. */
  lemma GridIndicesLength(width: nat, depth: nat)
    requires width >= 1 && depth >= 1
    ensures |GridIndices(width, depth)| == RenderElementCount(width, depth)
  {
    RowsLength(width, depth - 1);
    assert (depth - 1) * (width - 1) * 6 == 6 * ((depth - 1) * (width - 1));
  }

  lemma {:induction false} RowQuadsBounded(width: nat, z: nat, n: nat)
    requires n <= width - 1
    ensures forall i :: 0 <= i < |RowQuads(width, z, n)| ==>
      0 <= RowQuads(width, z, n)[i] < (z + 2) * width
  {
    if n > 0 {
      RowQuadsBounded(width, z, n - 1);
      var q := Quad(width, z, n - 1);
      MulSucc(z + 1, width);
      MulSucc(z, width);
      assert forall i :: 0 <= i < 6 ==> 0 <= q[i] < (z + 2) * width;
    }
  }

  lemma {:induction false} RowsBounded(width: nat, m: nat)
    requires width >= 1
    ensures forall i :: 0 <= i < |Rows(width, m)| ==> 0 <= Rows(width, m)[i] < (m + 1) * width
  {
    if m > 0 {
      RowsBounded(width, m - 1);
      RowQuadsBounded(width, m - 1, width - 1);
      MulSucc(m, width);
    }
  }

  /** Every index refers to a vertex of the grid. */
  lemma GridIndicesBounded(width: nat, depth: nat)
    requires width >= 1 && depth >= 1
    ensures forall i :: 0 <= i < |GridIndices(width, depth)| ==>
      0 <= GridIndices(width, depth)[i] < width * depth
  {
    RowsBounded(width, depth - 1);
  }

  lemma {:induction false} RowQuadsAt(width: int, z: int, n: nat, x: nat, k: nat)
    requires x < n && k < 6
    ensures |RowQuads(width, z, n)| == 6 * n
    ensures RowQuads(width, z, n)[6 * x + k] == Quad(width, z, x)[k]
  {
    RowQuadsLength(width, z, n);
    RowQuadsLength(width, z, n - 1);
    if x < n - 1 {
      RowQuadsAt(width, z, n - 1, x, k);
    }
  }

  lemma {:induction false} RowsAt(width: nat, m: nat, z: nat, x: nat, k: nat)
    requires width >= 1 && z < m && x < width - 1 && k < 6
    ensures |Rows(width, m)| == 6 * (m * (width - 1))
    ensures 6 * (z * (width - 1) + x) + k < |Rows(width, m)|
    ensures Rows(width, m)[6 * (z * (width - 1) + x) + k] == Quad(width, z, x)[k]
  {
    RowsLength(width, m);
    RowsLength(width, m - 1);
    MulSucc(m - 1, width - 1);
    MulSucc(z, width - 1);
    MulMono(z + 1, m, width - 1);
    if z < m - 1 {
      RowsAt(width, m - 1, z, x, k);
    } else {
      RowQuadsAt(width, z, width - 1, x, k);
    }
  }

  /** Cell (x, z) occupies entries 6·(z·(width-1)+x) .. +5 of the buffer,
      holding bottom-left, top-left, top-right, bottom-left, top-right,
      bottom-right. */
  lemma CellLayout(width: nat, depth: nat, z: nat, x: nat, k: nat)
    requires width >= 1 && depth >= 1 && z < depth - 1 && x < width - 1 && k < 6
    ensures 6 * (z * (width - 1) + x) + k < |GridIndices(width, depth)|
    ensures GridIndices(width, depth)[6 * (z * (width - 1) + x) + k] == Quad(width, z, x)[k]
  {
    RowsAt(width, depth - 1, z, x, k);
  }

  lemma {:induction false} GridRowLength(width: nat, z: int, n: nat)
    ensures |GridRow(width, z, n)| == n
  {
    if n > 0 {
      GridRowLength(width, z, n - 1);
    }
  }

  lemma {:induction false} GridRowsLength(width: nat, m: nat)
    ensures |GridRows(width, m)| == m * width
  {
    if m > 0 {
      GridRowsLength(width, m - 1);
      GridRowLength(width, m - 1, width);
      MulSucc(m - 1, width);
    }
  }

  lemma {:induction false} GridRowAt(width: nat, z: int, n: nat, x: nat)
    requires x < n
    ensures |GridRow(width, z, n)| == n && GridRow(width, z, n)[x] == GridVertex(x, z)
  {
    GridRowLength(width, z, n);
    GridRowLength(width, z, n - 1);
    if x < n - 1 {
      GridRowAt(width, z, n - 1, x);
    }
  }

  /** Vertex z·width + x of the buffer is grid point (x, z): the buffer is
      filled in z-major order. */
  lemma {:induction false} GridRowsAt(width: nat, m: nat, z: nat, x: nat)
    requires z < m && x < width
    ensures |GridRows(width, m)| == m * width
    ensures z * width + x < m * width
    ensures GridRows(width, m)[z * width + x] == GridVertex(x, z)
  {
    GridRowsLength(width, m);
    GridRowsLength(width, m - 1);
    MulSucc(m - 1, width);
    MulSucc(z, width);
    MulMono(z + 1, m, width);
    if z < m - 1 {
      GridRowsAt(width, m - 1, z, x);
    } else {
      GridRowAt(width, z, width, x);
    }
  }

  /** OpenGLTriangleList::initVertices: one vertex per grid point, written
      through a running index, row by row. */
  method InitVertices(width: nat, depth: nat, vertices: array<GridVertex>)
    requires vertices.Length == depth * width
    modifies vertices
    ensures vertices[..] == GridRows(width, depth)
  {
    var index := 0;
    var z := 0;
    while z < depth
      invariant 0 <= z <= depth
      invariant index == z * width
      invariant vertices[..index] == GridRows(width, z)
    {
      var x := 0;
      MulSucc(z, width);
      MulMono(z + 1, depth, width);
      GridRowLength(width, z, 0);
      while x < width
        invariant 0 <= x <= width
        invariant index == z * width + x
        invariant vertices[..index] == GridRows(width, z) + GridRow(width, z, x)
      {
        vertices[index] := GridVertex(x, z);
        index := index + 1;
        x := x + 1;
        assert vertices[..index] == vertices[..index - 1] + [GridVertex(x - 1, z)];
      }
      z := z + 1;
    }
    assert vertices[..] == vertices[..index];
  }

  /** OpenGLTriangleList::initIndices: six indices per cell, written through
      a running index into a buffer pre-sized to the cell count; the final
      assertion of the source (the index has reached the buffer's size)
      holds. */
  method InitIndices(width: nat, depth: nat, indices: array<int>)
    requires width >= 1 && depth >= 1
    requires indices.Length == 6 * ((depth - 1) * (width - 1))
    modifies indices
    ensures indices[..] == GridIndices(width, depth)
  {
    var index := 0;
    var z := 0;
    while z < depth - 1
      invariant 0 <= z <= depth - 1
      invariant index == 6 * (z * (width - 1))
      invariant indices[..index] == Rows(width, z)
    {
      ghost var rowLength := width - 1;
      MulSucc(z, rowLength);
      MulMono(z + 1, depth - 1, rowLength);
      assert index + 6 * rowLength <= indices.Length;
      index := InitRow(width, z, indices, index);
      assert indices[..index] == Rows(width, z + 1);
      z := z + 1;
    }
    assert indices[..] == indices[..index];
  }

  /** The inner loop of `initIndices`: the cells of row z. */
  method InitRow(width: nat, z: nat, indices: array<int>, start: nat) returns (index: nat)
    requires width >= 1 && start + 6 * (width - 1) <= indices.Length
    modifies indices
    ensures index == start + 6 * (width - 1)
    ensures indices[..index] == old(indices[..start]) + RowQuads(width, z, width - 1)
  {
    index := start;
    var x := 0;
    while x < width - 1
      invariant 0 <= x <= width - 1
      invariant index == start + 6 * x
      invariant indices[..index] == old(indices[..start]) + RowQuads(width, z, x)
    {
      var bottomLeft := z * width + x;
      var topLeft := (z + 1) * width + x;
      var topRight := (z + 1) * width + x + 1;
      var bottomRight := z * width + x + 1;
      indices[index] := bottomLeft;
      indices[index + 1] := topLeft;
      indices[index + 2] := topRight;
      indices[index + 3] := bottomLeft;
      indices[index + 4] := topRight;
      indices[index + 5] := bottomRight;
      assert indices[..index + 6] == indices[..index] + Quad(width, z, x);
      index := index + 6;
      x := x + 1;
    }
  }

  /** OpenGLTriangleList::populateBuffers: size both buffers, then fill them. */
  method PopulateBuffers(width: nat, depth: nat) returns (vertices: array<GridVertex>, indices: array<int>)
    requires width >= 1 && depth >= 1
    ensures vertices[..] == GridRows(width, depth) && |vertices[..]| == width * depth
    ensures indices[..] == GridIndices(width, depth) && indices.Length == RenderElementCount(width, depth)
  {
    vertices := new GridVertex[width * depth](_ => GridVertex(0, 0));
    var numQuads := (width - 1) * (depth - 1);
    indices := new int[numQuads * 6];
    GridRowsLength(width, depth);
    GridIndicesLength(width, depth);
    InitVertices(width, depth, vertices);
    InitIndices(width, depth, indices);
  }
}
