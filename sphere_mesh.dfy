/** OpenGLSphereMesh: a UV sphere of `xSegments` by `ySegments` cells. Each
    vertex is identified by its grid point (x, y); the trigonometry that
    places it on the sphere is not modelled. */
module SphereMesh {
  import opened Common
  import opened MeshData

  datatype SphereVertex = SphereVertex(x: int, y: int, bones: BoneSlots)

  /** The grid points of rows y = 0 .. m-1, each with x = 0 .. xSegments. */
  function Points(xSegments: nat, m: nat): seq<(int, int)>
  {
    if m == 0 then [] else Points(xSegments, m - 1) + PointRow(m - 1, xSegments + 1)
  }

  function PointRow(y: int, n: nat): seq<(int, int)>
  {
    if n == 0 then [] else PointRow(y, n - 1) + [(n - 1, y)]
  }

  /** The six indices of cell (x, y): two triangles over the rows y and y+1. */
  function Cell(xSegments: nat, y: int, x: int): seq<int>
  {
    var w := xSegments + 1;
    [(y + 1) * w + x, y * w + x, y * w + x + 1, (y + 1) * w + x, y * w + x + 1, (y + 1) * w + x + 1]
  }

  function CellRow(xSegments: nat, y: int, n: nat): seq<int>
  {
    if n == 0 then [] else CellRow(xSegments, y, n - 1) + Cell(xSegments, y, n - 1)
  }

  /** The index list of rows y = 0 .. m-1. */
  function Cells(xSegments: nat, m: nat): seq<int>
  {
    if m == 0 then [] else Cells(xSegments, m - 1) + CellRow(xSegments, m - 1, xSegments)
  }

  lemma {:induction false} PointRowLength(y: int, n: nat)
    ensures |PointRow(y, n)| == n
  {
    if n > 0 {
      PointRowLength(y, n - 1);
    }
  }

  /** One vertex per grid point: (xSegments+1)·(ySegments+1) of them. */
  lemma {:induction false} PointsLength(xSegments: nat, m: nat)
    ensures |Points(xSegments, m)| == m * (xSegments + 1)
  {
    if m > 0 {
      PointsLength(xSegments, m - 1);
      PointRowLength(m - 1, xSegments + 1);
      MulSucc(m - 1, xSegments + 1);
    }
  }

  lemma {:induction false} CellRowLength(xSegments: nat, y: int, n: nat)
    ensures |CellRow(xSegments, y, n)| == 6 * n
  {
    if n > 0 {
      CellRowLength(xSegments, y, n - 1);
    }
  }

  /** Exactly 6·xSegments·ySegments indices. */
  lemma {:induction false} CellsLength(xSegments: nat, m: nat)
    ensures |Cells(xSegments, m)| == 6 * (m * xSegments)
  {
    if m > 0 {
      CellsLength(xSegments, m - 1);
      CellRowLength(xSegments, m - 1, xSegments);
      MulSucc(m - 1, xSegments);
    }
  }

  lemma {:induction false} CellRowBounded(xSegments: nat, y: nat, n: nat)
    requires n <= xSegments
    ensures forall i :: 0 <= i < |CellRow(xSegments, y, n)| ==>
      0 <= CellRow(xSegments, y, n)[i] < (y + 2) * (xSegments + 1)
  {
    if n > 0 {
      CellRowBounded(xSegments, y, n - 1);
      MulSucc(y, xSegments + 1);
      MulSucc(y + 1, xSegments + 1);
      var c := Cell(xSegments, y, n - 1);
      assert forall i :: 0 <= i < 6 ==> 0 <= c[i] < (y + 2) * (xSegments + 1);
    }
  }

  /** Every index names one of the (xSegments+1)·(m+1) vertices. */
  lemma {:induction false} CellsBounded(xSegments: nat, m: nat)
    ensures forall i :: 0 <= i < |Cells(xSegments, m)| ==>
      0 <= Cells(xSegments, m)[i] < (m + 1) * (xSegments + 1)
  {
    if m > 0 {
      CellsBounded(xSegments, m - 1);
      CellRowBounded(xSegments, m - 1, xSegments);
      MulSucc(m, xSegments + 1);
    }
  }

  /** The OpenGLSphereMesh constructor: grid points row by row, one vertex
      per point with every bone slot free, then six indices per cell. */
  method Build(xSegments: nat, ySegments: nat) returns (vertices: seq<SphereVertex>, indices: seq<int>)
    ensures |vertices| == (ySegments + 1) * (xSegments + 1) == |Points(xSegments, ySegments + 1)|
    ensures forall i :: 0 <= i < |vertices| ==>
      (vertices[i].x, vertices[i].y) == Points(xSegments, ySegments + 1)[i] && AllFree(vertices[i].bones)
    ensures indices == Cells(xSegments, ySegments)
    ensures |indices| == 6 * (ySegments * xSegments)
    ensures forall i :: 0 <= i < |indices| ==> 0 <= indices[i] < |vertices|
  {
    var positions := GridPositions(xSegments, ySegments);
    PointsLength(xSegments, ySegments + 1);
    vertices := VerticesAt(positions);
    indices := CellIndices(xSegments, ySegments);
    CellsLength(xSegments, ySegments);
    CellsBounded(xSegments, ySegments);
  }

  /** The first loop nest: the grid points, row by row. */
  method GridPositions(xSegments: nat, ySegments: nat) returns (positions: seq<(int, int)>)
    ensures positions == Points(xSegments, ySegments + 1)
  {
    positions := [];
    var y := 0;
    while y <= ySegments
      invariant 0 <= y <= ySegments + 1
      invariant positions == Points(xSegments, y)
    {
      var x := 0;
      var row: seq<(int, int)> := [];
      while x <= xSegments
        invariant 0 <= x <= xSegments + 1
        invariant row == PointRow(y, x)
      {
        row := row + [(x, y)];
        x := x + 1;
      }
      positions := positions + row;
      y := y + 1;
    }
  }

  /** The second loop: one vertex per position, with every bone slot free. */
  method VerticesAt(positions: seq<(int, int)>) returns (vertices: seq<SphereVertex>)
    ensures |vertices| == |positions|
    ensures forall k :: 0 <= k < |vertices| ==>
      (vertices[k].x, vertices[k].y) == positions[k] && AllFree(vertices[k].bones)
  {
    vertices := [];
    var i := 0;
    while i < |positions|
      invariant 0 <= i <= |positions|
      invariant |vertices| == i
      invariant forall k :: 0 <= k < i ==>
        (vertices[k].x, vertices[k].y) == positions[k] && AllFree(vertices[k].bones)
    {
      var slots := ClearBoneSlots();
      vertices := vertices + [SphereVertex(positions[i].0, positions[i].1, slots)];
      i := i + 1;
    }
  }

  /** The third loop nest: six indices per cell, row by row. */
  method CellIndices(xSegments: nat, ySegments: nat) returns (indices: seq<int>)
    ensures indices == Cells(xSegments, ySegments)
  {
    indices := [];
    var y := 0;
    while y < ySegments
      invariant 0 <= y <= ySegments
      invariant indices == Cells(xSegments, y)
    {
      var x := 0;
      var row: seq<int> := [];
      while x < xSegments
        invariant 0 <= x <= xSegments
        invariant row == CellRow(xSegments, y, x)
      {
        var w := xSegments + 1;
        row := row + [(y + 1) * w + x, y * w + x, y * w + x + 1];
        row := row + [(y + 1) * w + x, y * w + x + 1, (y + 1) * w + x + 1];
        x := x + 1;
      }
      indices := indices + row;
      y := y + 1;
    }
  }
}
