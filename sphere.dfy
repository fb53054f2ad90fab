/**
  The Sphere object: a cube-sphere mesh at a resolution of `squaresPerRow`
  squares along each cube edge, with its model transform, colour and a flag
  for projecting the cube onto the sphere.

  Vertex positions are kept as cube lattice points (see Lattice): the real
  position of a vertex is side_length / 2 minus its lattice coordinates times
  the step side_length / squaresPerRow on each axis, with side_length
  = 2 * radius / sqrt(3). The builder's floating-point cursor is modelled as
  that lattice point.
*/
module SphereMesh {
  import opened Lattice
  import opened CubeVertices
  import opened CubeTriangles
  import opened MeshProperties
  import opened MeshBuffers
  import opened CapMaps
  import opened Matrices

  /** The default colour, mid grey. */
  function Grey(): Vec3 { Vec3(0.5, 0.5, 0.5) }

  /** The matrix is a uniform scale by a nonzero factor. */
  predicate IsUniformScale(m: Mat3) {
    m == Scale3(m.c0.x) && m.c0.x != 0.0
  }

  /**
    glm::inverse restricted to the matrices the model's upper-left block can
    be: uniform nonzero scales, whose inverse is the scale by the reciprocal.
  */
  function InverseOfScale(m: Mat3): (inv: Mat3)
    requires IsUniformScale(m)
    ensures Mul3(inv, m) == Identity3() && Mul3(m, inv) == Identity3()
    ensures IsUniformScale(inv)
  {
    ScaleInverse(m.c0.x);
    Scale3(1.0 / m.c0.x)
  }

  class Sphere {
    var position: Vec3
    var isProject: bool
    var radius: real
    var totalIndices: int
    var model: Mat4
    var tinvModel: Mat3
    var squaresPerRow: int
    var totalVerts: int
    var colour: Vec3
    var vertices: seq<int>
    var normals: seq<real>
    var indices: seq<int>

    /** The buffers hold the cube-sphere mesh at the current resolution, in emission order. */
    ghost predicate MeshBuilt()
      reads this`squaresPerRow, this`totalVerts, this`vertices, this`normals, this`indices, this`totalIndices
    {
      && squaresPerRow >= 1
      && totalVerts == TotalVerts(squaresPerRow)
      && VerticesUpTo(vertices, squaresPerRow, TotalVerts(squaresPerRow))
      && normals == []
      && TrianglesUpTo(indices, squaresPerRow, TriCount(squaresPerRow))
      && totalIndices == |indices|
    }

    /** The model scales uniformly, and tinvModel is the inverse transpose of its upper-left block. */
    ghost predicate TransformValid()
      reads this`model, this`tinvModel
    {
      IsUniformScale(Upper3(model)) && tinvModel == Transpose3(InverseOfScale(Upper3(model)))
    }

    ghost predicate Valid()
      reads this
    {
      MeshBuilt() && TransformValid()
    }

    /** Sphere(radius = 1, squaresPerRow = 2, project = true): sets the parameters, then builds the mesh. */
    constructor (radius: real := 1.0, squaresPerRow: int := 2, project: bool := true)
      requires squaresPerRow >= 1
      ensures Valid()
      ensures this.radius == radius && this.squaresPerRow == squaresPerRow && isProject == project
      ensures position == Vec3(0.0, 0.0, 0.0) && colour == Grey()
      ensures model == Identity4() && tinvModel == Identity3()
    {
      this.radius := radius;
      this.squaresPerRow := squaresPerRow;
      isProject := project;
      position := Vec3(0.0, 0.0, 0.0);
      totalIndices := 0;
      model := Identity4();
      tinvModel := Identity3();
      colour := Grey();
      vertices, normals, indices := [], [], [];
      var horiVerts := (squaresPerRow + 1) * squaresPerRow * 4;
      var coverVerts := (squaresPerRow - 1) * (squaresPerRow - 1) * 2;
      totalVerts := horiVerts + coverVerts;
      new;
      SetColour(colour);
      BuildVertices();
      ScaleInverse(1.0);
    }

    /** get_tinv: the matrix that carries normals, whose transpose inverts the model's upper-left block. */
    function GetTinv(): (m: Mat3)
      requires Valid()
      reads this
      ensures Mul3(Transpose3(m), Upper3(model)) == Identity3()
      ensures m == Scale3(1.0 / model.c0.x)
    {
      ScaleSymmetric(1.0 / model.c0.x);
      tinvModel
    }

    /**
      set_radius: writes the scale onto the model's diagonal and recomputes
      the inverse transpose. The radius field and the mesh stay as they were.
    */
    method SetRadius(radius: real)
      requires Valid() && radius != 0.0
      modifies this`model, this`tinvModel
      ensures Valid()
      ensures model == WithScale(old(model), radius)
      ensures Upper3(model) == Scale3(radius)
      ensures Mul3(Transpose3(tinvModel), Upper3(model)) == Identity3()
      ensures this.radius == old(this.radius) && squaresPerRow == old(squaresPerRow)
      ensures vertices == old(vertices) && indices == old(indices)
    {
      model := WithScale(model, radius);
      tinvModel := Transpose3(InverseOfScale(Upper3(model)));
    }

    /** set_squares: changes the resolution, recounts the vertices and rebuilds the mesh. */
    method SetSquares(squaresPerRow: int)
      requires Valid() && squaresPerRow >= 1
      modifies this`squaresPerRow, this`totalVerts, this`vertices, this`normals, this`indices, this`totalIndices
      ensures Valid()
      ensures this.squaresPerRow == squaresPerRow
      ensures totalVerts == 4 * squaresPerRow * (squaresPerRow + 1) + 2 * (squaresPerRow - 1) * (squaresPerRow - 1)
      ensures |indices| == 36 * squaresPerRow * squaresPerRow
    {
      this.squaresPerRow := squaresPerRow;
      var horiVerts := (squaresPerRow + 1) * squaresPerRow * 4;
      var coverVerts := (squaresPerRow - 1) * (squaresPerRow - 1) * 2;
      totalVerts := horiVerts + coverVerts;
      BuildVertices();
      VertexCountLaw(squaresPerRow);
      BufferInRange(indices, squaresPerRow);
    }

    /** set_position: the model's last column becomes (position, 1); its scale is kept. */
    method SetPosition(position: Vec3)
      requires Valid()
      modifies this`model, this`position
      ensures Valid()
      ensures model == WithTranslation(old(model), position)
      ensures Upper3(model) == Upper3(old(model))
      ensures this.position == position
      ensures squaresPerRow == old(squaresPerRow) && vertices == old(vertices) && indices == old(indices)
    {
      model := WithTranslation(model, position);
      this.position := position;
    }

    /** set_colour: the flat tint; the mesh and the transform are untouched. */
    method SetColour(colour: Vec3)
      modifies this`colour
      ensures this.colour == colour
    {
      this.colour := colour;
    }

    /** project: the flag that picks the projecting shader; the mesh is untouched. */
    method Project(project: bool)
      modifies this`isProject
      ensures isProject == project
      ensures model == old(model) && vertices == old(vertices) && indices == old(indices)
    {
      isProject := project;
    }

    /** get_verts: the number of vertices, three coordinates each in the vertex buffer. */
    function GetVerts(): (v: int)
      requires Valid()
      reads this
      ensures v == TotalVerts(squaresPerRow) && |vertices| == 3 * v
    {
      totalVerts
    }

    /** get_project: whether the shader projects the cube onto the sphere. */
    function GetProject(): (p: bool)
      reads this
      ensures p == isProject
    {
      isProject
    }

    /** get_radius: the radius field, which SetRadius leaves at its constructor value. */
    function GetRadius(): (r: real)
      reads this
      ensures r == radius
    {
      radius
    }

    /** get_segments: the resolution, which fixes the size of both buffers. */
    function GetSegments(): (n: int)
      requires Valid()
      reads this
      ensures n >= 1
      ensures |vertices| == 3 * (4 * n * (n + 1) + 2 * (n - 1) * (n - 1))
      ensures |indices| == 36 * n * n
    {
      VertexCountLaw(squaresPerRow);
      BufferInRange(indices, squaresPerRow);
      squaresPerRow
    }

    /**
      build_vertices: empties the buffers, emits the belt rings and both cap
      interiors, then the lateral triangles and the triangles of each cap
      through its remap table.
    */
    method BuildVertices()
      requires squaresPerRow >= 1 && totalVerts == TotalVerts(squaresPerRow)
      modifies this`vertices, this`normals, this`indices, this`totalIndices
      ensures MeshBuilt()
    {
      ClearArrays();
      var n := squaresPerRow;
      EmitBelt(n);
      EmitCapInterior(n, FirstTop(n), 0);
      EmitCapInterior(n, FirstBottom(n), n);
      StitchBelt(n);
      var topMap := BuildTopMap(n);
      StitchTopCap(n, topMap);
      var btmMap := BuildBottomMap(n);
      StitchBottomCap(n, btmMap);
      totalIndices := |indices|;
    }

    /** The n + 1 rings, each walked from the (+, +, +) corner one edge at a time. */
    method EmitBelt(n: int)
      requires n >= 1 && vertices == []
      modifies this`vertices
      ensures VerticesUpTo(vertices, n, BeltVerts(n))
    {
      BlocksInOrder(n);
      var curPos := Point(0, 0, 0);
      ghost var count := 0;
      for y := 0 to n + 1
        invariant curPos == Point(0, y, 0)
        invariant count == y * Perimeter(n) && VerticesUpTo(vertices, n, count)
      {
        curPos := EmitRing(n, y, count, curPos);
        // move down
        curPos := curPos.(y := curPos.y + 1);
        MulSucc(y, Perimeter(n));
        count := count + Perimeter(n);
      }
      assert count == BeltVerts(n);
    }

    /** Ring y: the four edges of the cross-section, n points each, ending back at the start corner. */
    method EmitRing(n: int, y: int, ghost count: int, start: Point) returns (curPos: Point)
      requires n >= 1 && 0 <= y <= n && count == y * Perimeter(n)
      requires start == Point(0, y, 0) && VerticesUpTo(vertices, n, count)
      modifies this`vertices
      ensures curPos == start && VerticesUpTo(vertices, n, count + Perimeter(n))
    {
      curPos := EmitRingFront(n, y, count, start);
      curPos := EmitRingBack(n, y, count, curPos);
    }

    /** The first two sides of ring y: along lattice z at x = 0, then along lattice x at z = n. */
    method EmitRingFront(n: int, y: int, ghost count: int, start: Point) returns (curPos: Point)
      requires n >= 1 && 0 <= y <= n && count == y * Perimeter(n)
      requires start == Point(0, y, 0) && VerticesUpTo(vertices, n, count)
      modifies this`vertices
      ensures curPos == Point(n, y, n) && VerticesUpTo(vertices, n, count + 2 * n)
    {
      curPos := start;
      // real z decreases: lattice z counts up
      for p := 0 to n
        invariant curPos == Point(0, y, p) && VerticesUpTo(vertices, n, count + p)
      {
        AppendRingVertex(vertices, n, y, p, count + p);
        AddVertex(curPos);
        curPos := curPos.(z := curPos.z + 1);
      }
      // real x decreases
      for p := 0 to n
        invariant curPos == Point(p, y, n) && VerticesUpTo(vertices, n, count + n + p)
      {
        AppendRingVertex(vertices, n, y, n + p, count + n + p);
        AddVertex(curPos);
        curPos := curPos.(x := curPos.x + 1);
      }
    }

    /** The last two sides of ring y: along lattice z at x = n, then along lattice x at z = 0, back to the start. */
    method EmitRingBack(n: int, y: int, ghost count: int, start: Point) returns (curPos: Point)
      requires n >= 1 && 0 <= y <= n && count == y * Perimeter(n)
      requires start == Point(n, y, n) && VerticesUpTo(vertices, n, count + 2 * n)
      modifies this`vertices
      ensures curPos == Point(0, y, 0) && VerticesUpTo(vertices, n, count + Perimeter(n))
    {
      curPos := start;
      // real z increases
      for p := 0 to n
        invariant curPos == Point(n, y, n - p) && VerticesUpTo(vertices, n, count + 2 * n + p)
      {
        AppendRingVertex(vertices, n, y, 2 * n + p, count + 2 * n + p);
        AddVertex(curPos);
        curPos := curPos.(z := curPos.z - 1);
      }
      // real x increases, back to the start corner
      for p := 0 to n
        invariant curPos == Point(n - p, y, 0) && VerticesUpTo(vertices, n, count + 3 * n + p)
      {
        AppendRingVertex(vertices, n, y, 3 * n + p, count + 3 * n + p);
        AddVertex(curPos);
        curPos := curPos.(x := curPos.x - 1);
      }
    }

    /** The interior of the cap at lattice height y, row by row from one step inside the (+, +) corner. */
    method EmitCapInterior(n: int, first: int, y: int)
      requires n >= 1 && ((first, y) == (FirstTop(n), 0) || (first, y) == (FirstBottom(n), n))
      requires VerticesUpTo(vertices, n, first)
      modifies this`vertices
      ensures VerticesUpTo(vertices, n, first + CapVerts(n))
    {
      var curPos := Point(1, y, 1);
      ghost var count := first;
      for x := 0 to n - 1
        invariant curPos == Point(1 + x, y, 1)
        invariant count == first + x * (n - 1) && VerticesUpTo(vertices, n, count)
      {
        for j := 0 to n - 1
          invariant curPos == Point(1 + x, y, 1 + j) && VerticesUpTo(vertices, n, count + j)
        {
          CapVertexPos(n, first, y, x, j);
          AppendVertex(vertices, n, count + j, curPos);
          AddVertex(curPos);
          curPos := curPos.(z := curPos.z + 1);
        }
        curPos := curPos.(x := curPos.x + 1, z := 1);
        MulSucc(x, n - 1);
        count := count + (n - 1);
      }
    }

    /** The lateral quads, ring by ring, two triangles each, the last column wrapping to the first. */
    method StitchBelt(n: int)
      requires n >= 1 && indices == []
      modifies this`indices
      ensures TrianglesUpTo(indices, n, LateralTris(n))
    {
      var horiVerts := n * 4;
      ghost var count := 0;
      for i := 0 to n
        invariant count == i * horiVerts && TrianglesUpTo(indices, n, 2 * count)
      {
        StitchBeltRow(n, i, horiVerts, count);
        MulSucc(i, horiVerts);
        count := count + horiVerts;
      }
    }

    /** Row i of the belt: the quads between rings i and i + 1. */
    method StitchBeltRow(n: int, i: int, horiVerts: int, ghost count: int)
      requires n >= 1 && 0 <= i < n && horiVerts == Perimeter(n) && count == i * horiVerts
      requires TrianglesUpTo(indices, n, 2 * count)
      modifies this`indices
      ensures TrianglesUpTo(indices, n, 2 * (count + horiVerts))
    {
      var vOff := i * horiVerts;
      for j := 0 to horiVerts
        invariant TrianglesUpTo(indices, n, 2 * (count + j))
      {
        var i1 := j + vOff;
        var i2 := j + horiVerts + vOff;
        var i3 := (j + 1) % horiVerts + horiVerts + vOff;
        var i4 := (j + 1) % horiVerts + vOff;
        LateralTriAt(n, i, j);
        AppendPair(indices, n, 2 * (i * Perimeter(n) + j), Tri(i1, i2, i3), Tri(i1, i3, i4));
        AddTriangle(i1, i2, i3);
        AddTriangle(i1, i3, i4);
      }
    }

    /** The top cap's squares, row by row, each as two triangles through top_map. */
    method StitchTopCap(n: int, topMap: array<int>)
      requires n >= 1 && topMap.Length == GridCells(n)
      requires forall cell :: 0 <= cell < GridCells(n) ==> topMap[cell] == TopEntry(n, cell)
      requires TrianglesUpTo(indices, n, LateralTris(n))
      modifies this`indices
      ensures TrianglesUpTo(indices, n, LateralTris(n) + CapTris(n))
    {
      ghost var count := 0;
      for r := 0 to n
        invariant count == r * n && TrianglesUpTo(indices, n, LateralTris(n) + 2 * count)
      {
        StitchTopRow(n, topMap, r, count);
        MulSucc(r, n);
        count := count + n;
      }
    }

    /** Row r of the top cap's squares. */
    method StitchTopRow(n: int, topMap: array<int>, r: int, ghost count: int)
      requires n >= 1 && topMap.Length == GridCells(n) && 0 <= r < n && count == r * n
      requires forall cell :: 0 <= cell < GridCells(n) ==> topMap[cell] == TopEntry(n, cell)
      requires TrianglesUpTo(indices, n, LateralTris(n) + 2 * count)
      modifies this`indices
      ensures TrianglesUpTo(indices, n, LateralTris(n) + 2 * (count + n))
    {
      for i := 0 to n
        invariant TrianglesUpTo(indices, n, LateralTris(n) + 2 * (count + i))
      {
        var i1 := r * (n + 1) + i;
        TopTriCells(n, r, i, i1);
        var i2 := i1 + 1;
        var i3 := i1 + (n + 1);
        var i4 := i3 + 1;
        TopTriAt(n, r, i);
        AppendPair(indices, n, LateralTris(n) + 2 * (r * n + i),
          Tri(topMap[i1], topMap[i2], topMap[i3]), Tri(topMap[i2], topMap[i4], topMap[i3]));
        AddTriangle(topMap[i1], topMap[i2], topMap[i3]);
        AddTriangle(topMap[i2], topMap[i4], topMap[i3]);
      }
    }

    /** The bottom cap's squares, as the top's with each triangle listed in reverse. */
    method StitchBottomCap(n: int, btmMap: array<int>)
      requires n >= 1 && btmMap.Length == GridCells(n)
      requires forall cell :: 0 <= cell < GridCells(n) ==> btmMap[cell] == BottomEntry(n, cell)
      requires TrianglesUpTo(indices, n, LateralTris(n) + CapTris(n))
      modifies this`indices
      ensures TrianglesUpTo(indices, n, TriCount(n))
    {
      ghost var count := 0;
      for r := 0 to n
        invariant count == r * n && TrianglesUpTo(indices, n, LateralTris(n) + CapTris(n) + 2 * count)
      {
        StitchBottomRow(n, btmMap, r, count);
        MulSucc(r, n);
        count := count + n;
      }
    }

    /** Row r of the bottom cap's squares. */
    method StitchBottomRow(n: int, btmMap: array<int>, r: int, ghost count: int)
      requires n >= 1 && btmMap.Length == GridCells(n) && 0 <= r < n && count == r * n
      requires forall cell :: 0 <= cell < GridCells(n) ==> btmMap[cell] == BottomEntry(n, cell)
      requires TrianglesUpTo(indices, n, LateralTris(n) + CapTris(n) + 2 * count)
      modifies this`indices
      ensures TrianglesUpTo(indices, n, LateralTris(n) + CapTris(n) + 2 * (count + n))
    {
      var base := LateralTris(n) + CapTris(n);
      for i := 0 to n
        invariant TrianglesUpTo(indices, n, base + 2 * (count + i))
      {
        var i1 := r * (n + 1) + i;
        BottomTriCells(n, r, i, i1);
        var i2 := i1 + 1;
        var i3 := i1 + (n + 1);
        var i4 := i3 + 1;
        BottomTriAt(n, r, i);
        AppendPair(indices, n, LateralTris(n) + CapTris(n) + 2 * (r * n + i),
          Tri(btmMap[i3], btmMap[i2], btmMap[i1]), Tri(btmMap[i3], btmMap[i4], btmMap[i2]));
        AddTriangle(btmMap[i3], btmMap[i2], btmMap[i1]);
        AddTriangle(btmMap[i3], btmMap[i4], btmMap[i2]);
      }
    }

    /** add_vertex: pushes the point's three coordinates. */
    method AddVertex(point: Point)
      modifies this`vertices
      ensures vertices == old(vertices) + Coords(point)
    {
      vertices := vertices + [point.x, point.y, point.z];
    }

    /** add_triangle: pushes the three vertex indices. */
    method AddTriangle(i1: int, i2: int, i3: int)
      modifies this`indices
      ensures indices == old(indices) + Corners(Tri(i1, i2, i3))
    {
      indices := indices + [i1, i2, i3];
    }

    /** clear_arrays: empties the vertex, normal and index buffers. */
    method ClearArrays()
      modifies this`vertices, this`normals, this`indices
      ensures vertices == [] && normals == [] && indices == []
    {
      vertices, normals, indices := [], [], [];
    }
  }
}
