/**
  The flat buffers the builder appends to: three coordinates per vertex in
  `vertices`, three vertex indices per triangle in `indices`. The predicates
  say that a buffer holds exactly the first `count` vertices (triangles) of
  the mesh in emission order; the append lemmas are the step every loop of
  the builder takes, and BufferSound says what a complete index buffer
  guarantees to the renderer.
*/
module MeshBuffers {
  import opened Lattice
  import opened CubeVertices
  import opened CubeTriangles
  import opened MeshProperties

  /** The three coordinates add_vertex pushes for a point. */
  function Coords(p: Point): seq<int> { [p.x, p.y, p.z] }

  /** The three indices add_triangle pushes for a triangle. */
  function Corners(t: Tri): seq<int> { [t.a, t.b, t.c] }

  /** Vertex v of a flat coordinate buffer. */
  function VertexAt(vs: seq<int>, v: int): Point
    requires 0 <= v && 3 * v + 2 < |vs|
  {
    Point(vs[3 * v], vs[3 * v + 1], vs[3 * v + 2])
  }

  /** Triangle t of a flat index buffer. */
  function TriangleAt(ix: seq<int>, t: int): Tri
    requires 0 <= t && 3 * t + 2 < |ix|
  {
    Tri(ix[3 * t], ix[3 * t + 1], ix[3 * t + 2])
  }

  /** vs holds exactly the first `count` vertices of the mesh at resolution n. */
  predicate VerticesUpTo(vs: seq<int>, n: int, count: int)
    requires n >= 1
  {
    && 0 <= count <= TotalVerts(n)
    && |vs| == 3 * count
    && forall v :: 0 <= v < count ==> VertexAt(vs, v) == VertexPos(n, v)
  }

  /** ix holds exactly the first `count` triangles of the mesh at resolution n. */
  predicate TrianglesUpTo(ix: seq<int>, n: int, count: int)
    requires n >= 1
  {
    && 0 <= count <= TriCount(n)
    && |ix| == 3 * count
    && forall t :: 0 <= t < count ==> TriangleAt(ix, t) == MeshTri(n, t)
  }

  /** Pushing the coordinates of the next vertex extends the prefix by one. */
  lemma AppendVertex(vs: seq<int>, n: int, count: int, p: Point)
    requires n >= 1 && VerticesUpTo(vs, n, count)
    requires count < TotalVerts(n) && p == VertexPos(n, count)
    ensures VerticesUpTo(vs + Coords(p), n, count + 1)
  {
    var ws := vs + Coords(p);
    forall v | 0 <= v < count + 1
      ensures VertexAt(ws, v) == VertexPos(n, v)
    {
      if v < count {
        assert VertexAt(ws, v) == VertexAt(vs, v);
      } else {
        assert VertexAt(ws, v) == p;
      }
    }
  }

  /** Pushing the belt vertex at ring y, offset off when it is the next one due extends the prefix by one. */
  lemma AppendRingVertex(vs: seq<int>, n: int, y: int, off: int, count: int)
    requires n >= 1 && 0 <= y <= n && 0 <= off < Perimeter(n) && count == y * Perimeter(n) + off
    requires VerticesUpTo(vs, n, count)
    ensures VerticesUpTo(vs + Coords(RingPoint(n, y, off)), n, count + 1)
  {
    BeltVertexPos(n, y, off);
    BlocksInOrder(n);
    AppendVertex(vs, n, count, RingPoint(n, y, off));
  }

  /** Pushing the corners of the next triangle extends the prefix by one. */
  lemma AppendTriangle(ix: seq<int>, n: int, count: int, t: Tri)
    requires n >= 1 && TrianglesUpTo(ix, n, count)
    requires count < TriCount(n) && t == MeshTri(n, count)
    ensures TrianglesUpTo(ix + Corners(t), n, count + 1)
  {
    var js := ix + Corners(t);
    forall u | 0 <= u < count + 1
      ensures TriangleAt(js, u) == MeshTri(n, u)
    {
      if u < count {
        assert TriangleAt(js, u) == TriangleAt(ix, u);
      } else {
        assert TriangleAt(js, u) == t;
      }
    }
  }

  /** Pushing the next two triangles, one after the other, extends the prefix by two. */
  lemma AppendPair(ix: seq<int>, n: int, count: int, t1: Tri, t2: Tri)
    requires n >= 1 && TrianglesUpTo(ix, n, count)
    requires 0 <= count && count + 1 < TriCount(n) && t1 == MeshTri(n, count) && t2 == MeshTri(n, count + 1)
    ensures TrianglesUpTo(ix + Corners(t1), n, count + 1)
    ensures TrianglesUpTo(ix + Corners(t1) + Corners(t2), n, count + 2)
  {
    AppendTriangle(ix, n, count, t1);
    AppendTriangle(ix + Corners(t1), n, count + 1, t2);
  }

  /** A complete vertex buffer lists every surface lattice point exactly once. */
  lemma VertexBufferBijective(vs: seq<int>, n: int)
    requires n >= 1 && VerticesUpTo(vs, n, TotalVerts(n))
    ensures forall v :: 0 <= v < TotalVerts(n) ==> OnSurface(n, VertexAt(vs, v))
    ensures forall v, w :: 0 <= v < w < TotalVerts(n) ==> VertexAt(vs, v) != VertexAt(vs, w)
    ensures forall p :: OnSurface(n, p) ==> 0 <= IndexOf(n, p) < TotalVerts(n) && VertexAt(vs, IndexOf(n, p)) == p
  {
    forall v | 0 <= v < TotalVerts(n)
      ensures OnSurface(n, VertexAt(vs, v))
    {
      PosIndex(n, v);
    }
    forall v, w | 0 <= v < w < TotalVerts(n)
      ensures VertexAt(vs, v) != VertexAt(vs, w)
    {
      VertexPosInjective(n, v, w);
    }
    forall p | OnSurface(n, p)
      ensures 0 <= IndexOf(n, p) < TotalVerts(n) && VertexAt(vs, IndexOf(n, p)) == p
    {
      IndexPos(n, p);
    }
  }

  /** Each triangle of a complete index buffer has three distinct existing corners wound to face outward. */
  lemma BufferSound(ix: seq<int>, n: int)
    requires n >= 1 && TrianglesUpTo(ix, n, TriCount(n))
    ensures forall t :: 0 <= t < TriCount(n) ==>
      TriWellFormed(n, TriangleAt(ix, t)) && TriOutward(n, TriangleAt(ix, t))
  {
    forall t | 0 <= t < TriCount(n)
      ensures TriWellFormed(n, TriangleAt(ix, t)) && TriOutward(n, TriangleAt(ix, t))
    {
      TriangleSound(n, t);
    }
  }

  /** A complete index buffer holds 36 n^2 entries, and every one of them names an existing vertex. */
  lemma BufferInRange(ix: seq<int>, n: int)
    requires n >= 1 && TrianglesUpTo(ix, n, TriCount(n))
    ensures |ix| == 36 * n * n
    ensures forall k :: 0 <= k < |ix| ==> 0 <= ix[k] < TotalVerts(n)
  {
    TriCountLaw(n);
    forall k | 0 <= k < |ix|
      ensures 0 <= ix[k] < TotalVerts(n)
    {
      var t := k / 3;
      DivBelow(k, 3, TriCount(n));
      TriangleSound(n, t);
      assert TriangleAt(ix, t) == MeshTri(n, t);
      assert k == 3 * t || k == 3 * t + 1 || k == 3 * t + 2;
    }
  }
}
