/**
  The vertex order of the cube-sphere mesh at resolution n (squares per row):

  1. n + 1 horizontal rings of 4n perimeter points, ring y at lattice height
     y. Each ring starts at the (+,+,+) corner and walks -z, -x, +z, +x,
     n points per edge.
  2. The (n - 1)^2 interior points of the top face (lattice y = 0), row by row:
     x one step further inward per row, z one step further inward per point.
  3. The same scan over the bottom face (lattice y = n).

  VertexPos gives the lattice point of every vertex index; IndexOf is its
  inverse on the cube's surface. The two round-trip lemmas make the vertex
  order a bijection between indices and surface lattice points: no point is
  emitted twice and none is missing.
*/
module CubeVertices {
  import opened Lattice

  /** Points on one ring (hori_verts in build_vertices). */
  function Perimeter(n: int): int { 4 * n }

  /** Vertices of all n + 1 rings (hori_verts in the constructor and set_squares). */
  function BeltVerts(n: int): int { (n + 1) * n * 4 }

  /** Interior points of one cap. */
  function CapVerts(n: int): int { (n - 1) * (n - 1) }

  /** total_verts: belt plus both cap interiors (cover_verts). */
  function TotalVerts(n: int): int { BeltVerts(n) + CapVerts(n) * 2 }

  /** Index of the first top-cap interior vertex (first_top_index). */
  function FirstTop(n: int): int { BeltVerts(n) }

  /** Index of the first bottom-cap interior vertex (first_btm_index). */
  function FirstBottom(n: int): int { BeltVerts(n) + CapVerts(n) }

  /** The point at perimeter offset `off` of ring y. */
  function RingPoint(n: int, y: int, off: int): Point
    requires n >= 1 && 0 <= off < Perimeter(n)
  {
    if off < n then Point(0, y, off)
    else if off < 2 * n then Point(off - n, y, n)
    else if off < 3 * n then Point(n, y, 3 * n - off)
    else Point(4 * n - off, y, 0)
  }

  /** The k-th interior point of the cap at lattice height y. */
  function CapPoint(n: int, y: int, k: int): Point
    requires n >= 2 && 0 <= k < CapVerts(n)
  {
    Point(1 + k / (n - 1), y, 1 + k % (n - 1))
  }

  /** The lattice position of vertex v, in emission order. */
  function VertexPos(n: int, v: int): Point
    requires n >= 1 && 0 <= v < TotalVerts(n)
  {
    if v < BeltVerts(n) then RingPoint(n, v / Perimeter(n), v % Perimeter(n))
    else if v < FirstBottom(n) then CapPoint(n, 0, v - FirstTop(n))
    else CapPoint(n, n, v - FirstBottom(n))
  }

  /** Perimeter offset of a boundary point of a cross-section ring. */
  function RingOffset(n: int, x: int, z: int): int {
    if x == 0 && z < n then z
    else if z == n && x < n then n + x
    else if x == n && 0 < z then 3 * n - z
    else 4 * n - x
  }

  /** The vertex index emitted for a surface point: the inverse of VertexPos. */
  function IndexOf(n: int, p: Point): int
    requires n >= 1 && OnSurface(n, p)
  {
    if p.x == 0 || p.x == n || p.z == 0 || p.z == n then
      p.y * Perimeter(n) + RingOffset(n, p.x, p.z)
    else if p.y == 0 then
      FirstTop(n) + (p.x - 1) * (n - 1) + (p.z - 1)
    else
      FirstBottom(n) + (p.x - 1) * (n - 1) + (p.z - 1)
  }

  /** The belt comes first, then the top block, then the bottom block. */
  lemma BlocksInOrder(n: int)
    requires n >= 1
    ensures 0 <= CapVerts(n)
    ensures 0 < BeltVerts(n) == FirstTop(n) <= FirstBottom(n) <= TotalVerts(n)
  {
    MulMono(0, n - 1, n - 1);
  }

  /** Ring y, offset `off` is vertex y * 4n + off. */
  lemma BeltVertexPos(n: int, y: int, off: int)
    requires n >= 1 && 0 <= y <= n && 0 <= off < Perimeter(n)
    ensures 0 <= y * Perimeter(n) + off < BeltVerts(n)
    ensures VertexPos(n, y * Perimeter(n) + off) == RingPoint(n, y, off)
  {
    MulMono(y, n, Perimeter(n));
    DivModOf(y * Perimeter(n) + off, Perimeter(n), y, off);
  }

  /** The cap interior point in scan row x, column z sits one step in from the border. */
  lemma CapVertexPos(n: int, first: int, y: int, x: int, z: int)
    requires n >= 2 && 0 <= x < n - 1 && 0 <= z < n - 1
    requires (first, y) == (FirstTop(n), 0) || (first, y) == (FirstBottom(n), n)
    ensures 0 <= x * (n - 1) + z < CapVerts(n)
    ensures FirstTop(n) <= first + x * (n - 1) + z < TotalVerts(n)
    ensures VertexPos(n, first + x * (n - 1) + z) == Point(1 + x, y, 1 + z)
  {
    var k := x * (n - 1) + z;
    CapSlot(n, x, z);
    if y == 0 {
      CapBlockPos(n, FirstTop(n), 0, k);
    } else {
      CapBlockPos(n, FirstBottom(n), n, k);
    }
  }

  /** Row x, column z of a cap's scan is its (x * (n - 1) + z)-th interior point. */
  lemma CapSlot(n: int, x: int, z: int)
    requires n >= 2 && 0 <= x < n - 1 && 0 <= z < n - 1
    ensures 0 <= x * (n - 1) + z < CapVerts(n)
    ensures CapPoint(n, 0, x * (n - 1) + z) == Point(1 + x, 0, 1 + z)
    ensures CapPoint(n, n, x * (n - 1) + z) == Point(1 + x, n, 1 + z)
  {
    MulMono(x, n - 2, n - 1);
    MulSucc(n - 2, n - 1);
    DivModOf(x * (n - 1) + z, n - 1, x, z);
  }

  /** The k-th point of a cap block is the cap's k-th interior point. */
  lemma CapBlockPos(n: int, first: int, y: int, k: int)
    requires n >= 2 && 0 <= k < CapVerts(n)
    requires (first, y) == (FirstTop(n), 0) || (first, y) == (FirstBottom(n), n)
    ensures FirstTop(n) <= first + k < TotalVerts(n)
    ensures VertexPos(n, first + k) == CapPoint(n, y, k)
  {
    BlocksInOrder(n);
  }

  /** Every vertex sits on the cube's surface, and IndexOf recovers its index. */
  lemma PosIndex(n: int, v: int)
    requires n >= 1 && 0 <= v < TotalVerts(n)
    ensures OnSurface(n, VertexPos(n, v))
    ensures IndexOf(n, VertexPos(n, v)) == v
  {
    if v < BeltVerts(n) {
      PosIndexBelt(n, v);
    } else {
      if n == 1 {
        assert false;
      }
      if v < FirstBottom(n) {
        CapIndex(n, FirstTop(n), 0, v - FirstTop(n));
      } else {
        CapIndex(n, FirstBottom(n), n, v - FirstBottom(n));
      }
    }
  }

  /** A belt vertex is ring v / 4n, offset v % 4n. */
  lemma PosIndexBelt(n: int, v: int)
    requires n >= 1 && 0 <= v < BeltVerts(n)
    ensures v < TotalVerts(n) && VertexPos(n, v) == RingPoint(n, v / Perimeter(n), v % Perimeter(n))
    ensures OnSurface(n, VertexPos(n, v))
    ensures IndexOf(n, VertexPos(n, v)) == v
  {
    BlocksInOrder(n);
    var m := Perimeter(n);
    var y, off := v / m, v % m;
    assert v == y * m + off;
    assert BeltVerts(n) == (n + 1) * m;
    DivBelow(v, m, n + 1);
    RingIndex(n, y, off);
  }

  lemma RingIndex(n: int, y: int, off: int)
    requires n >= 1 && 0 <= y <= n && 0 <= off < Perimeter(n)
    ensures OnSurface(n, RingPoint(n, y, off))
    ensures IndexOf(n, RingPoint(n, y, off)) == y * Perimeter(n) + off
  {
  }

  lemma CapIndex(n: int, first: int, y: int, k: int)
    requires n >= 2 && 0 <= k < CapVerts(n)
    requires (first, y) == (FirstTop(n), 0) || (first, y) == (FirstBottom(n), n)
    ensures first + k < TotalVerts(n) && VertexPos(n, first + k) == CapPoint(n, y, k)
    ensures OnSurface(n, CapPoint(n, y, k))
    ensures IndexOf(n, CapPoint(n, y, k)) == first + k
  {
    BlocksInOrder(n);
    DivBelow(k, n - 1, n - 1);
    assert k == k / (n - 1) * (n - 1) + k % (n - 1);
  }

  /** Every surface point is emitted: IndexOf names a vertex that sits there. */
  lemma IndexPos(n: int, p: Point)
    requires n >= 1 && OnSurface(n, p)
    ensures 0 <= IndexOf(n, p) < TotalVerts(n)
    ensures VertexPos(n, IndexOf(n, p)) == p
  {
    if p.x == 0 || p.x == n || p.z == 0 || p.z == n {
      IndexPosRing(n, p);
    } else if p.y == 0 {
      assert IndexOf(n, p) == FirstTop(n) + (p.x - 1) * (n - 1) + (p.z - 1);
      CapVertexPos(n, FirstTop(n), 0, p.x - 1, p.z - 1);
    } else {
      assert IndexOf(n, p) == FirstBottom(n) + (p.x - 1) * (n - 1) + (p.z - 1);
      CapVertexPos(n, FirstBottom(n), n, p.x - 1, p.z - 1);
    }
  }

  /** A point on the four vertical faces is emitted by the belt. */
  lemma IndexPosRing(n: int, p: Point)
    requires n >= 1 && InCube(n, p) && (p.x == 0 || p.x == n || p.z == 0 || p.z == n)
    ensures OnSurface(n, p)
    ensures 0 <= IndexOf(n, p) < BeltVerts(n) <= TotalVerts(n)
    ensures VertexPos(n, IndexOf(n, p)) == p
  {
    var off := RingOffset(n, p.x, p.z);
    assert 0 <= off < Perimeter(n) && RingPoint(n, p.y, off) == p;
    assert IndexOf(n, p) == p.y * Perimeter(n) + off;
    BeltVertexPos(n, p.y, off);
    BlocksInOrder(n);
  }

  /** No two vertices share a position: the seams carry no duplicated vertex. */
  lemma VertexPosInjective(n: int, v: int, w: int)
    requires n >= 1 && 0 <= v < TotalVerts(n) && 0 <= w < TotalVerts(n)
    ensures VertexPos(n, v) == VertexPos(n, w) ==> v == w
  {
    PosIndex(n, v);
    PosIndex(n, w);
  }

  /** The vertices on the top face are ring 0 and the top block; those on the bottom face are ring n and the bottom block. */
  lemma VertexHeight(n: int, v: int)
    requires n >= 1 && 0 <= v < TotalVerts(n)
    ensures VertexPos(n, v).y == 0 <==> v < Perimeter(n) || FirstTop(n) <= v < FirstBottom(n)
    ensures VertexPos(n, v).y == n <==> n * Perimeter(n) <= v < BeltVerts(n) || FirstBottom(n) <= v
  {
    BlocksInOrder(n);
    if v < BeltVerts(n) {
      BeltHeight(n, v);
    } else if n == 1 {
      assert false;
    }
  }

  /** Belt vertex v lies on ring v / 4n: ring 0 is the first 4n vertices, ring n the last 4n. */
  lemma BeltHeight(n: int, v: int)
    requires n >= 1 && 0 <= v < BeltVerts(n)
    ensures v < TotalVerts(n) && VertexPos(n, v).y == v / Perimeter(n)
    ensures v / Perimeter(n) == 0 <==> v < Perimeter(n)
    ensures v / Perimeter(n) == n <==> n * Perimeter(n) <= v
  {
    BlocksInOrder(n);
    var m := Perimeter(n);
    assert VertexPos(n, v) == RingPoint(n, v / m, v % m);
    MulSucc(n, m);
    assert BeltVerts(n) == n * m + m;
    QuotientBounds(v, m, 0);
    QuotientBounds(v, m, n);
  }

  /** k / m is q exactly when k lies in [q * m, q * m + m). */
  lemma QuotientBounds(k: int, m: int, q: int)
    requires m > 0
    ensures k / m == q <==> q * m <= k < q * m + m
  {
    if q * m <= k < q * m + m {
      DivModOf(k, m, q, k - q * m);
    }
    if k / m == q {
      assert k == q * m + k % m;
    }
  }

  /** The vertex counts the mesh is known for. */
  lemma VertexCountLaw(n: int)
    requires n >= 1
    ensures TotalVerts(n) == 4 * n * (n + 1) + 2 * (n - 1) * (n - 1)
    ensures n == 1 ==> TotalVerts(n) == 8 && CapVerts(n) == 0
    ensures n == 2 ==> TotalVerts(n) == 26
    ensures n == 4 ==> TotalVerts(n) == 98
  {
  }

  /** Walking a ring, each point is a lattice neighbour of the next, including the step from the last point back to the first. */
  lemma RingIsClosedWalk(n: int, y: int, off: int)
    requires n >= 1 && 0 <= off < Perimeter(n)
    ensures Adjacent(RingPoint(n, y, off), RingPoint(n, y, (off + 1) % Perimeter(n)))
  {
    NextOffset(off, Perimeter(n));
  }

  /** Stepping to the next perimeter offset wraps the last one back to 0. */
  lemma NextOffset(j: int, m: int)
    requires 0 <= j < m
    ensures (j + 1) % m == if j + 1 < m then j + 1 else 0
  {
    if j + 1 < m {
      DivModOf(j + 1, m, 0, j + 1);
    } else {
      DivModOf(j + 1, m, 1, 0);
    }
  }
}
