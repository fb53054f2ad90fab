/**
  What the vertex and triangle orders guarantee: the cap remap tables send
  the border of the logical grid onto the ring already emitted and the
  interior onto the cap's own block, injectively; every triangle names three
  distinct existing vertices and faces outward; the belt closes on itself and
  the bottom cap mirrors the top one with the order reversed.
*/
module MeshProperties {
  import opened Lattice
  import opened CubeVertices
  import opened CubeTriangles

  /** The triangle names three distinct vertices of the mesh. */
  predicate TriWellFormed(n: int, t: Tri)
    requires n >= 1
  {
    && 0 <= t.a < TotalVerts(n) && 0 <= t.b < TotalVerts(n) && 0 <= t.c < TotalVerts(n)
    && t.a != t.b && t.b != t.c && t.a != t.c
  }

  /** The triangle's three vertices, in order, face away from the cube's centre. */
  predicate TriOutward(n: int, t: Tri)
    requires n >= 1 && TriWellFormed(n, t)
  {
    FacesOutward(n, VertexPos(n, t.a), VertexPos(n, t.b), VertexPos(n, t.c))
  }

  /**
    The values build_vertices writes into top_map, cell by cell: the first
    row runs along the start of ring 0, the left and right columns pick the
    ring vertices at offsets 4n - r and n + r, the last row runs back from
    offset 3n, and the interior counts up from first_top_index. Each is the
    vertex at the cell's point of the top face, so every border cell lands on
    ring 0.
  */
  lemma TopMapFormula(n: int, r: int, c: int, cell: int)
    requires n >= 1 && 0 <= r <= n && 0 <= c <= n && cell == r * (n + 1) + c
    ensures 0 <= cell < GridCells(n)
    ensures r == 0 ==> TopEntry(n, cell) == c
    ensures 0 < r < n && c == 0 ==> TopEntry(n, cell) == 4 * n - r
    ensures 0 < r < n && 0 < c < n ==> TopEntry(n, cell) == FirstTop(n) + (r - 1) * (n - 1) + (c - 1)
    ensures 0 < r < n && c == n ==> TopEntry(n, cell) == n + r
    ensures r == n ==> TopEntry(n, cell) == 3 * n - c
    ensures r == 0 || r == n || c == 0 || c == n ==> 0 <= TopEntry(n, cell) < Perimeter(n)
  {
    GridPointAt(n, 0, r, c);
  }

  /**
    The values build_vertices writes into btm_map: the same layout on the last
    ring, which starts at edge_index = 4n^2, with the interior counting up from
    first_btm_index. Every border cell lands on ring n.
  */
  lemma BottomMapFormula(n: int, r: int, c: int, cell: int)
    requires n >= 1 && 0 <= r <= n && 0 <= c <= n && cell == r * (n + 1) + c
    ensures 0 <= cell < GridCells(n)
    ensures r == 0 ==> BottomEntry(n, cell) == 4 * n * n + c
    ensures 0 < r < n && c == 0 ==> BottomEntry(n, cell) == 4 * n * (n + 1) - r
    ensures 0 < r < n && 0 < c < n ==> BottomEntry(n, cell) == FirstBottom(n) + (r - 1) * (n - 1) + (c - 1)
    ensures 0 < r < n && c == n ==> BottomEntry(n, cell) == 4 * n * n + n + r
    ensures r == n ==> BottomEntry(n, cell) == 4 * (n + 1) * n - n - c
    ensures r == 0 || r == n || c == 0 || c == n ==>
              n * Perimeter(n) <= BottomEntry(n, cell) < (n + 1) * Perimeter(n)
  {
    GridPointAt(n, n, r, c);
    var e := BottomEntry(n, cell);
    assert e == IndexOf(n, Point(r, n, c));
    LastRingBase(n);
    if r == 0 || r == n || c == 0 || c == n {
      assert e == n * Perimeter(n) + RingOffset(n, r, c);
    }
  }

  /** The last ring starts at edge_index = 4n^2 and ends just before 4n(n + 1). */
  lemma LastRingBase(n: int)
    ensures n * Perimeter(n) == 4 * n * n
    ensures (n + 1) * Perimeter(n) == 4 * n * n + 4 * n
    ensures 4 * n * (n + 1) == 4 * n * n + 4 * n
    ensures 4 * (n + 1) * n == 4 * n * n + 4 * n
    ensures BeltVerts(n) == (n + 1) * Perimeter(n)
  {
  }

  /** Distinct cells of the logical grid stand for distinct points. */
  lemma GridPointInjective(n: int, y: int, cell1: int, cell2: int)
    requires n >= 1 && (y == 0 || y == n)
    requires 0 <= cell1 < GridCells(n) && 0 <= cell2 < GridCells(n)
    ensures GridPoint(n, y, cell1) == GridPoint(n, y, cell2) ==> cell1 == cell2
  {
    assert cell1 == cell1 / (n + 1) * (n + 1) + cell1 % (n + 1);
    assert cell2 == cell2 / (n + 1) * (n + 1) + cell2 % (n + 1);
  }

  /** No two cells of top_map name the same vertex. */
  lemma TopMapInjective(n: int, cell1: int, cell2: int)
    requires n >= 1 && 0 <= cell1 < GridCells(n) && 0 <= cell2 < GridCells(n)
    ensures TopEntry(n, cell1) == TopEntry(n, cell2) ==> cell1 == cell2
  {
    IndexPos(n, GridPoint(n, 0, cell1));
    IndexPos(n, GridPoint(n, 0, cell2));
    GridPointInjective(n, 0, cell1, cell2);
  }

  /** No two cells of btm_map name the same vertex. */
  lemma BottomMapInjective(n: int, cell1: int, cell2: int)
    requires n >= 1 && 0 <= cell1 < GridCells(n) && 0 <= cell2 < GridCells(n)
    ensures BottomEntry(n, cell1) == BottomEntry(n, cell2) ==> cell1 == cell2
  {
    IndexPos(n, GridPoint(n, n, cell1));
    IndexPos(n, GridPoint(n, n, cell2));
    GridPointInjective(n, n, cell1, cell2);
  }

  /**
    Seam sharing on the top cap: the vertex top_map names for cell (r, c) sits
    at the top-face point r steps in along x and c along z, and a border cell
    names a vertex the belt already emitted.
  */
  lemma TopSeam(n: int, r: int, c: int)
    requires n >= 1 && 0 <= r <= n && 0 <= c <= n
    ensures var cell := r * (n + 1) + c;
      && 0 <= cell < GridCells(n) && 0 <= TopEntry(n, cell) < TotalVerts(n)
      && VertexPos(n, TopEntry(n, cell)) == Point(r, 0, c)
      && (r == 0 || r == n || c == 0 || c == n ==> TopEntry(n, cell) < BeltVerts(n))
  {
    var cell := r * (n + 1) + c;
    TopCell(n, r, c, cell);
    IndexPos(n, Point(r, 0, c));
    TopMapFormula(n, r, c, cell);
    BlocksInOrder(n);
  }

  /** Seam sharing on the bottom cap, whose border cells name vertices of the last ring. */
  lemma BottomSeam(n: int, r: int, c: int)
    requires n >= 1 && 0 <= r <= n && 0 <= c <= n
    ensures var cell := r * (n + 1) + c;
      && 0 <= cell < GridCells(n) && 0 <= BottomEntry(n, cell) < TotalVerts(n)
      && VertexPos(n, BottomEntry(n, cell)) == Point(r, n, c)
      && (r == 0 || r == n || c == 0 || c == n ==> BottomEntry(n, cell) < BeltVerts(n))
  {
    var cell := r * (n + 1) + c;
    BottomCell(n, r, c, cell);
    IndexPos(n, Point(r, n, c));
    BottomMapFormula(n, r, c, cell);
    LastRingBase(n);
  }

  /** The image of top_map is exactly ring 0 and the top interior block. */
  lemma TopMapImage(n: int, v: int)
    requires n >= 1
    ensures (exists cell :: 0 <= cell < GridCells(n) && TopEntry(n, cell) == v)
      <==> 0 <= v < Perimeter(n) || FirstTop(n) <= v < FirstBottom(n)
  {
    BlocksInOrder(n);
    if exists cell :: 0 <= cell < GridCells(n) && TopEntry(n, cell) == v {
      var cell :| 0 <= cell < GridCells(n) && TopEntry(n, cell) == v;
      IndexPos(n, GridPoint(n, 0, cell));
      VertexHeight(n, v);
    }
    if 0 <= v < Perimeter(n) || FirstTop(n) <= v < FirstBottom(n) {
      var p := VertexPos(n, v);
      PosIndex(n, v);
      VertexHeight(n, v);
      TopCell(n, p.x, p.z, p.x * (n + 1) + p.z);
    }
  }

  /** The image of btm_map is exactly ring n and the bottom interior block. */
  lemma BottomMapImage(n: int, v: int)
    requires n >= 1
    ensures (exists cell :: 0 <= cell < GridCells(n) && BottomEntry(n, cell) == v)
      <==> n * Perimeter(n) <= v < BeltVerts(n) || FirstBottom(n) <= v < TotalVerts(n)
  {
    BlocksInOrder(n);
    MulAtLeast(n, Perimeter(n));
    if exists cell :: 0 <= cell < GridCells(n) && BottomEntry(n, cell) == v {
      var cell :| 0 <= cell < GridCells(n) && BottomEntry(n, cell) == v;
      IndexPos(n, GridPoint(n, n, cell));
      VertexHeight(n, v);
    }
    if n * Perimeter(n) <= v < BeltVerts(n) || FirstBottom(n) <= v < TotalVerts(n) {
      var p := VertexPos(n, v);
      PosIndex(n, v);
      VertexHeight(n, v);
      BottomCell(n, p.x, p.z, p.x * (n + 1) + p.z);
    }
  }

  /** A triangle whose vertices sit at three points inherits their orientation. */
  lemma OutwardFromPoints(n: int, t: Tri, pa: Point, pb: Point, pc: Point)
    requires n >= 1 && TriWellFormed(n, t)
    requires VertexPos(n, t.a) == pa && VertexPos(n, t.b) == pb && VertexPos(n, t.c) == pc
    requires FacesOutward(n, pa, pb, pc)
    ensures TriOutward(n, t)
  {
  }

  // The six faces, each quad split along the same diagonal the builder uses.

  lemma QuadOutwardX0(n: int, y: int, p: int)
    requires n >= 1
    ensures FacesOutward(n, Point(0, y, p), Point(0, y + 1, p), Point(0, y + 1, p + 1))
    ensures FacesOutward(n, Point(0, y, p), Point(0, y + 1, p + 1), Point(0, y, p + 1))
  {
  }

  lemma QuadOutwardZn(n: int, y: int, p: int)
    requires n >= 1
    ensures FacesOutward(n, Point(p, y, n), Point(p, y + 1, n), Point(p + 1, y + 1, n))
    ensures FacesOutward(n, Point(p, y, n), Point(p + 1, y + 1, n), Point(p + 1, y, n))
  {
  }

  lemma QuadOutwardXn(n: int, y: int, p: int)
    requires n >= 1
    ensures FacesOutward(n, Point(n, y, n - p), Point(n, y + 1, n - p), Point(n, y + 1, n - p - 1))
    ensures FacesOutward(n, Point(n, y, n - p), Point(n, y + 1, n - p - 1), Point(n, y, n - p - 1))
  {
  }

  lemma QuadOutwardZ0(n: int, y: int, p: int)
    requires n >= 1
    ensures FacesOutward(n, Point(n - p, y, 0), Point(n - p, y + 1, 0), Point(n - p - 1, y + 1, 0))
    ensures FacesOutward(n, Point(n - p, y, 0), Point(n - p - 1, y + 1, 0), Point(n - p - 1, y, 0))
  {
  }

  lemma SquareOutwardTop(n: int, r: int, c: int)
    requires n >= 1
    ensures FacesOutward(n, Point(r, 0, c), Point(r, 0, c + 1), Point(r + 1, 0, c))
    ensures FacesOutward(n, Point(r, 0, c + 1), Point(r + 1, 0, c + 1), Point(r + 1, 0, c))
  {
  }

  lemma SquareOutwardBottom(n: int, r: int, c: int)
    requires n >= 1
    ensures FacesOutward(n, Point(r + 1, n, c), Point(r, n, c + 1), Point(r, n, c))
    ensures FacesOutward(n, Point(r + 1, n, c), Point(r + 1, n, c + 1), Point(r, n, c + 1))
  {
  }

  /** Each lateral quad, split along its diagonal, gives two outward triangles on one face. */
  lemma RingQuadOutward(n: int, y: int, j: int)
    requires n >= 1 && 0 <= y < n && 0 <= j < Perimeter(n)
    ensures var k := (j + 1) % Perimeter(n);
      && 0 <= k < Perimeter(n)
      && FacesOutward(n, RingPoint(n, y, j), RingPoint(n, y + 1, j), RingPoint(n, y + 1, k))
      && FacesOutward(n, RingPoint(n, y, j), RingPoint(n, y + 1, k), RingPoint(n, y, k))
  {
    NextOffset(j, Perimeter(n));
    var k := (j + 1) % Perimeter(n);
    if j < n {
      RingSideX0(n, y, j, k);
    } else if j < 2 * n {
      RingSideZn(n, y, j, k);
    } else if j < 3 * n {
      RingSideXn(n, y, j, k);
    } else {
      RingSideZ0(n, y, j, k);
    }
  }

  /** A lateral quad on the side x = 0 of the ring. */
  lemma RingSideX0(n: int, y: int, j: int, k: int)
    requires n >= 1 && 0 <= y < n && 0 <= j < n
    requires k == if j + 1 < Perimeter(n) then j + 1 else 0
    ensures FacesOutward(n, RingPoint(n, y, j), RingPoint(n, y + 1, j), RingPoint(n, y + 1, k))
    ensures FacesOutward(n, RingPoint(n, y, j), RingPoint(n, y + 1, k), RingPoint(n, y, k))
  {
    assert RingPoint(n, y, k) == Point(0, y, j + 1) && RingPoint(n, y + 1, k) == Point(0, y + 1, j + 1);
    QuadOutwardX0(n, y, j);
  }

  /** A lateral quad on the side z = n of the ring. */
  lemma RingSideZn(n: int, y: int, j: int, k: int)
    requires n >= 1 && 0 <= y < n && n <= j < 2 * n
    requires k == if j + 1 < Perimeter(n) then j + 1 else 0
    ensures FacesOutward(n, RingPoint(n, y, j), RingPoint(n, y + 1, j), RingPoint(n, y + 1, k))
    ensures FacesOutward(n, RingPoint(n, y, j), RingPoint(n, y + 1, k), RingPoint(n, y, k))
  {
    var p := j - n;
    assert RingPoint(n, y, j) == Point(p, y, n) && RingPoint(n, y + 1, j) == Point(p, y + 1, n);
    assert RingPoint(n, y, k) == Point(p + 1, y, n) && RingPoint(n, y + 1, k) == Point(p + 1, y + 1, n);
    QuadOutwardZn(n, y, p);
  }

  /** A lateral quad on the side x = n of the ring. */
  lemma RingSideXn(n: int, y: int, j: int, k: int)
    requires n >= 1 && 0 <= y < n && 2 * n <= j < 3 * n
    requires k == if j + 1 < Perimeter(n) then j + 1 else 0
    ensures FacesOutward(n, RingPoint(n, y, j), RingPoint(n, y + 1, j), RingPoint(n, y + 1, k))
    ensures FacesOutward(n, RingPoint(n, y, j), RingPoint(n, y + 1, k), RingPoint(n, y, k))
  {
    var p := j - 2 * n;
    assert RingPoint(n, y, j) == Point(n, y, n - p) && RingPoint(n, y + 1, j) == Point(n, y + 1, n - p);
    assert RingPoint(n, y, k) == Point(n, y, n - p - 1) && RingPoint(n, y + 1, k) == Point(n, y + 1, n - p - 1);
    QuadOutwardXn(n, y, p);
  }

  /** A lateral quad on the side z = 0 of the ring, the last one wrapping to offset 0. */
  lemma RingSideZ0(n: int, y: int, j: int, k: int)
    requires n >= 1 && 0 <= y < n && 3 * n <= j < 4 * n
    requires k == if j + 1 < Perimeter(n) then j + 1 else 0
    ensures FacesOutward(n, RingPoint(n, y, j), RingPoint(n, y + 1, j), RingPoint(n, y + 1, k))
    ensures FacesOutward(n, RingPoint(n, y, j), RingPoint(n, y + 1, k), RingPoint(n, y, k))
  {
    var p := j - 3 * n;
    assert RingPoint(n, y, j) == Point(n - p, y, 0) && RingPoint(n, y + 1, j) == Point(n - p, y + 1, 0);
    assert RingPoint(n, y, k) == Point(n - p - 1, y, 0) && RingPoint(n, y + 1, k) == Point(n - p - 1, y + 1, 0);
    QuadOutwardZ0(n, y, p);
  }

  /** The lateral quad at ring i, offset j: both triangles name vertices of the belt, are well formed and face outward. */
  lemma LateralQuadSound(n: int, i: int, j: int)
    requires n >= 1 && 0 <= i < n && 0 <= j < Perimeter(n)
    ensures var t1 := LateralTri(n, i, j, false);
      0 <= t1.a < BeltVerts(n) && 0 <= t1.b < BeltVerts(n) && 0 <= t1.c < BeltVerts(n)
    ensures var t2 := LateralTri(n, i, j, true);
      0 <= t2.a < BeltVerts(n) && 0 <= t2.b < BeltVerts(n) && 0 <= t2.c < BeltVerts(n)
    ensures TriWellFormed(n, LateralTri(n, i, j, false)) && TriOutward(n, LateralTri(n, i, j, false))
    ensures TriWellFormed(n, LateralTri(n, i, j, true)) && TriOutward(n, LateralTri(n, i, j, true))
  {
    var k := (j + 1) % Perimeter(n);
    LateralTriShape(n, i, j);
    RingQuadOutward(n, i, j);
    var p1, p2, p3, p4 := RingPoint(n, i, j), RingPoint(n, i + 1, j), RingPoint(n, i + 1, k), RingPoint(n, i, k);
    TriAtPoints(n, LateralTri(n, i, j, false), p1, p2, p3);
    TriAtPoints(n, LateralTri(n, i, j, true), p1, p3, p4);
    OutwardFromPoints(n, LateralTri(n, i, j, false), p1, p2, p3);
    OutwardFromPoints(n, LateralTri(n, i, j, true), p1, p3, p4);
  }

  /** The lateral quad's corners are the belt vertices at ring i and i + 1, offsets j and j + 1 (wrapping). */
  lemma LateralTriShape(n: int, i: int, j: int)
    requires n >= 1 && 0 <= i < n && 0 <= j < Perimeter(n)
    ensures var k := (j + 1) % Perimeter(n);
      && 0 <= k < Perimeter(n) && k != j
      && OnSurface(n, RingPoint(n, i, j)) && OnSurface(n, RingPoint(n, i + 1, j))
      && OnSurface(n, RingPoint(n, i + 1, k)) && OnSurface(n, RingPoint(n, i, k))
      && LateralTri(n, i, j, false)
         == Tri(IndexOf(n, RingPoint(n, i, j)), IndexOf(n, RingPoint(n, i + 1, j)), IndexOf(n, RingPoint(n, i + 1, k)))
      && LateralTri(n, i, j, true)
         == Tri(IndexOf(n, RingPoint(n, i, j)), IndexOf(n, RingPoint(n, i + 1, k)), IndexOf(n, RingPoint(n, i, k)))
      && IndexOf(n, RingPoint(n, i, j)) < BeltVerts(n) && IndexOf(n, RingPoint(n, i, k)) < BeltVerts(n)
      && IndexOf(n, RingPoint(n, i + 1, j)) < BeltVerts(n) && IndexOf(n, RingPoint(n, i + 1, k)) < BeltVerts(n)
      && 0 <= IndexOf(n, RingPoint(n, i, j)) && 0 <= IndexOf(n, RingPoint(n, i, k))
      && IndexOf(n, RingPoint(n, i, j)) != IndexOf(n, RingPoint(n, i, k))
      && IndexOf(n, RingPoint(n, i, j)) < IndexOf(n, RingPoint(n, i + 1, j))
      && IndexOf(n, RingPoint(n, i, k)) < IndexOf(n, RingPoint(n, i + 1, k))
      && IndexOf(n, RingPoint(n, i + 1, j)) != IndexOf(n, RingPoint(n, i + 1, k))
      && IndexOf(n, RingPoint(n, i, j)) < IndexOf(n, RingPoint(n, i + 1, k))
  {
    var h := Perimeter(n);
    var k := (j + 1) % h;
    var base := i * h;
    NextOffset(j, h);
    MulSucc(i, h);
    RingCorner(n, i, j, base + j);
    RingCorner(n, i, k, base + k);
    RingCorner(n, i + 1, j, base + h + j);
    RingCorner(n, i + 1, k, base + h + k);
  }

  /** The belt vertex at ring y, offset off is vertex v = y * 4n + off. */
  lemma RingCorner(n: int, y: int, off: int, v: int)
    requires n >= 1 && 0 <= y <= n && 0 <= off < Perimeter(n) && v == y * Perimeter(n) + off
    ensures OnSurface(n, RingPoint(n, y, off)) && IndexOf(n, RingPoint(n, y, off)) == v
    ensures 0 <= v < BeltVerts(n)
  {
    RingIndex(n, y, off);
    var h := Perimeter(n);
    MulMono(y, n, h);
    MulSucc(n, h);
    assert BeltVerts(n) == (n + 1) * h;
  }

  /** Cell (r, c) of the top grid is a surface point, and top_map names its vertex. */
  lemma TopCell(n: int, r: int, c: int, cell: int)
    requires n >= 1 && 0 <= r <= n && 0 <= c <= n && cell == r * (n + 1) + c
    ensures 0 <= cell < GridCells(n)
    ensures OnSurface(n, Point(r, 0, c)) && TopEntry(n, cell) == IndexOf(n, Point(r, 0, c))
  {
    GridPointAt(n, 0, r, c);
  }

  /** Cell (r, c) of the bottom grid is a surface point, and btm_map names its vertex. */
  lemma BottomCell(n: int, r: int, c: int, cell: int)
    requires n >= 1 && 0 <= r <= n && 0 <= c <= n && cell == r * (n + 1) + c
    ensures 0 <= cell < GridCells(n)
    ensures OnSurface(n, Point(r, n, c)) && BottomEntry(n, cell) == IndexOf(n, Point(r, n, c))
  {
    GridPointAt(n, n, r, c);
  }

  /** A triangle whose corners are the vertices emitted at three distinct surface points is well formed. */
  lemma TriAtPoints(n: int, t: Tri, p1: Point, p2: Point, p3: Point)
    requires n >= 1 && OnSurface(n, p1) && OnSurface(n, p2) && OnSurface(n, p3)
    requires t == Tri(IndexOf(n, p1), IndexOf(n, p2), IndexOf(n, p3))
    requires p1 != p2 && p2 != p3 && p1 != p3
    ensures TriWellFormed(n, t)
    ensures VertexPos(n, t.a) == p1 && VertexPos(n, t.b) == p2 && VertexPos(n, t.c) == p3
  {
    IndexPos(n, p1);
    IndexPos(n, p2);
    IndexPos(n, p3);
  }

  /** The top square (r, c) reads cells i1, i1 + 1, i3 = i1 + (n + 1) and i3 + 1 of its table. */
  lemma TopTriCells(n: int, r: int, c: int, i1: int)
    requires n >= 1 && 0 <= r < n && 0 <= c < n && i1 == r * (n + 1) + c
    ensures 0 <= i1 && i1 + (n + 1) + 1 < GridCells(n)
    ensures var i3 := i1 + (n + 1);
      TopTri(n, r, c, false) == Tri(TopEntry(n, i1), TopEntry(n, i1 + 1), TopEntry(n, i3))
    ensures var i3 := i1 + (n + 1);
      TopTri(n, r, c, true) == Tri(TopEntry(n, i1 + 1), TopEntry(n, i3 + 1), TopEntry(n, i3))
  {
    QuadCells(n, r, c);
  }

  /** The top square (r, c): both triangles name distinct vertices, at the square's corners. */
  lemma TopTriPoints(n: int, r: int, c: int)
    requires n >= 1 && 0 <= r < n && 0 <= c < n
    ensures TriWellFormed(n, TopTri(n, r, c, false)) && TriWellFormed(n, TopTri(n, r, c, true))
    ensures var t := TopTri(n, r, c, false);
      VertexPos(n, t.a) == Point(r, 0, c) && VertexPos(n, t.b) == Point(r, 0, c + 1) && VertexPos(n, t.c) == Point(r + 1, 0, c)
    ensures var t := TopTri(n, r, c, true);
      VertexPos(n, t.a) == Point(r, 0, c + 1) && VertexPos(n, t.b) == Point(r + 1, 0, c + 1) && VertexPos(n, t.c) == Point(r + 1, 0, c)
  {
    QuadCells(n, r, c);
    var i1 := r * (n + 1) + c;
    var i3 := i1 + (n + 1);
    TopCell(n, r, c, i1);
    TopCell(n, r, c + 1, i1 + 1);
    TopCell(n, r + 1, c, i3);
    TopCell(n, r + 1, c + 1, i3 + 1);
    TopTriCells(n, r, c, i1);
    TriAtPoints(n, TopTri(n, r, c, false), Point(r, 0, c), Point(r, 0, c + 1), Point(r + 1, 0, c));
    TriAtPoints(n, TopTri(n, r, c, true), Point(r, 0, c + 1), Point(r + 1, 0, c + 1), Point(r + 1, 0, c));
  }

  /** The bottom square (r, c) reads cells i1, i1 + 1, i3 = i1 + (n + 1) and i3 + 1 of its table. */
  lemma BottomTriCells(n: int, r: int, c: int, i1: int)
    requires n >= 1 && 0 <= r < n && 0 <= c < n && i1 == r * (n + 1) + c
    ensures 0 <= i1 && i1 + (n + 1) + 1 < GridCells(n)
    ensures var i3 := i1 + (n + 1);
      BottomTri(n, r, c, false) == Tri(BottomEntry(n, i3), BottomEntry(n, i1 + 1), BottomEntry(n, i1))
    ensures var i3 := i1 + (n + 1);
      BottomTri(n, r, c, true) == Tri(BottomEntry(n, i3), BottomEntry(n, i3 + 1), BottomEntry(n, i1 + 1))
  {
    QuadCells(n, r, c);
  }

  /** The bottom square (r, c): both triangles name distinct vertices, at the square's corners. */
  lemma BottomTriPoints(n: int, r: int, c: int)
    requires n >= 1 && 0 <= r < n && 0 <= c < n
    ensures TriWellFormed(n, BottomTri(n, r, c, false)) && TriWellFormed(n, BottomTri(n, r, c, true))
    ensures var t := BottomTri(n, r, c, false);
      VertexPos(n, t.a) == Point(r + 1, n, c) && VertexPos(n, t.b) == Point(r, n, c + 1) && VertexPos(n, t.c) == Point(r, n, c)
    ensures var t := BottomTri(n, r, c, true);
      VertexPos(n, t.a) == Point(r + 1, n, c) && VertexPos(n, t.b) == Point(r + 1, n, c + 1) && VertexPos(n, t.c) == Point(r, n, c + 1)
  {
    QuadCells(n, r, c);
    var i1 := r * (n + 1) + c;
    var i3 := i1 + (n + 1);
    BottomCell(n, r, c, i1);
    BottomCell(n, r, c + 1, i1 + 1);
    BottomCell(n, r + 1, c, i3);
    BottomCell(n, r + 1, c + 1, i3 + 1);
    BottomTriCells(n, r, c, i1);
    TriAtPoints(n, BottomTri(n, r, c, false), Point(r + 1, n, c), Point(r, n, c + 1), Point(r, n, c));
    TriAtPoints(n, BottomTri(n, r, c, true), Point(r + 1, n, c), Point(r + 1, n, c + 1), Point(r, n, c + 1));
  }

  /** The top square (r, c): both triangles are well formed and face outward. */
  lemma TopQuadSound(n: int, r: int, c: int)
    requires n >= 1 && 0 <= r < n && 0 <= c < n
    ensures TriWellFormed(n, TopTri(n, r, c, false)) && TriOutward(n, TopTri(n, r, c, false))
    ensures TriWellFormed(n, TopTri(n, r, c, true)) && TriOutward(n, TopTri(n, r, c, true))
  {
    TopTriPoints(n, r, c);
    SquareOutwardTop(n, r, c);
    OutwardFromPoints(n, TopTri(n, r, c, false), Point(r, 0, c), Point(r, 0, c + 1), Point(r + 1, 0, c));
    OutwardFromPoints(n, TopTri(n, r, c, true), Point(r, 0, c + 1), Point(r + 1, 0, c + 1), Point(r + 1, 0, c));
  }

  /** The bottom square (r, c): both triangles are well formed and face outward. */
  lemma BottomQuadSound(n: int, r: int, c: int)
    requires n >= 1 && 0 <= r < n && 0 <= c < n
    ensures TriWellFormed(n, BottomTri(n, r, c, false)) && TriOutward(n, BottomTri(n, r, c, false))
    ensures TriWellFormed(n, BottomTri(n, r, c, true)) && TriOutward(n, BottomTri(n, r, c, true))
  {
    BottomTriPoints(n, r, c);
    SquareOutwardBottom(n, r, c);
    OutwardFromPoints(n, BottomTri(n, r, c, false), Point(r + 1, n, c), Point(r, n, c + 1), Point(r, n, c));
    OutwardFromPoints(n, BottomTri(n, r, c, true), Point(r + 1, n, c), Point(r + 1, n, c + 1), Point(r, n, c + 1));
  }

  /** Every triangle of the mesh names three distinct existing vertices and faces outward. */
  lemma TriangleSound(n: int, t: int)
    requires n >= 1 && 0 <= t < TriCount(n)
    ensures TriWellFormed(n, MeshTri(n, t))
    ensures TriOutward(n, MeshTri(n, t))
  {
    if t < LateralTris(n) {
      var q := t / 2;
      DivBelow(q, Perimeter(n), n);
      LateralQuadSound(n, q / Perimeter(n), q % Perimeter(n));
    } else if t < LateralTris(n) + CapTris(n) {
      var q := (t - LateralTris(n)) / 2;
      DivBelow(q, n, n);
      TopQuadSound(n, q / n, q % n);
    } else {
      var q := (t - LateralTris(n) - CapTris(n)) / 2;
      DivBelow(q, n, n);
      BottomQuadSound(n, q / n, q % n);
    }
  }

  /** The belt has no seam: every quad's right edge is the next quad's left edge, the last column wrapping onto the first, and each row's top edge is the next row's bottom edge. */
  lemma BeltCloses(n: int, i: int, j: int)
    requires n >= 1 && 0 <= i < n && 0 <= j < Perimeter(n)
    ensures var k := (j + 1) % Perimeter(n);
      && LateralTri(n, i, j, false).c == LateralTri(n, i, k, false).b
      && LateralTri(n, i, j, true).c == LateralTri(n, i, k, true).a
    ensures j == Perimeter(n) - 1 ==>
      LateralTri(n, i, j, false).c == (i + 1) * Perimeter(n) && LateralTri(n, i, j, true).c == i * Perimeter(n)
    ensures i + 1 < n ==> LateralTri(n, i, j, false).b == LateralTri(n, i + 1, j, false).a
  {
    NextOffset(j, Perimeter(n));
    MulSucc(i, Perimeter(n));
    var k := (j + 1) % Perimeter(n);
    NextOffset(k, Perimeter(n));
  }

  /** The bottom square lists the same face points as the top square, moved to the bottom face, in reverse order. */
  lemma BottomMirrorsTop(n: int, r: int, c: int, second: bool)
    requires n >= 1 && 0 <= r < n && 0 <= c < n
    ensures TriWellFormed(n, TopTri(n, r, c, second)) && TriWellFormed(n, BottomTri(n, r, c, second))
    ensures var t := TopTri(n, r, c, second);
      var b := BottomTri(n, r, c, second);
      && VertexPos(n, b.a) == VertexPos(n, t.c).(y := n)
      && VertexPos(n, b.b) == VertexPos(n, t.b).(y := n)
      && VertexPos(n, b.c) == VertexPos(n, t.a).(y := n)
  {
    TopTriPoints(n, r, c);
    BottomTriPoints(n, r, c);
  }
}
