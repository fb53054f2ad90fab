/**
  The triangle order of the cube-sphere mesh at resolution n.

  1. The lateral belt: for ring i in [0, n) and perimeter offset j in
     [0, 4n), the quad between rings i and i + 1 is split into two triangles;
     the offset to the right wraps modulo 4n, closing the strip.
  2. The top cap, triangulated as a logical (n + 1) x (n + 1) grid whose cells
     are translated to real vertex indices by a remap table (TopEntry).
  3. The bottom cap, the same grid through its own table (BottomEntry), each
     triangle listed in the reverse order.

  MeshTri gives triangle t in emission order. The lemmas show every triangle
  names three distinct existing vertices, faces outward, and that the cap
  tables reuse the belt's ring vertices at the seams.
*/
module CubeTriangles {
  import opened Lattice
  import opened CubeVertices

  datatype Tri = Tri(a: int, b: int, c: int)

  /** Two triangles per quad, n rows of 4n quads. */
  function LateralTris(n: int): int { 2 * n * Perimeter(n) }

  /** Two triangles per logical grid square, n x n squares. */
  function CapTris(n: int): int { 2 * n * n }

  function TriCount(n: int): int { LateralTris(n) + 2 * CapTris(n) }

  /** Cells of the logical (n + 1) x (n + 1) cap grid. */
  function GridCells(n: int): int { (n + 1) * (n + 1) }

  /** The point of the cap at lattice height y that logical cell `cell` stands for. */
  function GridPoint(n: int, y: int, cell: int): (p: Point)
    requires n >= 1 && (y == 0 || y == n) && 0 <= cell < GridCells(n)
    ensures OnSurface(n, p) && p.y == y
  {
    DivBelow(cell, n + 1, n + 1);
    Point(cell / (n + 1), y, cell % (n + 1))
  }

  /** top_map[cell]: the real vertex at the cell's point of the top face. */
  function TopEntry(n: int, cell: int): int
    requires n >= 1 && 0 <= cell < GridCells(n)
  {
    IndexOf(n, GridPoint(n, 0, cell))
  }

  /** btm_map[cell]: the real vertex at the cell's point of the bottom face. */
  function BottomEntry(n: int, cell: int): int
    requires n >= 1 && 0 <= cell < GridCells(n)
  {
    IndexOf(n, GridPoint(n, n, cell))
  }

  /** The two triangles of the lateral quad at ring i, perimeter offset j. */
  function LateralTri(n: int, i: int, j: int, second: bool): Tri
    requires n >= 1
  {
    var h := Perimeter(n);
    var vOff := i * h;
    var i1 := j + vOff;
    var i2 := j + h + vOff;
    var i3 := (j + 1) % h + h + vOff;
    var i4 := (j + 1) % h + vOff;
    if second then Tri(i1, i3, i4) else Tri(i1, i2, i3)
  }

  lemma QuadCells(n: int, r: int, c: int)
    requires n >= 1 && 0 <= r < n && 0 <= c < n
    ensures 0 <= r * (n + 1) + c
    ensures r * (n + 1) + c + (n + 1) == (r + 1) * (n + 1) + c
    ensures (r + 1) * (n + 1) + c + 1 < GridCells(n)
  {
    MulMono(r + 1, n, n + 1);
    MulSucc(r, n + 1);
  }

  /** The two triangles of logical square (r, c) of the top cap. */
  function TopTri(n: int, r: int, c: int, second: bool): Tri
    requires n >= 1 && 0 <= r < n && 0 <= c < n
  {
    QuadCells(n, r, c);
    var i1 := r * (n + 1) + c;
    var i2 := i1 + 1;
    var i3 := i1 + (n + 1);
    var i4 := i3 + 1;
    if second then Tri(TopEntry(n, i2), TopEntry(n, i4), TopEntry(n, i3))
    else Tri(TopEntry(n, i1), TopEntry(n, i2), TopEntry(n, i3))
  }

  /** The two triangles of logical square (r, c) of the bottom cap, in reversed order. */
  function BottomTri(n: int, r: int, c: int, second: bool): Tri
    requires n >= 1 && 0 <= r < n && 0 <= c < n
  {
    QuadCells(n, r, c);
    var i1 := r * (n + 1) + c;
    var i2 := i1 + 1;
    var i3 := i1 + (n + 1);
    var i4 := i3 + 1;
    if second then Tri(BottomEntry(n, i3), BottomEntry(n, i4), BottomEntry(n, i2))
    else Tri(BottomEntry(n, i3), BottomEntry(n, i2), BottomEntry(n, i1))
  }

  /** Triangle t of the index buffer, in emission order. */
  function MeshTri(n: int, t: int): Tri
    requires n >= 1 && 0 <= t < TriCount(n)
  {
    if t < LateralTris(n) then
      var q := t / 2;
      DivBelow(q, Perimeter(n), n);
      LateralTri(n, q / Perimeter(n), q % Perimeter(n), t % 2 == 1)
    else if t < LateralTris(n) + CapTris(n) then
      var q := (t - LateralTris(n)) / 2;
      DivBelow(q, n, n);
      TopTri(n, q / n, q % n, t % 2 == 1)
    else
      var q := (t - LateralTris(n) - CapTris(n)) / 2;
      DivBelow(q, n, n);
      BottomTri(n, q / n, q % n, t % 2 == 1)
  }

  /** Cell r * (n + 1) + c of the logical grid stands for row r, column c. */
  lemma GridPointAt(n: int, y: int, r: int, c: int)
    requires n >= 1 && (y == 0 || y == n) && 0 <= r <= n && 0 <= c <= n
    ensures 0 <= r * (n + 1) + c < GridCells(n)
    ensures GridPoint(n, y, r * (n + 1) + c) == Point(r, y, c)
  {
    MulMono(r, n, n + 1);
    DivModOf(r * (n + 1) + c, n + 1, r, c);
  }

  /** The quad at ring i, offset j is the (i * 4n + j)-th pair of triangles. */
  lemma LateralTriAt(n: int, i: int, j: int)
    requires n >= 1 && 0 <= i < n && 0 <= j < Perimeter(n)
    ensures 2 * (i * Perimeter(n) + j) + 1 < LateralTris(n)
    ensures MeshTri(n, 2 * (i * Perimeter(n) + j)) == LateralTri(n, i, j, false)
    ensures MeshTri(n, 2 * (i * Perimeter(n) + j) + 1) == LateralTri(n, i, j, true)
  {
    var q := i * Perimeter(n) + j;
    MulMono(i, n - 1, Perimeter(n));
    DivModOf(q, Perimeter(n), i, j);
    assert (2 * q) / 2 == q && (2 * q + 1) / 2 == q;
  }

  /** Square (r, c) of the top cap follows the lateral triangles row by row. */
  lemma TopTriAt(n: int, r: int, c: int)
    requires n >= 1 && 0 <= r < n && 0 <= c < n
    ensures LateralTris(n) <= LateralTris(n) + 2 * (r * n + c)
    ensures LateralTris(n) + 2 * (r * n + c) + 1 < LateralTris(n) + CapTris(n)
    ensures MeshTri(n, LateralTris(n) + 2 * (r * n + c)) == TopTri(n, r, c, false)
    ensures MeshTri(n, LateralTris(n) + 2 * (r * n + c) + 1) == TopTri(n, r, c, true)
  {
    var q := r * n + c;
    CapSquare(n, r, c);
    var t := LateralTris(n) + 2 * q;
    var half := n * Perimeter(n);
    assert LateralTris(n) == 2 * half;
    Halves(t, half + q);
    Halves(t - LateralTris(n), q);
  }

  /** An even t = 2q and its successor both halve to q. */
  lemma Halves(t: int, q: int)
    requires t == 2 * q
    ensures t / 2 == q && t % 2 == 0 && (t + 1) / 2 == q && (t + 1) % 2 == 1
  {
    DivModOf(t, 2, q, 0);
    DivModOf(t + 1, 2, q, 1);
  }

  /** Square (r, c) is the (r * n + c)-th of the n * n squares of a cap. */
  lemma CapSquare(n: int, r: int, c: int)
    requires n >= 1 && 0 <= r < n && 0 <= c < n
    ensures 0 <= r * n + c < n * n
    ensures (r * n + c) / n == r && (r * n + c) % n == c
  {
    MulMono(r, n - 1, n);
    MulSucc(n - 1, n);
    DivModOf(r * n + c, n, r, c);
  }

  /** Square (r, c) of the bottom cap follows the top cap row by row. */
  lemma BottomTriAt(n: int, r: int, c: int)
    requires n >= 1 && 0 <= r < n && 0 <= c < n
    ensures LateralTris(n) + CapTris(n) <= LateralTris(n) + CapTris(n) + 2 * (r * n + c)
    ensures LateralTris(n) + CapTris(n) + 2 * (r * n + c) + 1 < TriCount(n)
    ensures MeshTri(n, LateralTris(n) + CapTris(n) + 2 * (r * n + c)) == BottomTri(n, r, c, false)
    ensures MeshTri(n, LateralTris(n) + CapTris(n) + 2 * (r * n + c) + 1) == BottomTri(n, r, c, true)
  {
    var q := r * n + c;
    CapSquare(n, r, c);
    var base := LateralTris(n) + CapTris(n);
    var t := base + 2 * q;
    var half := n * Perimeter(n) + n * n;
    assert base == 2 * half;
    Halves(t, half + q);
    Halves(t - base, q);
  }

  /** 8n^2 lateral triangles and 2n^2 per cap: 12n^2 triangles, 36n^2 indices. */
  lemma TriCountLaw(n: int)
    requires n >= 1
    ensures TriCount(n) == 12 * n * n
    ensures 3 * TriCount(n) == 36 * n * n
    ensures n == 1 ==> TriCount(n) == 12
    ensures n == 2 ==> 3 * TriCount(n) == 144
  {
  }
}
