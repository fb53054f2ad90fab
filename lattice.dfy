/**
  Integer lattice geometry of the subdivided cube.

  The mesh builder walks the cube in steps of `side_length / N`, starting at
  the corner (+side/2, +side/2, +side/2). A lattice point records how many
  steps have been taken from that corner in the -x, -y and -z directions, so
  every coordinate of a cube point lies in 0..N. Real coordinates are
  `side/2 - coordinate * step` on each axis: a point reflection of the
  lattice, which reverses orientation (see FacesOutward).
*/
module Lattice {

  datatype Point = Point(x: int, y: int, z: int)

  function Sub(a: Point, b: Point): Point {
    Point(a.x - b.x, a.y - b.y, a.z - b.z)
  }

  function Cross(u: Point, v: Point): Point {
    var (ux, uy, uz, vx, vy, vz) := (u.x, u.y, u.z, v.x, v.y, v.z);
    Point(uy * vz - uz * vy, uz * vx - ux * vz, ux * vy - uy * vx)
  }

  function Dot(u: Point, v: Point): int {
    var (ux, uy, uz, vx, vy, vz) := (u.x, u.y, u.z, v.x, v.y, v.z);
    ux * vx + uy * vy + uz * vz
  }

  /** The point lies in the closed cube [0, n]^3. */
  predicate InCube(n: int, p: Point) {
    0 <= p.x <= n && 0 <= p.y <= n && 0 <= p.z <= n
  }

  /** The point lies on one of the six faces of the cube [0, n]^3. */
  predicate OnSurface(n: int, p: Point) {
    InCube(n, p) && (p.x == 0 || p.x == n || p.y == 0 || p.y == n || p.z == 0 || p.z == n)
  }

  /** The two points are lattice neighbours: they differ by one step along one axis. */
  predicate Adjacent(a: Point, b: Point) {
    var d := Sub(b, a);
    || ((d.x == 1 || d.x == -1) && d.y == 0 && d.z == 0)
    || (d.x == 0 && (d.y == 1 || d.y == -1) && d.z == 0)
    || (d.x == 0 && d.y == 0 && (d.z == 1 || d.z == -1))
  }

  /**
    The triangle (a, b, c), drawn in that order, faces away from the cube's
    centre: its signed area, taken against the outward radial direction at
    its centroid, is positive in real coordinates. `g` is six times the
    centroid minus the centre. Because real coordinates are the lattice
    reflected through a point, a positive real signed area shows up as a
    negative lattice one.
  */
  predicate FacesOutward(n: int, a: Point, b: Point, c: Point) {
    var g := Point(2 * (a.x + b.x + c.x) - 3 * n,
                   2 * (a.y + b.y + c.y) - 3 * n,
                   2 * (a.z + b.z + c.z) - 3 * n);
    Dot(Cross(Sub(b, a), Sub(c, a)), g) < 0
  }

  /** Euclidean division is determined by its quotient and remainder. */
  lemma DivModOf(k: int, m: int, q: int, r: int)
    requires m > 0 && 0 <= r < m && k == q * m + r
    ensures k / m == q && k % m == r
  {
    var q', r' := k / m, k % m;
    assert k == q' * m + r';
    if q' > q {
      assert (q' - q) * m >= m by { MulAtLeast(q' - q, m); }
      assert false;
    } else if q' < q {
      assert (q - q') * m >= m by { MulAtLeast(q - q', m); }
      assert false;
    }
  }

  lemma MulAtLeast(a: int, m: int)
    requires a >= 1 && m > 0
    ensures a * m >= m
  {
    assert a * m == (a - 1) * m + m;
    assert (a - 1) * m >= 0;
  }

  /** A multiple of m below b * m has quotient below b. */
  lemma DivBelow(k: int, m: int, b: int)
    requires m > 0 && 0 <= k < b * m
    ensures 0 <= k / m < b
  {
    if k / m >= b {
      MulMono(b, k / m, m);
    }
  }

  lemma MulMono(a: int, b: int, m: int)
    requires a <= b && m >= 0
    ensures a * m <= b * m
  {
    assert b * m - a * m == (b - a) * m;
  }

  lemma MulSucc(a: int, m: int)
    ensures (a + 1) * m == a * m + m
  {
  }
}
