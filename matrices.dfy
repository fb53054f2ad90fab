/**
  The small part of column-major vector and matrix algebra the sphere's
  transform uses, over exact reals: a 4 x 4 model matrix whose upper-left
  3 x 3 block scales and whose last column translates, and the 3 x 3
  inverse transpose that carries normals.
*/
module Matrices {

  datatype Vec3 = Vec3(x: real, y: real, z: real)
  datatype Vec4 = Vec4(x: real, y: real, z: real, w: real)

  /** Columns c0, c1, c2, as in a column-major matrix: m[j] is column j. */
  datatype Mat3 = Mat3(c0: Vec3, c1: Vec3, c2: Vec3)
  datatype Mat4 = Mat4(c0: Vec4, c1: Vec4, c2: Vec4, c3: Vec4)

  function Identity3(): Mat3 {
    Mat3(Vec3(1.0, 0.0, 0.0), Vec3(0.0, 1.0, 0.0), Vec3(0.0, 0.0, 1.0))
  }

  function Identity4(): Mat4 {
    Mat4(Vec4(1.0, 0.0, 0.0, 0.0), Vec4(0.0, 1.0, 0.0, 0.0),
         Vec4(0.0, 0.0, 1.0, 0.0), Vec4(0.0, 0.0, 0.0, 1.0))
  }

  /** The uniform scale by s. */
  function Scale3(s: real): Mat3 {
    Mat3(Vec3(s, 0.0, 0.0), Vec3(0.0, s, 0.0), Vec3(0.0, 0.0, s))
  }

  /** Entry at column j, row i. */
  function At3(m: Mat3, j: int, i: int): real
    requires 0 <= j < 3 && 0 <= i < 3
  {
    var c := if j == 0 then m.c0 else if j == 1 then m.c1 else m.c2;
    if i == 0 then c.x else if i == 1 then c.y else c.z
  }

  /** The upper-left 3 x 3 block, as glm::mat3(mat4) takes it. */
  function Upper3(m: Mat4): (u: Mat3)
    ensures forall j, i :: 0 <= j < 3 && 0 <= i < 3 ==> At3(u, j, i) == At4(m, j, i)
  {
    Mat3(Vec3(m.c0.x, m.c0.y, m.c0.z), Vec3(m.c1.x, m.c1.y, m.c1.z), Vec3(m.c2.x, m.c2.y, m.c2.z))
  }

  /** Entry at column j, row i. */
  function At4(m: Mat4, j: int, i: int): real
    requires 0 <= j < 4 && 0 <= i < 4
  {
    var c := if j == 0 then m.c0 else if j == 1 then m.c1 else if j == 2 then m.c2 else m.c3;
    if i == 0 then c.x else if i == 1 then c.y else if i == 2 then c.z else c.w
  }

  function Transpose3(m: Mat3): (t: Mat3)
    ensures forall j, i :: 0 <= j < 3 && 0 <= i < 3 ==> At3(t, j, i) == At3(m, i, j)
  {
    Mat3(Vec3(m.c0.x, m.c1.x, m.c2.x), Vec3(m.c0.y, m.c1.y, m.c2.y), Vec3(m.c0.z, m.c1.z, m.c2.z))
  }

  /** Row i of a times column j of b. */
  function Entry(a: Mat3, b: Mat3, j: int, i: int): real
    requires 0 <= j < 3 && 0 <= i < 3
  {
    var (a0, a1, a2) := (At3(a, 0, i), At3(a, 1, i), At3(a, 2, i));
    var (b0, b1, b2) := (At3(b, j, 0), At3(b, j, 1), At3(b, j, 2));
    a0 * b0 + a1 * b1 + a2 * b2
  }

  /** The 3 x 3 matrix product a * b. */
  function Mul3(a: Mat3, b: Mat3): Mat3 {
    Mat3(Vec3(Entry(a, b, 0, 0), Entry(a, b, 0, 1), Entry(a, b, 0, 2)),
         Vec3(Entry(a, b, 1, 0), Entry(a, b, 1, 1), Entry(a, b, 1, 2)),
         Vec3(Entry(a, b, 2, 0), Entry(a, b, 2, 1), Entry(a, b, 2, 2)))
  }

  /** The 4 x 4 matrix with its main diagonal's first three entries set to s. */
  function WithScale(m: Mat4, s: real): Mat4 {
    m.(c0 := m.c0.(x := s), c1 := m.c1.(y := s), c2 := m.c2.(z := s))
  }

  /** The 4 x 4 matrix with its last column replaced by (p, 1). */
  function WithTranslation(m: Mat4, p: Vec3): Mat4 {
    m.(c3 := Vec4(p.x, p.y, p.z, 1.0))
  }

  /** The inverse of a uniform scale is the scale by the reciprocal. */
  lemma ScaleInverse(s: real)
    requires s != 0.0
    ensures Mul3(Scale3(1.0 / s), Scale3(s)) == Identity3()
    ensures Mul3(Scale3(s), Scale3(1.0 / s)) == Identity3()
  {
    assert (1.0 / s) * s == 1.0;
  }

  /** A uniform scale is its own transpose. */
  lemma ScaleSymmetric(s: real)
    ensures Transpose3(Scale3(s)) == Scale3(s)
  {
  }
}
