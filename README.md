# Cube-sphere mesh of `Sphere`, modelled in Dafny

`Sphere` (src/sphere.cpp, src/headers/sphere.h) builds the triangle mesh of a
sphere by subdividing a cube: each cube edge is cut into `squares_per_row = n`
steps. The renderer's shader then projects the cube onto the sphere.
`build_vertices` emits vertices in a fixed order:

1. n + 1 horizontal rings of 4n points each, every ring walked from the
   (+, +, +) corner along -z, -x, +z, +x;
2. the (n - 1)^2 interior points of the top face, row by row;
3. the same for the bottom face.

It then stitches triangles:

- lateral quads between consecutive rings, with the perimeter offset wrapping
  modulo 4n;
- each cap as a logical (n + 1) x (n + 1) grid, translated to real vertex
  indices through a remap table (`top_map`, `btm_map`);
- the bottom cap's triangles with their vertex order reversed.

The object also holds a model matrix, its inverse transpose for normals, a
position, a colour and a projection flag.

The model keeps the source's imperative shape:

- `Sphere` is a class with the same fields, apart from the GL handles and the shader;
- `build_vertices` is a method whose loops append to `seq` buffers through
  `AddVertex`/`AddTriangle`;
- the remap tables are arrays filled in place with the source's running
  counters (`first_top_index++`).

Each method is proved against specification functions:

- `VertexPos(n, v)` is the lattice position of vertex v;
- `MeshTri(n, t)` is triangle t in emission order;
- `TopEntry`/`BottomEntry` are the remap tables.

The lemmas about those functions prove the following:

- the vertex order is a bijection onto the cube's surface points (`IndexOf`
  is its inverse);
- every triangle names three distinct existing vertices;
- every triangle faces outward;
- the remap tables are injective with an exact image;
- the caps reuse the belt's ring vertices at their borders;
- the bottom cap lists the top cap's points in reverse;
- the buffers have 3 * total_verts and 36 n^2 entries.

Positions are integer lattice points. A point counts the steps taken from the
(+s/2, +s/2, +s/2) corner along -x, -y and -z, so each coordinate is in 0..n.
This map is a point reflection of real space, so orientation flips:
`FacesOutward` asks for a negative dot product of the triangle's normal with
its centroid's direction from the cube centre. Matrices, position, colour and
radius are exact reals.

Modules:

- `Lattice`: points, cross and dot products, the cube surface, arithmetic
  helper lemmas.
- `CubeVertices`: vertex counts, emission order, its inverse.
- `CubeTriangles`: triangle order, the cap grid.
- `MeshProperties`: the mesh laws.
- `MeshBuffers`: flat buffers and their prefix invariants.
- `CapMaps`: the remap-table builders.
- `Matrices`: the little matrix algebra the transform needs.
- `SphereMesh`: the class.

Two facts about the code that the model keeps:

- Each cap is triangulated as a full n x n grid of squares: 2n^2 triangles
  per cap and 36 n^2 indices in all (`TriCountLaw`).
- `set_radius` does not rebuild the mesh. It rewrites the model diagonal and
  `tinv_model`, and its parameter shadows the `radius` field, which keeps its
  constructor value.

## Model

| member | source | states |
|---|---|---|
| SphereMesh.Sphere.constructor | src/sphere.cpp:3-11 | radius, resolution and projection flag take the arguments (defaults 1, 2, true); position is the origin, colour grey, model and tinv the identity; total_verts is the belt plus both cap interiors; the mesh is built (Valid) |
| SphereMesh.Sphere.GetTinv | src/sphere.cpp:13-15 | the returned matrix's transpose is the inverse of the model's upper-left 3 x 3 block, and it is itself the uniform scale by the reciprocal of the model's scale |
| SphereMesh.Sphere.SetRadius | src/sphere.cpp:17-23 | the model's first three diagonal entries become the radius, the upper block is that uniform scale, tinv is its inverse transpose; the radius field, resolution, vertices and indices are unchanged |
| SphereMesh.Sphere.SetSquares | src/sphere.cpp:25-33 | the resolution becomes n, total_verts is 4n(n+1) + 2(n-1)^2, the mesh is rebuilt at n with 36 n^2 indices |
| SphereMesh.Sphere.SetPosition | src/sphere.cpp:35-39 | the model's last column becomes (position, 1), its upper block is kept, position is stored, the mesh is unchanged |
| SphereMesh.Sphere.SetColour | src/sphere.cpp:41-43 | the colour becomes the argument |
| SphereMesh.Sphere.Project | src/sphere.cpp:45-47 | the projection flag becomes the argument; model and mesh are unchanged |
| SphereMesh.Sphere.GetVerts | src/sphere.cpp:60-62 | the vertex count is TotalVerts(n) and the vertex buffer holds three coordinates for each |
| SphereMesh.Sphere.GetProject | src/sphere.cpp:64-66 | the projection flag as the constructor or Project last set it |
| SphereMesh.Sphere.GetRadius | src/sphere.cpp:68-70 | the radius field, which SetRadius leaves at its constructor value |
| SphereMesh.Sphere.GetSegments | src/sphere.cpp:72-74 | the resolution n >= 1 fixes the buffers at 3(4n(n+1) + 2(n-1)^2) coordinates and 36 n^2 indices |
| SphereMesh.Sphere.BuildVertices | src/sphere.cpp:76-243 | afterwards the vertex buffer is exactly the mesh's vertices in emission order, normals is empty, the index buffer is exactly the mesh's triangles in order, total_indices is its length |
| SphereMesh.Sphere.EmitBelt | src/sphere.cpp:93-118 | the n + 1 rings are appended: the buffer then holds the first BeltVerts(n) vertices of the emission order |
| SphereMesh.Sphere.EmitRing | src/sphere.cpp:96-115 | one ring appends its 4n vertices in order and the cursor returns to the ring's start corner |
| SphereMesh.Sphere.EmitRingFront | src/sphere.cpp:96-105 | the sides x = 0 and z = n append the ring's first 2n vertices; the cursor ends at the opposite corner |
| SphereMesh.Sphere.EmitRingBack | src/sphere.cpp:106-115 | the sides x = n and z = 0 append the ring's last 2n vertices; the cursor ends back at the start |
| SphereMesh.Sphere.EmitCapInterior | src/sphere.cpp:124-143 | a cap's (n-1)^2 interior points are appended, extending the prefix from the cap's first index to its last |
| SphereMesh.Sphere.StitchBelt | src/sphere.cpp:152-162 | the index buffer then holds the 8 n^2 lateral triangles in emission order |
| SphereMesh.Sphere.StitchBeltRow | src/sphere.cpp:153-161 | row i appends the 2 * 4n triangles of its quads, with the wrapped offset |
| SphereMesh.Sphere.StitchTopCap | src/sphere.cpp:193-202 | the top cap's 2 n^2 triangles follow the lateral ones, read through top_map |
| SphereMesh.Sphere.StitchTopRow | src/sphere.cpp:194-201 | row r of the top grid appends its 2n triangles |
| SphereMesh.Sphere.StitchBottomCap | src/sphere.cpp:230-239 | the bottom cap's 2 n^2 triangles complete the buffer |
| SphereMesh.Sphere.StitchBottomRow | src/sphere.cpp:231-238 | row r of the bottom grid appends its 2n triangles, each in reversed order |
| SphereMesh.Sphere.AddVertex | src/sphere.cpp:258-262 | the point's three coordinates are appended |
| SphereMesh.Sphere.AddTriangle | src/sphere.cpp:264-268 | the three indices are appended |
| SphereMesh.Sphere.ClearArrays | src/sphere.cpp:270-274 | vertices, normals and indices become empty |
| SphereMesh.InverseOfScale | src/sphere.cpp:22 | for a uniform nonzero scale, the result is a two-sided inverse and again a uniform scale |
| Matrices.ScaleSymmetric | src/sphere.cpp:22 | a uniform scale is its own transpose, so tinv of a uniform scale is the reciprocal scale |
| Matrices.ScaleInverse | src/sphere.cpp:22 | the scale by 1/s inverts the scale by s on both sides |
| Matrices.Transpose3 | src/sphere.cpp:22 | entry (j, i) of the transpose is entry (i, j) of the matrix |
| Matrices.Upper3 | src/sphere.cpp:22 | the 3 x 3 block agrees with the 4 x 4 matrix entry by entry |
| CapMaps.BuildTopMap | src/sphere.cpp:167-188 | the table has (n+1)^2 cells and cell k holds TopEntry(n, k), the vertex at its top-face point |
| CapMaps.FillTopFirstRow | src/sphere.cpp:170-172 | the first n + 1 cells are right |
| CapMaps.FillTopMiddleRows | src/sphere.cpp:176-184 | the middle rows extend the correct prefix to n(n + 1) cells |
| CapMaps.FillTopRow | src/sphere.cpp:177-183 | one middle row extends the correct prefix by n + 1 cells and advances first_top_index by n - 1 |
| CapMaps.FillTopLastRow | src/sphere.cpp:186-188 | the last row completes the table |
| CapMaps.BuildBottomMap | src/sphere.cpp:205-226 | the table has (n+1)^2 cells and cell k holds BottomEntry(n, k) |
| CapMaps.FillBottomFirstRow | src/sphere.cpp:210-212 | the first n + 1 cells are right |
| CapMaps.FillBottomMiddleRows | src/sphere.cpp:214-222 | the middle rows extend the correct prefix to n(n + 1) cells |
| CapMaps.FillBottomRow | src/sphere.cpp:215-221 | one middle row extends the correct prefix by n + 1 cells and advances first_btm_index by n - 1 |
| CapMaps.FillBottomLastRow | src/sphere.cpp:224-226 | the last row completes the table |
| CapMaps.MapConstants | src/sphere.cpp:205-207 | first_top_index and first_btm_index are the starts of the two cap blocks, and the tables have (n+1)^2 cells |
| CubeVertices.VertexCountLaw | src/sphere.cpp:4-6 | total_verts = 4n(n+1) + 2(n-1)^2: 8 at n = 1 (no cap interior), 26 at n = 2, 98 at n = 4 |
| CubeVertices.BlocksInOrder | src/sphere.cpp:167 | the belt, the top block and the bottom block follow each other in that order |
| CubeVertices.BeltVertexPos | src/sphere.cpp:93-118 | vertex y * 4n + off is the ring-y point at perimeter offset off |
| CubeVertices.CapVertexPos | src/sphere.cpp:124-143 | the vertex emitted at scan row x, column z of a cap sits one step in from the border, at lattice (1 + x, y, 1 + z) |
| CubeVertices.PosIndex | src/sphere.cpp:93-143 | every emitted vertex is a surface point, and IndexOf gives back its index |
| CubeVertices.IndexPos | src/sphere.cpp:93-143 | every surface point is emitted: IndexOf names a vertex that sits there |
| CubeVertices.VertexPosInjective | src/sphere.cpp:93-143 | no point is emitted twice |
| CubeVertices.VertexHeight | src/sphere.cpp:93-143 | the vertices on the top face are ring 0 and the top block; on the bottom face, ring n and the bottom block |
| CubeVertices.RingIsClosedWalk | src/sphere.cpp:96-115 | consecutive ring points, the last wrapping to the first, are lattice neighbours |
| CubeTriangles.LateralTriAt | src/sphere.cpp:152-161 | quad (i, j) is the (i * 4n + j)-th pair of triangles, inside the lateral section |
| CubeTriangles.TopTriAt | src/sphere.cpp:193-201 | top square (r, c) is pair r * n + c after the lateral section |
| CubeTriangles.BottomTriAt | src/sphere.cpp:230-238 | bottom square (r, c) is pair r * n + c after the top section, and ends before the 12 n^2-th triangle |
| CubeTriangles.TriCountLaw | src/sphere.cpp:146-239 | 12 n^2 triangles and 36 n^2 indices |
| MeshProperties.TopMapFormula | src/sphere.cpp:167-188 | each region's literal constant (first row c, left column 4n - r, interior from first_top_index, right column n + r, last row 3n - c) is the vertex at the cell's point; border cells land on ring 0 |
| MeshProperties.BottomMapFormula | src/sphere.cpp:205-226 | the same for btm_map with edge_index = 4n^2 and first_btm_index; border cells land on the last ring |
| MeshProperties.TopMapInjective | src/sphere.cpp:167-188 | distinct cells of top_map name distinct vertices |
| MeshProperties.BottomMapInjective | src/sphere.cpp:205-226 | distinct cells of btm_map name distinct vertices |
| MeshProperties.TopMapImage | src/sphere.cpp:167-188 | a vertex is named by some cell of top_map exactly when it is on ring 0 or in the top interior block |
| MeshProperties.BottomMapImage | src/sphere.cpp:205-226 | a vertex is named by some cell of btm_map exactly when it is on ring n or in the bottom interior block |
| MeshProperties.TopSeam | src/sphere.cpp:167-188 | the vertex top_map names for cell (r, c) sits at the top-face point (r, 0, c); a border cell names a belt vertex |
| MeshProperties.BottomSeam | src/sphere.cpp:205-226 | the vertex btm_map names for cell (r, c) sits at the bottom-face point (r, n, c); a border cell names a belt vertex |
| MeshProperties.LateralQuadSound | src/sphere.cpp:152-161 | both triangles of a lateral quad use belt vertices only, are well formed and face outward |
| MeshProperties.RingQuadOutward | src/sphere.cpp:146-161 | a lateral quad split along the builder's diagonal gives two outward triangles |
| MeshProperties.TopQuadSound | src/sphere.cpp:193-201 | both triangles of a top square are well formed and face outward |
| MeshProperties.BottomQuadSound | src/sphere.cpp:230-238 | both triangles of a bottom square, in their reversed order, are well formed and face outward |
| MeshProperties.TriangleSound | src/sphere.cpp:145-239 | every triangle names three distinct vertices below total_verts and faces outward |
| MeshProperties.BeltCloses | src/sphere.cpp:154-158 | neighbouring quads share their edge, the last column wraps onto the first, each row's top edge is the next row's bottom edge |
| MeshProperties.BottomMirrorsTop | src/sphere.cpp:199-237 | a bottom triangle lists the points of the matching top triangle, moved to the bottom face, in reverse order |
| MeshBuffers.AppendVertex | src/sphere.cpp:258-262 | pushing the next vertex's coordinates extends the correct prefix by one |
| MeshBuffers.AppendTriangle | src/sphere.cpp:264-268 | pushing the next triangle's indices extends the correct prefix by one |
| MeshBuffers.VertexBufferBijective | src/sphere.cpp:93-143 | a complete vertex buffer lists every surface point exactly once |
| MeshBuffers.BufferSound | src/sphere.cpp:145-239 | every triangle of a complete index buffer is well formed and faces outward |
| MeshBuffers.BufferInRange | src/sphere.cpp:241-242 | a complete index buffer has 36 n^2 entries, each below total_verts |

## Left out

- The OpenGL buffers, vertex array and draw call (src/sphere.cpp:49-58, 244-255) and the shader: foreign calls. The projection onto the sphere happens in the shader, so `isProject` is only stored.
- Floating point: vertices are lattice points, not floats. The model leaves out `side_length = 2r / sqrt(3)`, the step `side_length / n` and the drift that repeated `cur_pos -= step` accumulates. The vertex buffer holds lattice coordinates, whose real positions are `side_length / 2 - coordinate * step`.
- Matrices are exact reals. The general `glm::inverse` is not modelled. `InverseOfScale` covers uniform scales, which is every upper-left block the class produces: it starts as the identity, `set_radius` writes the whole diagonal and `set_position` touches only the last column.
- SphereMesh.Sphere.SetRadius: requires a nonzero radius, because the inverse of the zero matrix that `set_radius(0)` asks for has no exact value.
- Every method and every mesh lemma that takes a resolution asks for `n >= 1`; the lemmas about a cap's interior block ask for `n >= 2`, the only case in which that block is non-empty. The counting functions and the lattice predicates are total. The only caller's slider ranges over 1..512 (src/headers/editor.h:70), and n = 0 divides by zero in the step (src/sphere.cpp:94).
- `SetRadius`, `SetSquares`, `SetPosition`, `GetTinv`, `GetVerts` and `GetSegments` ask for `Valid()`, the invariant the constructor establishes. `SetColour`, `Project`, `GetProject` and `GetRadius` do not need it: the constructor calls `set_colour` before the mesh is built (src/sphere.cpp:8-10), and their frames leave `Valid()` intact.
- The 32-bit arithmetic of the index computations: for n <= 512 every value is below 2^31, so no wrap-around is modelled.
- `normals` is declared but only ever cleared: the model keeps it and proves it empty after a build.
- The GL handles `vao`, `vbo`, `ebo` and the shader object (src/headers/sphere.h:38, 58) are not fields of the model class.
- Watertightness in full (every edge shared by exactly two triangles) is not proved. `BeltCloses`, `TopSeam`/`BottomSeam` and `BottomMirrorsTop` state the seam facts it rests on.
