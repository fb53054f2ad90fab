/**
  The remap tables build_vertices fills before it stitches the caps. Each
  table has one entry per cell of the logical (n + 1) x (n + 1) grid of a cap
  and holds the real vertex index standing at that cell: the border from the
  ring the belt already emitted, the interior from the cap's own block,
  counted up one at a time. The cells are written in increasing order, so
  each loop keeps "every cell so far is right" as its invariant.
*/
module CapMaps {
  import opened Lattice
  import opened CubeVertices
  import opened CubeTriangles
  import opened MeshProperties

  /** The first `done` cells of top_map hold their final values. */
  predicate TopPrefix(n: int, topMap: array<int>, done: int)
    requires n >= 1 && 0 <= done <= GridCells(n) == topMap.Length
    reads topMap
  {
    forall k :: 0 <= k < done ==> topMap[k] == TopEntry(n, k)
  }

  /** The first `done` cells of btm_map hold their final values. */
  predicate BottomPrefix(n: int, btmMap: array<int>, done: int)
    requires n >= 1 && 0 <= done <= GridCells(n) == btmMap.Length
    reads btmMap
  {
    forall k :: 0 <= k < done ==> btmMap[k] == BottomEntry(n, k)
  }

  /** Builds top_map: every cell names the vertex at its point of the top face. */
  method BuildTopMap(n: int) returns (topMap: array<int>)
    requires n >= 1
    ensures topMap.Length == GridCells(n)
    ensures forall cell :: 0 <= cell < GridCells(n) ==> topMap[cell] == TopEntry(n, cell)
  {
    MapConstants(n);
    topMap := new int[(n + 1) * (n + 1)](_ => 0);
    FillTopFirstRow(n, topMap);
    FillTopMiddleRows(n, topMap);
    FillTopLastRow(n, topMap, n * (n + 1));
  }

  /** The constants build_vertices starts its remap loops from. */
  lemma MapConstants(n: int)
    requires n >= 1
    ensures 4 * n * (1 + n) == FirstTop(n)
    ensures 4 * n * (1 + n) + (n - 1) * (n - 1) == FirstBottom(n)
    ensures (n + 1) * (n + 1) == GridCells(n) && n + 1 <= n * (n + 1) <= GridCells(n)
  {
    MulMono(1, n, n + 1);
    MulSucc(n, n + 1);
  }

  /** The middle rows of top_map: a ring vertex, the interior block, a ring vertex. */
  method FillTopMiddleRows(n: int, topMap: array<int>)
    requires n >= 1 && GridCells(n) == topMap.Length
    requires TopPrefix(n, topMap, n + 1)
    modifies topMap
    ensures TopPrefix(n, topMap, n * (n + 1))
  {
    MapConstants(n);
    var firstTopIndex := 4 * n * (1 + n);
    var done := n + 1;
    for i := 0 to n - 1
      invariant done == (i + 1) * (n + 1) && done <= GridCells(n)
      invariant firstTopIndex == FirstTop(n) + i * (n - 1)
      invariant TopPrefix(n, topMap, done)
    {
      MulSucc(i + 1, n + 1);
      MulMono(i + 2, n + 1, n + 1);
      firstTopIndex := FillTopRow(n, topMap, i, done, firstTopIndex);
      done := done + (n + 1);
      MulSucc(i, n - 1);
    }
  }

  /** The first row of top_map is ring 0 from its start. */
  method FillTopFirstRow(n: int, topMap: array<int>)
    requires n >= 1 && GridCells(n) == topMap.Length
    modifies topMap
    ensures TopPrefix(n, topMap, n + 1)
  {
    MulMono(1, n + 1, n + 1);
    for i := 0 to n + 1
      invariant TopPrefix(n, topMap, i)
    {
      TopMapFormula(n, 0, i, i);
      topMap[i] := i;
    }
  }

  /** The last row of top_map is ring 0 running back from offset 3n. */
  method FillTopLastRow(n: int, topMap: array<int>, done: int)
    requires n >= 1 && GridCells(n) == topMap.Length && done == n * (n + 1)
    requires TopPrefix(n, topMap, done)
    modifies topMap
    ensures TopPrefix(n, topMap, GridCells(n))
  {
    var lastRow := (n + 1) * n;
    MulSucc(n, n + 1);
    for i := 0 to n + 1
      invariant TopPrefix(n, topMap, lastRow + i)
    {
      TopMapFormula(n, n, i, lastRow + i);
      topMap[lastRow + i] := 3 * n - i;
    }
  }

  /** Fills middle row i + 1 of top_map: offset 4n - (i + 1) of ring 0, an interior row, offset n + i + 1. */
  method FillTopRow(n: int, topMap: array<int>, i: int, done: int, firstTopIndex: int) returns (next: int)
    requires n >= 1 && 0 <= i < n - 1 && done == (i + 1) * (n + 1) && done + n + 1 <= GridCells(n) == topMap.Length
    requires firstTopIndex == FirstTop(n) + i * (n - 1)
    requires TopPrefix(n, topMap, done)
    modifies topMap
    ensures TopPrefix(n, topMap, done + n + 1)
    ensures next == firstTopIndex + (n - 1)
  {
    var fakeIndex := done;
    next := firstTopIndex;
    TopMapFormula(n, i + 1, 0, fakeIndex);
    topMap[fakeIndex] := 4 * n - (i + 1);
    for j := 0 to n - 1
      invariant next == firstTopIndex + j
      invariant TopPrefix(n, topMap, fakeIndex + 1 + j)
    {
      TopMapFormula(n, i + 1, j + 1, fakeIndex + 1 + j);
      topMap[fakeIndex + 1 + j] := next;
      next := next + 1;
    }
    TopMapFormula(n, i + 1, n, fakeIndex + n);
    topMap[fakeIndex + n] := n + i + 1;
  }

  /** Builds btm_map: every cell names the vertex at its point of the bottom face. */
  method BuildBottomMap(n: int) returns (btmMap: array<int>)
    requires n >= 1
    ensures btmMap.Length == GridCells(n)
    ensures forall cell :: 0 <= cell < GridCells(n) ==> btmMap[cell] == BottomEntry(n, cell)
  {
    MapConstants(n);
    var edgeIndex := 4 * n * n;
    btmMap := new int[(n + 1) * (n + 1)](_ => 0);
    FillBottomFirstRow(n, btmMap, edgeIndex);
    FillBottomMiddleRows(n, btmMap);
    FillBottomLastRow(n, btmMap, n * (n + 1));
  }

  /** The middle rows of btm_map. */
  method FillBottomMiddleRows(n: int, btmMap: array<int>)
    requires n >= 1 && GridCells(n) == btmMap.Length
    requires BottomPrefix(n, btmMap, n + 1)
    modifies btmMap
    ensures BottomPrefix(n, btmMap, n * (n + 1))
  {
    MapConstants(n);
    var firstBtmIndex := 4 * n * (1 + n) + (n - 1) * (n - 1);
    var done := n + 1;
    for i := 0 to n - 1
      invariant done == (i + 1) * (n + 1) && done <= GridCells(n)
      invariant firstBtmIndex == FirstBottom(n) + i * (n - 1)
      invariant BottomPrefix(n, btmMap, done)
    {
      MulSucc(i + 1, n + 1);
      MulMono(i + 2, n + 1, n + 1);
      firstBtmIndex := FillBottomRow(n, btmMap, i, done, firstBtmIndex);
      done := done + (n + 1);
      MulSucc(i, n - 1);
    }
  }

  /** The first row of btm_map is ring n from its start, edge_index = 4n^2. */
  method FillBottomFirstRow(n: int, btmMap: array<int>, edgeIndex: int)
    requires n >= 1 && GridCells(n) == btmMap.Length && edgeIndex == 4 * n * n
    modifies btmMap
    ensures BottomPrefix(n, btmMap, n + 1)
  {
    MulMono(1, n + 1, n + 1);
    for i := 0 to n + 1
      invariant BottomPrefix(n, btmMap, i)
    {
      BottomMapFormula(n, 0, i, i);
      btmMap[i] := edgeIndex + i;
    }
  }

  /** The last row of btm_map is ring n running back from offset 3n. */
  method FillBottomLastRow(n: int, btmMap: array<int>, done: int)
    requires n >= 1 && GridCells(n) == btmMap.Length && done == n * (n + 1)
    requires BottomPrefix(n, btmMap, done)
    modifies btmMap
    ensures BottomPrefix(n, btmMap, GridCells(n))
  {
    var lastRow := (n + 1) * n;
    MulSucc(n, n + 1);
    for i := 0 to n + 1
      invariant BottomPrefix(n, btmMap, lastRow + i)
    {
      BottomMapFormula(n, n, i, lastRow + i);
      btmMap[lastRow + i] := 4 * (n + 1) * n - n - i;
    }
  }

  /** Fills middle row i + 1 of btm_map: offset 4n - (i + 1) of ring n, an interior row, offset n + i + 1. */
  method FillBottomRow(n: int, btmMap: array<int>, i: int, done: int, firstBtmIndex: int) returns (next: int)
    requires n >= 1 && 0 <= i < n - 1 && done == (i + 1) * (n + 1) && done + n + 1 <= GridCells(n) == btmMap.Length
    requires firstBtmIndex == FirstBottom(n) + i * (n - 1)
    requires BottomPrefix(n, btmMap, done)
    modifies btmMap
    ensures BottomPrefix(n, btmMap, done + n + 1)
    ensures next == firstBtmIndex + (n - 1)
  {
    var fakeIndex := done;
    next := firstBtmIndex;
    BottomMapFormula(n, i + 1, 0, fakeIndex);
    btmMap[fakeIndex] := 4 * n * (n + 1) - (i + 1);
    for j := 0 to n - 1
      invariant next == firstBtmIndex + j
      invariant BottomPrefix(n, btmMap, fakeIndex + 1 + j)
    {
      BottomMapFormula(n, i + 1, j + 1, fakeIndex + 1 + j);
      btmMap[fakeIndex + 1 + j] := next;
      next := next + 1;
    }
    BottomMapFormula(n, i + 1, n, fakeIndex + n);
    btmMap[fakeIndex + n] := 4 * n * n + n + i + 1;
  }
}
