/** The numbering of elements and nodes in the block of one rank. */
module MeshNodes {
  import opened Arithmetic

  // The steps from an element's first corner to corner `j`.
  function CornerStep(j: nat): (int, int, int)
    requires j < 8
  {
    match j
    case 0 => (0, 0, 0)
    case 1 => (1, 0, 0)
    case 2 => (1, 1, 0)
    case 3 => (0, 1, 0)
    case 4 => (0, 0, 1)
    case 5 => (1, 0, 1)
    case 6 => (1, 1, 1)
    case _ => (0, 1, 1)
  }

  /** The node at corner `j` of the element in column `x`, row `y`, plane `z`. */
  function CornerNode(n: nat, z: nat, y: nat, x: nat, j: nat): int
    requires j < 8
  {
    var (dx, dy, dz) := CornerStep(j);
    Flat(z + dz, y + dy, x + dx, n + 1, n + 1)
  }

  lemma CornerNodeInMesh(n: nat, z: nat, y: nat, x: nat, j: nat)
    requires x < n && y < n && z < n && j < 8
    ensures 0 <= CornerNode(n, z, y, x, j) < (n + 1) * ((n + 1) * (n + 1))
  {
    var (dx, dy, dz) := CornerStep(j);
    FlatDigits(z + dz, y + dy, x + dx, n + 1, n + 1, n + 1);
  }

  /** From the first corner on, the corners 0 to 3 go once round the lower face of the element: one node on along the
      row, one row on, and back; and the corners 4 to 7 lie one plane of nodes above them. */
  lemma CornersGoRound(n: nat, z: nat, y: nat, x: nat, j: nat)
    requires j < 4
    ensures CornerNode(n, z, y, x, 0) == (z * (n + 1) + y) * (n + 1) + x
    ensures CornerNode(n, z, y, x, (j + 1) % 4) - CornerNode(n, z, y, x, j)
         == if j == 0 then 1 else if j == 1 then n + 1 else if j == 2 then 0 - 1 else 0 - (n + 1)
    ensures CornerNode(n, z, y, x, j + 4) - CornerNode(n, z, y, x, j) == (n + 1) * (n + 1)
  {
    var m := n + 1;
    assert (z * m + (y + 1)) * m == (z * m + y) * m + m;
    assert ((z + 1) * m + y) * m == (z * m + y) * m + m * m;
    assert ((z + 1) * m + (y + 1)) * m == (z * m + y) * m + m * m + m;
  }

  /** Two elements share a corner: corner `i` of one is corner `j` of the other. */
  predicate Shares(n: nat, z: nat, y: nat, x: nat, i: nat, z': nat, y': nat, x': nat, j: nat)
    requires i < 8 && j < 8
  {
    CornerNode(n, z, y, x, i) == CornerNode(n, z', y', x', j)
  }

  /** Neighbouring elements share the nodes of the face between them. */
  lemma NeighboursShareCorners(n: nat, z: nat, y: nat, x: nat)
    ensures Shares(n, z, y, x, 1, z, y, x + 1, 0) && Shares(n, z, y, x, 2, z, y, x + 1, 3)
    ensures Shares(n, z, y, x, 5, z, y, x + 1, 4) && Shares(n, z, y, x, 6, z, y, x + 1, 7)
    ensures Shares(n, z, y, x, 3, z, y + 1, x, 0) && Shares(n, z, y, x, 2, z, y + 1, x, 1)
    ensures Shares(n, z, y, x, 7, z, y + 1, x, 4) && Shares(n, z, y, x, 6, z, y + 1, x, 5)
    ensures Shares(n, z, y, x, 4, z + 1, y, x, 0) && Shares(n, z, y, x, 5, z + 1, y, x, 1)
    ensures Shares(n, z, y, x, 6, z + 1, y, x, 2) && Shares(n, z, y, x, 7, z + 1, y, x, 3)
  {
    hide Flat;
  }

  /** The eight corners of an element are different nodes, so an element stands at most once in a node's slice. */
  lemma CornersDiffer(n: nat, z: nat, y: nat, x: nat, i: nat, j: nat)
    requires x < n && y < n && z < n && i < 8 && j < 8 && CornerNode(n, z, y, x, i) == CornerNode(n, z, y, x, j)
    ensures i == j
  {
    var (dx, dy, dz) := CornerStep(i);
    var (ex, ey, ez) := CornerStep(j);
    FlatDigits(z + dz, y + dy, x + dx, n + 1, n + 1, n + 1);
    FlatDigits(z + ez, y + ey, x + ex, n + 1, n + 1, n + 1);
    hide Flat, LowDigit, MiddleDigit, HighDigit;
  }

  /** Element `k` of the list of nodes has its eight corners right. */
  ghost predicate ElementIs(n: nat, nodelist: seq<nat>, k: nat)
    requires n > 0
  {
    8 * k + 8 <= |nodelist| &&
    forall j: nat :: j < 8 ==>
      nodelist[8 * k + j] == CornerNode(n, HighDigit(k, n, n), MiddleDigit(k, n, n), LowDigit(k, n), j)
  }

  /** Numbers the corners of all elements with running element and node indices. */
  method BuildMesh(edgeElems: nat) returns (nodelist: array<nat>)
    requires edgeElems > 0
    ensures fresh(nodelist) && nodelist.Length == 8 * (edgeElems * (edgeElems * edgeElems))
    ensures forall k: nat :: 8 * k < nodelist.Length ==> ElementIs(edgeElems, nodelist[..], k)
  {
    hide Flat, ElementIs;
    var n, edgeNodes := edgeElems, edgeElems + 1;
    ghost var size := n * (n * n);
    nodelist := new nat[8 * (n * (n * n))];
    var zidx, nidx := 0, 0;
    FirstOfAll(n);
    for plane := 0 to n
      invariant zidx == Flat(plane, 0, 0, n, n) && nidx == Flat(plane, 0, 0, n + 1, n + 1)
      invariant nodelist.Length == 8 * size
      invariant forall k: nat :: k < zidx ==> ElementIs(n, nodelist[..], k)
    {
      for row := 0 to n
        invariant zidx == Flat(plane, row, 0, n, n) && nidx == Flat(plane, row, 0, n + 1, n + 1)
        invariant nodelist.Length == 8 * size
        invariant forall k: nat :: k < zidx ==> ElementIs(n, nodelist[..], k)
      {
        for col := 0 to n
          invariant zidx == Flat(plane, row, col, n, n) && nidx == Flat(plane, row, col, n + 1, n + 1)
          invariant nodelist.Length == 8 * size
          invariant forall k: nat :: k < zidx ==> ElementIs(n, nodelist[..], k)
        {
          ElementInList(n, plane, row, col);
          SetElement(n, nodelist, zidx, nidx, plane, row, col);
          NextColumn(plane, row, col, n);
          zidx, nidx := zidx + 1, nidx + 1;
        }
        NextRow(plane, row, n);
        nidx := nidx + 1;
      }
      NextPlane(plane, n);
      nidx := nidx + edgeNodes;
    }
    LastOfAll(n);
  }

  method SetElement(n: nat, nodelist: array<nat>, zidx: nat, nidx: nat, ghost z: nat, ghost y: nat, ghost x: nat)
    requires x < n && y < n && z < n && zidx == Flat(z, y, x, n, n) && nidx == Flat(z, y, x, n + 1, n + 1)
    requires 8 * zidx + 8 <= nodelist.Length && forall k: nat :: k < zidx ==> ElementIs(n, nodelist[..], k)
    modifies nodelist
    ensures forall k: nat :: k <= zidx ==> ElementIs(n, nodelist[..], k)
  {
    hide Flat, LowDigit, MiddleDigit, HighDigit, CornerNode;
    CornerOffsets(n, z, y, x);
    FlatDigits(z, y, x, n, n, n);
    var edgeNodes, at := n + 1, 8 * zidx;
    nodelist[at] := nidx;
    nodelist[at + 1] := nidx + 1;
    nodelist[at + 2] := nidx + edgeNodes + 1;
    nodelist[at + 3] := nidx + edgeNodes;
    nodelist[at + 4] := nidx + edgeNodes * edgeNodes;
    nodelist[at + 5] := nidx + edgeNodes * edgeNodes + 1;
    nodelist[at + 6] := nidx + edgeNodes * edgeNodes + edgeNodes + 1;
    nodelist[at + 7] := nidx + edgeNodes * edgeNodes + edgeNodes;
    forall k: nat | k <= zidx ensures ElementIs(n, nodelist[..], k) {
      if k < zidx {
        assert old(ElementIs(n, nodelist[..], k));
      }
    }
  }

  lemma CornerOffsets(n: nat, z: nat, y: nat, x: nat)
    ensures var first := Flat(z, y, x, n + 1, n + 1);
            && CornerNode(n, z, y, x, 0) == first && CornerNode(n, z, y, x, 1) == first + 1
            && CornerNode(n, z, y, x, 2) == first + (n + 1) + 1 && CornerNode(n, z, y, x, 3) == first + (n + 1)
            && CornerNode(n, z, y, x, 4) == first + (n + 1) * (n + 1)
            && CornerNode(n, z, y, x, 5) == first + (n + 1) * (n + 1) + 1
            && CornerNode(n, z, y, x, 6) == first + (n + 1) * (n + 1) + (n + 1) + 1
            && CornerNode(n, z, y, x, 7) == first + (n + 1) * (n + 1) + (n + 1)
  {
    var m := n + 1;
    assert (z * m + (y + 1)) * m == (z * m + y) * m + m;
    assert ((z + 1) * m + y) * m == (z * m + y) * m + m * m;
    assert ((z + 1) * m + (y + 1)) * m == (z * m + y) * m + m * m + m;
  }

  lemma FirstOfAll(n: nat)
    ensures Flat(0, 0, 0, n, n) == 0 && Flat(0, 0, 0, n + 1, n + 1) == 0
  {
  }

  lemma ElementInList(n: nat, z: nat, y: nat, x: nat)
    requires x < n && y < n && z < n
    ensures 8 * Flat(z, y, x, n, n) + 8 <= 8 * (n * (n * n))
  {
    FlatDigits(z, y, x, n, n, n);
    hide Flat;
  }

  lemma NextColumn(z: nat, y: nat, x: nat, n: nat)
    ensures Flat(z, y, x + 1, n, n) == Flat(z, y, x, n, n) + 1
    ensures Flat(z, y, x + 1, n + 1, n + 1) == Flat(z, y, x, n + 1, n + 1) + 1
  {
  }

  lemma NextRow(z: nat, y: nat, n: nat)
    ensures Flat(z, y + 1, 0, n, n) == Flat(z, y, n, n, n)
    ensures Flat(z, y + 1, 0, n + 1, n + 1) == Flat(z, y, n, n + 1, n + 1) + 1
  {
    assert (z * n + (y + 1)) * n == (z * n + y) * n + n;
    assert (z * (n + 1) + (y + 1)) * (n + 1) == (z * (n + 1) + y) * (n + 1) + (n + 1);
  }

  lemma NextPlane(z: nat, n: nat)
    ensures Flat(z + 1, 0, 0, n, n) == Flat(z, n, 0, n, n)
    ensures Flat(z + 1, 0, 0, n + 1, n + 1) == Flat(z, n, 0, n + 1, n + 1) + (n + 1)
  {
    assert (z + 1) * n == z * n + n && (z + 1) * (n + 1) == z * (n + 1) + n + 1;
    assert (z * (n + 1) + n + 1) * (n + 1) == (z * (n + 1) + n) * (n + 1) + (n + 1);
  }

  lemma LastOfAll(n: nat)
    ensures Flat(n, 0, 0, n, n) == n * (n * n)
  {
    MulAssoc(n, n, n);
  }

  /** All entries of the list of nodes are nodes of the block. */
  lemma NodesAreInMesh(n: nat, nodelist: seq<nat>, k: nat)
    requires n > 0 && |nodelist| == 8 * (n * (n * n)) && k < |nodelist|
    requires forall i: nat :: 8 * i < |nodelist| ==> ElementIs(n, nodelist, i)
    ensures nodelist[k] < (n + 1) * ((n + 1) * (n + 1))
  {
    var i, j := k / 8, k % 8;
    assert ElementIs(n, nodelist, i);
    assert nodelist[8 * i + j] == CornerNode(n, HighDigit(i, n, n), MiddleDigit(i, n, n), LowDigit(i, n), j);
    DigitsFlat(i, n, n, n);
    CornerNodeInMesh(n, HighDigit(i, n, n), MiddleDigit(i, n, n), LowDigit(i, n), j);
  }
}
