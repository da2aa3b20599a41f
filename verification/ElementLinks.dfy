/** Links from each element to its six neighbours, and the boundary flag of each side. */
module ElementLinks {
  import opened Arithmetic
  import opened HaloGeometry
  import opened HaloMessages
  import opened HaloSides

  /** The exchange of element gradients: three fields of an n * n * n block, faces only. */
  predicate Elemental(e: Exchange) {
    Fits(e) && e.planeOnly && e.fields == 3 && e.dx == e.dy == e.dz == e.nx
  }

  // ----- boundary flags

  // What lies across a side of an element: another element of the block, a symmetry plane, a free surface,
  // or an element of another rank.
  datatype Bound = Inner | Symm | Free | Comm

  /** The three bits of elemBC that belong to a side. */
  function Mask(s: nat): bv32
    requires s < 6
  {
    match s
    case 0 => 0x07000
    case 1 => 0x38000
    case 2 => 0x001C0
    case 3 => 0x00E00
    case 4 => 0x00007
    case _ => 0x00038
  }

  function Bit(s: nat, b: Bound): bv32
    requires s < 6
  {
    match b
    case Inner => 0
    case Symm => (
      match s
      case 0 => 0x01000
      case 1 => 0x08000
      case 2 => 0x00040
      case 3 => 0x00200
      case 4 => 0x00001
      case _ => 0x00008)
    case Free => (
      match s
      case 0 => 0x02000
      case 1 => 0x10000
      case 2 => 0x00080
      case 3 => 0x00400
      case 4 => 0x00002
      case _ => 0x00010)
    case Comm => (
      match s
      case 0 => 0x04000
      case 1 => 0x20000
      case 2 => 0x00100
      case 3 => 0x00800
      case 4 => 0x00004
      case _ => 0x00020)
  }

  /** The flags of one side, as the switch statements of the limiter read them. */
  function Under(flags: bv32, s: nat): bv32
    requires s < 6
  {
    flags & Mask(s)
  }

  function With(flags: bv32, s: nat, b: Bound): bv32
    requires s < 6
  {
    flags | Bit(s, b)
  }

  lemma BitShows(flags: bv32, s: nat, b: Bound)
    requires s < 6 && flags & Mask(s) == 0
    ensures (flags | Bit(s, b)) & Mask(s) == Bit(s, b)
  {
    match s { case 0 => case 1 => case 2 => case 3 => case 4 => case _ => }
  }

  /** Setting a flag of one side shows under that side's mask. */
  lemma FlagShows(flags: bv32, s: nat, b: Bound)
    requires s < 6 && Under(flags, s) == 0
    ensures Under(With(flags, s, b), s) == Bit(s, b)
  {
    BitShows(flags, s, b);
    hide Bit, Mask;
  }

  /** Setting a flag of one side leaves the other sides alone. */
  lemma OtherFlagsStay(flags: bv32, s: nat, b: Bound, r: nat)
    requires s < 6 && r < 6 && r != s
    ensures Under(With(flags, s, b), r) == Under(flags, r)
  {
    match s { case 0 => case 1 => case 2 => case 3 => case 4 => case _ => }
    match r { case 0 => case 1 => case 2 => case 3 => case 4 => case _ => }
  }

  /** The flag can be read back. */
  lemma FlagsAreDistinct(s: nat, b: Bound, c: Bound)
    requires s < 6 && Bit(s, b) == Bit(s, c)
    ensures b == c
  {
  }

  // ----- elements on a side

  /** The element that the boundary loops visit on side `s` in row `i`, column `j`. */
  function ElemAt(n: nat, s: nat, i: nat, j: nat): int
    requires s < 6
  {
    match s
    case 0 => i * n + j
    case 1 => i * n + j + n * n * n - n * n
    case 2 => i * n * n + j
    case 3 => i * n * n + j + n * n - n
    case 4 => i * n * n + j * n
    case _ => i * n * n + j * n + n - 1
  }

  function SideCellAt(n: nat, s: nat, i: nat, j: nat): Cell
    requires s < 6
  {
    match s
    case 0 => Cell(j, i, 0)
    case 1 => Cell(j, i, n - 1)
    case 2 => Cell(j, 0, i)
    case 3 => Cell(j, n - 1, i)
    case 4 => Cell(0, j, i)
    case _ => Cell(n - 1, j, i)
  }

  function PlaneSize(e: Exchange): nat { e.nx * e.nx }

  lemma SideIsSquare(e: Exchange, s: nat)
    requires Elemental(e) && s < 6
    ensures SideSize(e, DirAt(s)) == PlaneSize(e) && Order(DirAt(s)) == 1
  {
  }

  lemma SideCellOnSide(e: Exchange, s: nat, i: nat, j: nat)
    requires Elemental(e) && s < 6 && i < e.nx && j < e.nx
    ensures OnSide(e, DirAt(s), SideCellAt(e.nx, s, i, j)) && InBlock(e, SideCellAt(e.nx, s, i, j))
    ensures SidePos(e, DirAt(s), SideCellAt(e.nx, s, i, j)) == i * e.nx + j
  {
    var n := e.nx;
    assert (0 * n + i) * n + j == i * n + j && (i * 1 + 0) * n + j == i * n + j && (i * n + j) * 1 + 0 == i * n + j;
  }

  lemma ElemIsSideCell(e: Exchange, s: nat, i: nat, j: nat)
    requires Elemental(e) && s < 6
    ensures ElemAt(e.nx, s, i, j) == NodeIndex(e, SideCellAt(e.nx, s, i, j))
  {
    var n := e.nx;
    assert (0 * n + i) * n + j == i * n + j;
    assert ((n - 1) * n + i) * n + j == n * n * n - n * n + i * n + j;
    assert (i * n + 0) * n + j == i * n * n + j;
    assert (i * n + (n - 1)) * n + j == i * n * n + n * n - n + j;
    assert (i * n + j) * n == i * n * n + j * n;
  }

  /** The visited element is the only one at its position of the side. */
  lemma VisitedElement(e: Exchange, s: nat, i: nat, j: nat)
    requires Elemental(e) && s < 6 && i < e.nx && j < e.nx
    ensures 0 <= ElemAt(e.nx, s, i, j) < BlockSize(e)
    ensures CellOf(e, ElemAt(e.nx, s, i, j)) == SideCellAt(e.nx, s, i, j)
    ensures forall k: nat :: k < BlockSize(e) && OnSide(e, DirAt(s), CellOf(e, k)) ==>
              (SidePos(e, DirAt(s), CellOf(e, k)) == i * e.nx + j <==> k == ElemAt(e.nx, s, i, j))
  {
    var c := SideCellAt(e.nx, s, i, j);
    SideCellOnSide(e, s, i, j);
    ElemIsSideCell(e, s, i, j);
    NodeOfCell(e, c);
    hide SideCellAt, ElemAt, SidePos, DirAt, OnSide, CellOf, NodeIndex, BlockSize;
    forall k: nat | k < BlockSize(e) && OnSide(e, DirAt(s), CellOf(e, k))
      ensures SidePos(e, DirAt(s), CellOf(e, k)) == i * e.nx + j <==> k == ElemAt(e.nx, s, i, j)
    {
      CellOfNode(e, k);
      PosOfCell(e, DirAt(s), CellOf(e, k));
      PosOfCell(e, DirAt(s), c);
    }
  }

  lemma VisitedInBlock(e: Exchange, s: nat, i: nat, j: nat)
    requires Elemental(e) && s < 6 && i < e.nx && j < e.nx
    ensures 0 <= ElemAt(e.nx, s, i, j) < BlockSize(e)
  {
    hide ElemAt, BlockSize, DirAt, OnSide;
    VisitedElement(e, s, i, j);
  }

  // ----- links

  function Stride(n: nat, s: nat): nat { if s < 2 then n * n else if s < 4 then n else 1 }

  /** The link inside the block; an element with none there links to itself. */
  function InnerLink(n: nat, s: nat, size: nat, k: nat): int {
    var w := Stride(n, s);
    if s % 2 == 0 then (if k < w then k else k - w)
    else if k + w >= size then k else k + w
  }

  /** The side opposite to `s`. */
  function Across(s: nat): nat { if s % 2 == 0 then s + 1 else s - 1 }

  /** The links of opposite sides undo each other, also where they wrap from one row of the block to the next. Only
      the first elements of the block link to themselves on the lower sides, and only the last on the upper ones,
      one for each step of the stride: 1 along rows, the size of a row along columns and of a plane across. */
  lemma InnerLinksPair(n: nat, s: nat, size: nat, k: nat, j: nat)
    requires n >= 1 && s < 6 && k < size && j < size
    ensures 0 <= InnerLink(n, s, size, k) < size
    ensures j != k ==> (InnerLink(n, s, size, k) == j <==> InnerLink(n, Across(s), size, j) == k)
    ensures InnerLink(n, s, size, k) == k <==>
            var step := if s < 2 then n * n else if s < 4 then n else 1;
            if s % 2 == 0 then k < step else k + step >= size
  {
    MulNonNegative(n, n);
    MulAtLeast(1, n, n);
  }

  /** Where the ghost elements of side `s` start in the element fields. */
  function GhostStart(e: Exchange, a: Place, s: nat): nat
    requires s <= 6
  {
    hide BlockSize, Exists, DirAt;
    if s == 0 then BlockSize(e)
    else GhostStart(e, a, s - 1) + if Exists(e, a, DirAt(s - 1)) then PlaneSize(e) else 0
  }

  function BoundOf(e: Exchange, a: Place, s: nat, k: nat): Bound
    requires Elemental(e) && s < 6
  {
    if !OnSide(e, DirAt(s), CellOf(e, k)) then Inner
    else if Exists(e, a, DirAt(s)) then Comm
    else if s % 2 == 0 then Symm else Free
  }

  function LinkOf(e: Exchange, a: Place, s: nat, k: nat): int
    requires Elemental(e) && s < 6
  {
    if BoundOf(e, a, s, k) == Comm then GhostStart(e, a, s) + SidePos(e, DirAt(s), CellOf(e, k))
    else InnerLink(e.nx, s, BlockSize(e), k)
  }

  /** The boundary loops have treated element `k` on side `s`, when all positions before `t` and, at `t`
      itself, all sides before `q` are done. */
  predicate Marked(e: Exchange, s: nat, k: nat, t: nat, q: nat)
    requires Elemental(e) && s < 6
  {
    && OnSide(e, DirAt(s), CellOf(e, k))
    && (SidePos(e, DirAt(s), CellOf(e, k)) < t || (SidePos(e, DirAt(s), CellOf(e, k)) == t && s < q))
  }

  /** The link and the flags of side `s` of element `k` are right, as far as the boundary loops have come. */
  ghost predicate Right(e: Exchange, a: Place, s: nat, k: nat, t: nat, q: nat, link: int, flags: bv32)
    requires Elemental(e) && s < 6
  {
    && link == (if Marked(e, s, k, t, q) then LinkOf(e, a, s, k) else InnerLink(e.nx, s, BlockSize(e), k))
    && Under(flags, s) == (if Marked(e, s, k, t, q) then Bit(s, BoundOf(e, a, s, k)) else 0)
  }

  class Connectivity {
    const e: Exchange
    const a: Place
    const link: array2<int>
    const elemBC: array<bv32>

    ghost predicate Valid() {
      && Elemental(e) && InGrid(e.tp, a)
      && link.Length0 == 6 && link.Length1 == BlockSize(e) == elemBC.Length
    }

    constructor (e: Exchange, a: Place)
      requires Elemental(e) && InGrid(e.tp, a)
      ensures Valid() && fresh(link) && fresh(elemBC) && this.e == e && this.a == a
    {
      this.e, this.a := e, a;
      link := new int[6, BlockSize(e)];
      elemBC := new bv32[BlockSize(e)];
    }

    ghost predicate InnerLinked(s: nat)
      requires Valid() && s < 6
      reads link
    {
      forall k: nat :: k < BlockSize(e) ==> link[s, k] == InnerLink(e.nx, s, BlockSize(e), k)
    }

    /** Links each element with the neighbours inside the block. */
    method SetupElementConnectivities()
      requires Valid()
      modifies link
      ensures forall s: nat :: s < 6 ==> InnerLinked(s)
    {
      BlockHoldsPlanes(e);
      hide BlockSize;
      ConnectAxis(4, 1);
      ConnectAxis(2, e.nx);
      ConnectAxis(0, e.nx * e.nx);
    }

    ghost predicate LinkedFrom(s: nat, lo: int, hi: int)
      requires Valid() && s < 6
      reads link
    {
      forall k: nat :: lo <= k < hi && k < BlockSize(e) ==> link[s, k] == InnerLink(e.nx, s, BlockSize(e), k)
    }

    method ConnectAxis(s: nat, w: nat)
      requires Valid() && s in {0, 2, 4} && w == Stride(e.nx, s) && 1 <= w <= BlockSize(e)
      modifies link
      ensures InnerLinked(s) && InnerLinked(s + 1)
      ensures forall r: nat, k: nat :: r < 6 && r != s && r != s + 1 && k < BlockSize(e) ==>
                link[r, k] == old(link[r, k])
    {
      hide BlockSize, Stride, Elemental, InnerLink;
      ConnectEnds(s, w);
      ConnectInner(s, w);
    }

    /** The first `w` and the last `w` elements link to themselves. */
    method ConnectEnds(s: nat, w: nat)
      requires Valid() && s in {0, 2, 4} && w == Stride(e.nx, s) && 1 <= w <= BlockSize(e)
      modifies link
      ensures LinkedFrom(s, 0, w) && LinkedFrom(s + 1, BlockSize(e) - w, BlockSize(e))
      ensures forall r: nat, k: nat :: r < 6 && r != s && r != s + 1 && k < BlockSize(e) ==>
                link[r, k] == old(link[r, k])
    {
      SameStride(e.nx, s);
      hide BlockSize, Stride, Elemental;
      var numElem := link.Length1;
      for i := 0 to w
        invariant LinkedFrom(s, 0, i) && LinkedFrom(s + 1, numElem - w, numElem - w + i)
        invariant forall r: nat, k: nat :: r < 6 && r != s && r != s + 1 && k < numElem ==>
                    link[r, k] == old(link[r, k])
      {
        link[s, i] := i;
        link[s + 1, numElem - w + i] := numElem - w + i;
      }
    }

    method ConnectInner(s: nat, w: nat)
      requires Valid() && s in {0, 2, 4} && w == Stride(e.nx, s) && 1 <= w <= BlockSize(e)
      requires LinkedFrom(s, 0, w) && LinkedFrom(s + 1, BlockSize(e) - w, BlockSize(e))
      modifies link
      ensures LinkedFrom(s, 0, BlockSize(e)) && LinkedFrom(s + 1, 0, BlockSize(e))
      ensures forall r: nat, k: nat :: r < 6 && r != s && r != s + 1 && k < BlockSize(e) ==>
                link[r, k] == old(link[r, k])
    {
      SameStride(e.nx, s);
      hide BlockSize, Stride, Elemental;
      var numElem := link.Length1;
      for i := w to numElem
        invariant LinkedFrom(s, 0, i) && LinkedFrom(s + 1, 0, i - w) && LinkedFrom(s + 1, numElem - w, numElem)
        invariant forall r: nat, k: nat :: r < 6 && r != s && r != s + 1 && k < numElem ==>
                    link[r, k] == old(link[r, k])
      {
        link[s, i] := i - w;
        link[s + 1, i - w] := i;
      }
    }

    ghost predicate BoundedAt(s: nat, k: nat, t: nat, q: nat)
      requires Valid() && s < 6 && k < BlockSize(e)
      reads link, elemBC
    {
      Right(e, a, s, k, t, q, link[s, k], elemBC[k])
    }

    /** All sides of all elements are right, as far as the boundary loops have come. */
    ghost predicate Bounded(t: nat, q: nat)
      requires Valid()
      reads link, elemBC
    {
      forall s: nat, k: nat :: s < 6 && k < BlockSize(e) ==> BoundedAt(s, k, t, q)
    }

    ghost predicate Done(s: nat, k: nat)
      requires Valid() && s < 6 && k < BlockSize(e)
      reads link, elemBC
    {
      link[s, k] == LinkOf(e, a, s, k) && Under(elemBC[k], s) == Bit(s, BoundOf(e, a, s, k))
    }

    /** Sets the boundary flags, and redirects links that leave the block to the ghost elements. */
    method SetupBoundaryConditions()
      requires Valid() && forall s: nat :: s < 6 ==> InnerLinked(s)
      modifies link, elemBC
      ensures forall s: nat, k: nat :: s < 6 && k < BlockSize(e) ==> Done(s, k)
    {
      var edgeElems := e.nx;
      hide BlockSize, BoundedAt, InnerLinked, Done, Exists;
      ClearFlags();
      var ghostIdx := GhostIndices();
      NoneMarked();
      for i := 0 to edgeElems
        invariant Bounded(i * edgeElems, 0)
      {
        for j := 0 to edgeElems
          invariant Bounded(i * edgeElems + j, 0)
        {
          for s := 0 to 6
            invariant Bounded(i * edgeElems + j, s)
          {
            MarkSide(s, i, j, i * edgeElems + j, ghostIdx[s]);
          }
          AllSidesMarked(i * edgeElems + j);
        }
        MulDistribute(i, 1, edgeElems);
      }
      AllMarked();
    }

    method ClearFlags()
      modifies elemBC
      ensures forall k :: 0 <= k < elemBC.Length ==> elemBC[k] == 0
    {
      for i := 0 to elemBC.Length
        invariant forall k :: 0 <= k < i ==> elemBC[k] == 0
      {
        elemBC[i] := 0;
      }
    }

    /** The first ghost element of each side that has a neighbour. */
    method GhostIndices() returns (ghostIdx: seq<int>)
      requires Valid()
      ensures |ghostIdx| == 6
      ensures forall s: nat :: s < 6 && Exists(e, a, DirAt(s)) ==> ghostIdx[s] == GhostStart(e, a, s)
    {
      hide BlockSize, DirAt, Exists, PlaneSize;
      ghostIdx := seq(6, _ => -0x8000_0000);
      var pidx := elemBC.Length;
      for s := 0 to 6
        invariant pidx == GhostStart(e, a, s) && |ghostIdx| == 6
        invariant forall r: nat :: r < s && Exists(e, a, DirAt(r)) ==> ghostIdx[r] == GhostStart(e, a, r)
      {
        if Exists(e, a, DirAt(s)) {
          ghostIdx := ghostIdx[s := pidx];
          pidx := pidx + PlaneSize(e);
        }
      }
    }

    /** Treats the element in row `i`, column `j` of side `s`. */
    method MarkSide(s: nat, i: nat, j: nat, ghost t: nat, ghostIdx: int)
      requires Valid() && s < 6 && i < e.nx && j < e.nx && t == i * e.nx + j && Bounded(t, s)
      requires Exists(e, a, DirAt(s)) ==> ghostIdx == GhostStart(e, a, s)
      modifies link, elemBC
      ensures Bounded(t, s + 1)
    {
      VisitedInBlock(e, s, i, j);
      VisitedBound(e, a, s, i, j, t);
      hide BlockSize, ElemAt, LinkOf, BoundOf, GhostStart, InnerLink, DirAt, Right, Exists, Under, With, Bit;
      var elem := ElemAt(e.nx, s, i, j);
      SetSide(s, elem, ghostIdx + (i * e.nx + j));
      ghost var next := s + 1;
      forall r: nat, k: nat | r < 6 && k < BlockSize(e)
        ensures BoundedAt(r, k, t, next)
      {
        assert old(BoundedAt(r, k, t, s));
        RightNext(e, a, s, i, j, t, r, k, old(link[r, k]), old(elemBC[k]));
      }
    }

    method SetSide(s: nat, elem: nat, ghostElem: int)
      requires Valid() && s < 6 && elem < BlockSize(e)
      modifies link, elemBC
      ensures elemBC[elem]
           == With(old(elemBC[elem]), s, if Exists(e, a, DirAt(s)) then Comm else if s % 2 == 0 then Symm else Free)
      ensures link[s, elem] == if Exists(e, a, DirAt(s)) then ghostElem else old(link[s, elem])
      ensures forall k: nat :: k < BlockSize(e) && k != elem ==> elemBC[k] == old(elemBC[k])
      ensures forall r: nat, k: nat :: r < 6 && k < BlockSize(e) && (r != s || k != elem) ==>
                link[r, k] == old(link[r, k])
    {
      hide BlockSize, Elemental, Exists, With, DirAt;
      if Exists(e, a, DirAt(s)) {
        elemBC[elem] := With(elemBC[elem], s, Comm);
        link[s, elem] := ghostElem;
      } else {
        elemBC[elem] := With(elemBC[elem], s, if s % 2 == 0 then Symm else Free);
      }
    }

    lemma NoneMarked()
      requires Valid() && (forall s: nat :: s < 6 ==> InnerLinked(s)) &&
                 (forall k :: 0 <= k < elemBC.Length ==> elemBC[k] == 0)
      ensures Bounded(0, 0)
    {
      hide BlockSize, OnSide, InnerLink, LinkOf, BoundOf, DirAt, CellOf, Under, With, Bit;
      forall s: nat, k: nat | s < 6 && k < BlockSize(e)
        ensures BoundedAt(s, k, 0, 0)
      {
        assert InnerLinked(s);
        NotMarkedYet(e, s, k);
        NoFlags(s);
      }
    }

    lemma AllSidesMarked(t: nat)
      requires Valid() && Bounded(t, 6)
      ensures Bounded(t + 1, 0)
    {
      hide BlockSize, OnSide, InnerLink, LinkOf, BoundOf, DirAt, CellOf, Mask, Bit, SidePos;
      var next := t + 1;
      forall s: nat, k: nat | s < 6 && k < BlockSize(e)
        ensures BoundedAt(s, k, next, 0)
      {
        assert BoundedAt(s, k, t, 6);
      }
    }

    lemma AllMarked()
      requires Valid() && Bounded(e.nx * e.nx, 0)
      ensures forall s: nat, k: nat :: s < 6 && k < BlockSize(e) ==> Done(s, k)
    {
      hide BlockSize, OnSide, InnerLink, DirAt, CellOf, Under, SidePos, Exists, GhostStart;
      forall s: nat, k: nat | s < 6 && k < BlockSize(e)
        ensures Done(s, k)
      {
        assert BoundedAt(s, k, e.nx * e.nx, 0);
        SideIsMarked(e, s, k);
      }
    }
  }

  lemma NotMarkedYet(e: Exchange, s: nat, k: nat)
    requires Elemental(e) && s < 6
    ensures !Marked(e, s, k, 0, 0)
  {
    if OnSide(e, DirAt(s), CellOf(e, k)) {
      PosOfCell(e, DirAt(s), CellOf(e, k));
    }
  }

  lemma NoFlags(s: nat)
    requires s < 6
    ensures Under(0, s) == 0
  {
  }

  lemma SideIsMarked(e: Exchange, s: nat, k: nat)
    requires Elemental(e) && s < 6
    ensures Marked(e, s, k, e.nx * e.nx, 0) <==> OnSide(e, DirAt(s), CellOf(e, k))
  {
    hide SidePos, CellOf, DirAt, SideSize, OnSide;
    SideIsSquare(e, s);
    if OnSide(e, DirAt(s), CellOf(e, k)) {
      PosOfCell(e, DirAt(s), CellOf(e, k));
    }
  }

  /** One visit marks one element of one side, for the first time. */
  lemma MarkedNext(e: Exchange, s: nat, i: nat, j: nat, r: nat, k: nat)
    requires Elemental(e) && s < 6 && r < 6 && i < e.nx && j < e.nx && k < BlockSize(e)
    ensures var t, elem := i * e.nx + j, ElemAt(e.nx, s, i, j);
            && (Marked(e, r, k, t, s + 1) <==> Marked(e, r, k, t, s) || (r == s && k == elem))
            && (r == s && k == elem ==> !Marked(e, r, k, t, s))
  {
    hide SidePos, CellOf, DirAt, OnSide, ElemAt, BlockSize, SideCellAt;
    VisitedElement(e, s, i, j);
    SideCellOnSide(e, s, i, j);
  }

  /** What one visit of the boundary loops does to any side of any element. */
  lemma RightNext(e: Exchange, a: Place, s: nat, i: nat, j: nat, t: nat, r: nat, k: nat, link: int, flags: bv32)
    requires Elemental(e) && s < 6 && r < 6 && i < e.nx && j < e.nx && k < BlockSize(e)
    requires t == i * e.nx + j && Right(e, a, r, k, t, s, link, flags)
    ensures var elem := ElemAt(e.nx, s, i, j);
            && (k != elem ==> Right(e, a, r, k, t, s + 1, link, flags))
            && (k == elem ==>
                  Right(e, a, r, k, t, s + 1, if r == s && Exists(e, a, DirAt(s)) then LinkOf(e, a, s, k) else link,
                        With(flags, s, BoundOf(e, a, s, k))))
  {
    hide BlockSize, ElemAt, LinkOf, BoundOf, GhostStart, InnerLink, DirAt, Marked, Exists, Under, With, Bit;
    VisitedInBlock(e, s, i, j);
    VisitedBound(e, a, s, i, j, t);
    MarkedNext(e, s, i, j, r, k);
    if r != s {
      OtherFlagsStay(flags, s, BoundOf(e, a, s, k), r);
    } else if k == ElemAt(e.nx, s, i, j) {
      FlagShows(flags, s, BoundOf(e, a, s, k));
    }
  }

  lemma VisitedBound(e: Exchange, a: Place, s: nat, i: nat, j: nat, t: nat)
    requires Elemental(e) && s < 6 && i < e.nx && j < e.nx && t == i * e.nx + j && 0 <= ElemAt(e.nx, s, i, j)
    ensures var elem := ElemAt(e.nx, s, i, j);
            && BoundOf(e, a, s, elem) == (if Exists(e, a, DirAt(s)) then Comm else if s % 2 == 0 then Symm else Free)
            && LinkOf(e, a, s, elem) == (if Exists(e, a, DirAt(s)) then GhostStart(e, a, s) + t
                                         else InnerLink(e.nx, s, BlockSize(e), elem))
  {
    hide SidePos, CellOf, DirAt, OnSide, ElemAt, BlockSize, SideCellAt, Exists, GhostStart, InnerLink;
    VisitedElement(e, s, i, j);
    SideCellOnSide(e, s, i, j);
  }

  lemma SameStride(n: nat, s: nat)
    requires s in {0, 2, 4}
    ensures Stride(n, s + 1) == Stride(n, s)
  {
  }

  lemma BlockHoldsPlanes(e: Exchange)
    requires Elemental(e)
    ensures 1 <= e.nx <= e.nx * e.nx <= BlockSize(e)
  {
    MulAtLeast(1, e.nx, e.nx);
    MulAtLeast(1, e.nx, e.nx * e.nx);
  }
}
