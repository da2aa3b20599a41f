/** After the exchange every rank's copy of a node holds the sum over all ranks that own that node. */
module NodalSum {
  import opened Arithmetic
  import opened HaloGeometry
  import opened HaloMessages
  import opened HaloSides
  import opened HaloExchange
  import opened HaloDelivery

  /** A nodal exchange: one more node than elements along each side, in all directions. */
  predicate Nodal(e: Exchange) {
    Fits(e) && !e.planeOnly && e.dx == e.dy == e.dz == e.nx + 1
  }

  // ----- nodes of the global mesh

  function LocalOf(e: Exchange, b: Place, g: Cell): Cell {
    Cell(g.x - b.col * e.nx, g.y - b.row * e.nx, g.z - b.plane * e.nx)
  }

  predicate Owns(e: Exchange, b: Place, g: Cell) {
    InBlock(e, LocalOf(e, b, g))
  }

  /** The value of a global node on one rank, or nothing when that rank does not have the node. */
  function Term(e: Exchange, val: Values, f: nat, g: Cell, b: Place): real {
    if Owns(e, b, g) then val(b, f, Node(e, LocalOf(e, b, g))) else 0.0
  }

  function ColSum(e: Exchange, val: Values, f: nat, g: Cell, row: int, plane: int, k: nat): real {
    if k == 0 then 0.0 else ColSum(e, val, f, g, row, plane, k - 1) + Term(e, val, f, g, Place(k - 1, row, plane))
  }

  function RowSum(e: Exchange, val: Values, f: nat, g: Cell, plane: int, k: nat): real {
    if k == 0 then 0.0 else RowSum(e, val, f, g, plane, k - 1) + ColSum(e, val, f, g, k - 1, plane, e.tp)
  }

  function PlaneSum(e: Exchange, val: Values, f: nat, g: Cell, k: nat): real {
    if k == 0 then 0.0 else PlaneSum(e, val, f, g, k - 1) + RowSum(e, val, f, g, k - 1, e.tp)
  }

  /** The sum of a global node's values over all ranks of the grid. */
  function GlobalSum(e: Exchange, val: Values, f: nat, g: Cell): real {
    PlaneSum(e, val, f, g, e.tp)
  }

  // ----- only the ranks around a place have its nodes

  /** A term, if that place is inside the grid. */
  function Inside(i: int, k: nat, v: real): real {
    if 0 <= i < k then v else 0.0
  }

  lemma OwnersAreNear(e: Exchange, a: Place, c: Cell, b: Place)
    requires Nodal(e) && InBlock(e, c) && Owns(e, b, GlobalOf(e, a, c))
    ensures a.col - 1 <= b.col <= a.col + 1 && a.row - 1 <= b.row <= a.row + 1 && a.plane - 1 <= b.plane <= a.plane + 1
  {
    AxisNear(a.col, b.col, e.nx, c.x);
    AxisNear(a.row, b.row, e.nx, c.y);
    AxisNear(a.plane, b.plane, e.nx, c.z);
  }

  lemma AxisNear(i: int, k: int, nx: nat, x: int)
    requires nx >= 1 && 0 <= x <= nx && 0 <= i * nx + x - k * nx <= nx
    ensures i - 1 <= k <= i + 1
  {
    assert (i - k) * nx == i * nx - k * nx && (k - i) * nx == k * nx - i * nx;
    if i - k >= 2 {
      assert (i - k) * nx >= 2 * nx by { MulAtLeast(2, i - k, nx); }
    }
    if k - i >= 2 {
      assert (k - i) * nx >= 2 * nx by { MulAtLeast(2, k - i, nx); }
    }
  }

  lemma {:induction false} ColNear(e: Exchange, val: Values, f: nat, a: Place, c: Cell, row: int, plane: int, k: nat)
    requires Nodal(e) && InBlock(e, c)
    ensures var g := GlobalOf(e, a, c);
            ColSum(e, val, f, g, row, plane, k)
              == Inside(a.col - 1, k, Term(e, val, f, g, Place(a.col - 1, row, plane)))
               + Inside(a.col, k, Term(e, val, f, g, Place(a.col, row, plane)))
               + Inside(a.col + 1, k, Term(e, val, f, g, Place(a.col + 1, row, plane)))
  {
    hide GlobalOf, LocalOf, Node;
    if k > 0 {
      ColNear(e, val, f, a, c, row, plane, k - 1);
      if Owns(e, Place(k - 1, row, plane), GlobalOf(e, a, c)) {
        OwnersAreNear(e, a, c, Place(k - 1, row, plane));
      }
    }
  }

  lemma {:induction false} ColEmpty(e: Exchange, val: Values, f: nat, a: Place, c: Cell, row: int, plane: int, k: nat)
    requires Nodal(e) && InBlock(e, c)
    requires !(a.row - 1 <= row <= a.row + 1) || !(a.plane - 1 <= plane <= a.plane + 1)
    ensures ColSum(e, val, f, GlobalOf(e, a, c), row, plane, k) == 0.0
  {
    hide GlobalOf, LocalOf, Node;
    if k > 0 {
      ColEmpty(e, val, f, a, c, row, plane, k - 1);
      if Owns(e, Place(k - 1, row, plane), GlobalOf(e, a, c)) {
        OwnersAreNear(e, a, c, Place(k - 1, row, plane));
      }
    }
  }

  lemma {:induction false} RowNear(e: Exchange, val: Values, f: nat, a: Place, c: Cell, plane: int, k: nat)
    requires Nodal(e) && InBlock(e, c)
    ensures var g := GlobalOf(e, a, c);
            RowSum(e, val, f, g, plane, k)
              == Inside(a.row - 1, k, ColSum(e, val, f, g, a.row - 1, plane, e.tp))
               + Inside(a.row, k, ColSum(e, val, f, g, a.row, plane, e.tp))
               + Inside(a.row + 1, k, ColSum(e, val, f, g, a.row + 1, plane, e.tp))
  {
    hide GlobalOf, ColSum, Nodal;
    if k > 0 {
      RowNear(e, val, f, a, c, plane, k - 1);
      if k - 1 < a.row - 1 || a.row + 1 < k - 1 {
        ColEmpty(e, val, f, a, c, k - 1, plane, e.tp);
      }
    }
  }

  lemma {:induction false} RowEmpty(e: Exchange, val: Values, f: nat, a: Place, c: Cell, plane: int, k: nat)
    requires Nodal(e) && InBlock(e, c) && !(a.plane - 1 <= plane <= a.plane + 1)
    ensures RowSum(e, val, f, GlobalOf(e, a, c), plane, k) == 0.0
  {
    hide GlobalOf, ColSum, Nodal;
    if k > 0 {
      RowEmpty(e, val, f, a, c, plane, k - 1);
      ColEmpty(e, val, f, a, c, k - 1, plane, e.tp);
    }
  }

  lemma {:induction false} PlaneNear(e: Exchange, val: Values, f: nat, a: Place, c: Cell, k: nat)
    requires Nodal(e) && InBlock(e, c)
    ensures var g := GlobalOf(e, a, c);
            PlaneSum(e, val, f, g, k)
              == Inside(a.plane - 1, k, RowSum(e, val, f, g, a.plane - 1, e.tp))
               + Inside(a.plane, k, RowSum(e, val, f, g, a.plane, e.tp))
               + Inside(a.plane + 1, k, RowSum(e, val, f, g, a.plane + 1, e.tp))
  {
    hide GlobalOf, RowSum, Nodal;
    if k > 0 {
      PlaneNear(e, val, f, a, c, k - 1);
      if k - 1 < a.plane - 1 || a.plane + 1 < k - 1 {
        RowEmpty(e, val, f, a, c, k - 1, e.tp);
      }
    }
  }

  // ----- the sum over the neighbours in the order of the exchange

  /** The value a neighbour has for a global node, if that neighbour exists. */
  function From(e: Exchange, val: Values, f: nat, a: Place, g: Cell, d: Dir): real {
    if InGrid(e.tp, Move(a, d)) then Term(e, val, f, g, Move(a, d)) else 0.0
  }

  function FromFirst(e: Exchange, val: Values, f: nat, a: Place, g: Cell, i: nat): real
    requires i <= 26
  {
    if i == 0 then 0.0 else FromFirst(e, val, f, a, g, i - 1) + From(e, val, f, a, g, DirAt(i - 1))
  }

  /** One row of neighbours. */
  function FromRow(e: Exchange, val: Values, f: nat, a: Place, g: Cell, r: int, p: int): real {
    From(e, val, f, a, g, Dir(-1, r, p)) + From(e, val, f, a, g, Dir(0, r, p)) + From(e, val, f, a, g, Dir(1, r, p))
  }

  function FromPlane(e: Exchange, val: Values, f: nat, a: Place, g: Cell, p: int): real {
    FromRow(e, val, f, a, g, -1, p) + FromRow(e, val, f, a, g, 0, p) + FromRow(e, val, f, a, g, 1, p)
  }

  /** The sum over all ranks is the sum over the 27 places around a rank that has the node. */
  lemma GlobalIsAround(e: Exchange, val: Values, f: nat, a: Place, c: Cell)
    requires Nodal(e) && InGrid(e.tp, a) && InBlock(e, c)
    ensures var g := GlobalOf(e, a, c);
            GlobalSum(e, val, f, g)
              == FromPlane(e, val, f, a, g, -1) + FromPlane(e, val, f, a, g, 0) + FromPlane(e, val, f, a, g, 1)
  {
    hide GlobalOf, RowSum, FromPlane, PlaneSum;
    PlaneNear(e, val, f, a, c, e.tp);
    PlaneAround(e, val, f, a, c, -1);
    PlaneAround(e, val, f, a, c, 0);
    PlaneAround(e, val, f, a, c, 1);
  }

  lemma PlaneAround(e: Exchange, val: Values, f: nat, a: Place, c: Cell, p: int)
    requires Nodal(e) && InGrid(e.tp, a) && InBlock(e, c)
    ensures var g := GlobalOf(e, a, c);
            Inside(a.plane + p, e.tp, RowSum(e, val, f, g, a.plane + p, e.tp)) == FromPlane(e, val, f, a, g, p)
  {
    hide GlobalOf, ColSum, FromRow, RowSum;
    RowNear(e, val, f, a, c, a.plane + p, e.tp);
    RowAround(e, val, f, a, c, -1, p);
    RowAround(e, val, f, a, c, 0, p);
    RowAround(e, val, f, a, c, 1, p);
  }

  lemma RowAround(e: Exchange, val: Values, f: nat, a: Place, c: Cell, r: int, p: int)
    requires Nodal(e) && InGrid(e.tp, a) && InBlock(e, c)
    ensures var g := GlobalOf(e, a, c);
            Inside(a.plane + p, e.tp, Inside(a.row + r, e.tp, ColSum(e, val, f, g, a.row + r, a.plane + p, e.tp)))
              == FromRow(e, val, f, a, g, r, p)
  {
    hide GlobalOf, ColSum, Term;
    ColNear(e, val, f, a, c, a.row + r, a.plane + p, e.tp);
  }

  /** The same 26 neighbours in the order of the exchange. */
  lemma AroundInOrder(e: Exchange, val: Values, f: nat, a: Place, g: Cell)
    ensures FromPlane(e, val, f, a, g, -1) + FromPlane(e, val, f, a, g, 0) + FromPlane(e, val, f, a, g, 1)
         == From(e, val, f, a, g, Dir(0, 0, 0)) + FromFirst(e, val, f, a, g, 26)
  {
    hide From;
    FirstFaces(e, val, f, a, g);
    ThenEdges(e, val, f, a, g);
    ThenCorners(e, val, f, a, g);
    hide FromFirst;
  }

  lemma FirstFaces(e: Exchange, val: Values, f: nat, a: Place, g: Cell)
    ensures FromFirst(e, val, f, a, g, 6)
              == From(e, val, f, a, g, Dir(0, 0, -1)) + From(e, val, f, a, g, Dir(0, 0, 1))
               + From(e, val, f, a, g, Dir(0, -1, 0)) + From(e, val, f, a, g, Dir(0, 1, 0))
               + From(e, val, f, a, g, Dir(-1, 0, 0)) + From(e, val, f, a, g, Dir(1, 0, 0))
  {
    hide From;
    assert FromFirst(e, val, f, a, g, 1) == FromFirst(e, val, f, a, g, 0) + From(e, val, f, a, g, Dir(0, 0, -1));
    assert FromFirst(e, val, f, a, g, 2) == FromFirst(e, val, f, a, g, 1) + From(e, val, f, a, g, Dir(0, 0, 1));
    assert FromFirst(e, val, f, a, g, 3) == FromFirst(e, val, f, a, g, 2) + From(e, val, f, a, g, Dir(0, -1, 0));
    assert FromFirst(e, val, f, a, g, 4) == FromFirst(e, val, f, a, g, 3) + From(e, val, f, a, g, Dir(0, 1, 0));
    assert FromFirst(e, val, f, a, g, 5) == FromFirst(e, val, f, a, g, 4) + From(e, val, f, a, g, Dir(-1, 0, 0));
    assert FromFirst(e, val, f, a, g, 6) == FromFirst(e, val, f, a, g, 5) + From(e, val, f, a, g, Dir(1, 0, 0));
  }

  lemma ThenEdges(e: Exchange, val: Values, f: nat, a: Place, g: Cell)
    ensures FromFirst(e, val, f, a, g, 18)
              == FromFirst(e, val, f, a, g, 6)
               + From(e, val, f, a, g, Dir(-1, -1, 0)) + From(e, val, f, a, g, Dir(0, -1, -1))
               + From(e, val, f, a, g, Dir(-1, 0, -1)) + From(e, val, f, a, g, Dir(1, 1, 0))
               + From(e, val, f, a, g, Dir(0, 1, 1)) + From(e, val, f, a, g, Dir(1, 0, 1))
               + From(e, val, f, a, g, Dir(-1, 1, 0)) + From(e, val, f, a, g, Dir(0, -1, 1))
               + From(e, val, f, a, g, Dir(-1, 0, 1)) + From(e, val, f, a, g, Dir(1, -1, 0))
               + From(e, val, f, a, g, Dir(0, 1, -1)) + From(e, val, f, a, g, Dir(1, 0, -1))
  {
    hide From;
    assert FromFirst(e, val, f, a, g, 7) == FromFirst(e, val, f, a, g, 6) + From(e, val, f, a, g, Dir(-1, -1, 0));
    assert FromFirst(e, val, f, a, g, 8) == FromFirst(e, val, f, a, g, 7) + From(e, val, f, a, g, Dir(0, -1, -1));
    assert FromFirst(e, val, f, a, g, 9) == FromFirst(e, val, f, a, g, 8) + From(e, val, f, a, g, Dir(-1, 0, -1));
    assert FromFirst(e, val, f, a, g, 10) == FromFirst(e, val, f, a, g, 9) + From(e, val, f, a, g, Dir(1, 1, 0));
    assert FromFirst(e, val, f, a, g, 11) == FromFirst(e, val, f, a, g, 10) + From(e, val, f, a, g, Dir(0, 1, 1));
    assert FromFirst(e, val, f, a, g, 12) == FromFirst(e, val, f, a, g, 11) + From(e, val, f, a, g, Dir(1, 0, 1));
    assert FromFirst(e, val, f, a, g, 13) == FromFirst(e, val, f, a, g, 12) + From(e, val, f, a, g, Dir(-1, 1, 0));
    assert FromFirst(e, val, f, a, g, 14) == FromFirst(e, val, f, a, g, 13) + From(e, val, f, a, g, Dir(0, -1, 1));
    assert FromFirst(e, val, f, a, g, 15) == FromFirst(e, val, f, a, g, 14) + From(e, val, f, a, g, Dir(-1, 0, 1));
    assert FromFirst(e, val, f, a, g, 16) == FromFirst(e, val, f, a, g, 15) + From(e, val, f, a, g, Dir(1, -1, 0));
    assert FromFirst(e, val, f, a, g, 17) == FromFirst(e, val, f, a, g, 16) + From(e, val, f, a, g, Dir(0, 1, -1));
    assert FromFirst(e, val, f, a, g, 18) == FromFirst(e, val, f, a, g, 17) + From(e, val, f, a, g, Dir(1, 0, -1));
  }

  lemma ThenCorners(e: Exchange, val: Values, f: nat, a: Place, g: Cell)
    ensures FromFirst(e, val, f, a, g, 26)
              == FromFirst(e, val, f, a, g, 18)
               + From(e, val, f, a, g, Dir(-1, -1, -1)) + From(e, val, f, a, g, Dir(-1, -1, 1))
               + From(e, val, f, a, g, Dir(1, -1, -1)) + From(e, val, f, a, g, Dir(1, -1, 1))
               + From(e, val, f, a, g, Dir(-1, 1, -1)) + From(e, val, f, a, g, Dir(-1, 1, 1))
               + From(e, val, f, a, g, Dir(1, 1, -1)) + From(e, val, f, a, g, Dir(1, 1, 1))
  {
    hide From;
    assert FromFirst(e, val, f, a, g, 19) == FromFirst(e, val, f, a, g, 18) + From(e, val, f, a, g, Dir(-1, -1, -1));
    assert FromFirst(e, val, f, a, g, 20) == FromFirst(e, val, f, a, g, 19) + From(e, val, f, a, g, Dir(-1, -1, 1));
    assert FromFirst(e, val, f, a, g, 21) == FromFirst(e, val, f, a, g, 20) + From(e, val, f, a, g, Dir(1, -1, -1));
    assert FromFirst(e, val, f, a, g, 22) == FromFirst(e, val, f, a, g, 21) + From(e, val, f, a, g, Dir(1, -1, 1));
    assert FromFirst(e, val, f, a, g, 23) == FromFirst(e, val, f, a, g, 22) + From(e, val, f, a, g, Dir(-1, 1, -1));
    assert FromFirst(e, val, f, a, g, 24) == FromFirst(e, val, f, a, g, 23) + From(e, val, f, a, g, Dir(-1, 1, 1));
    assert FromFirst(e, val, f, a, g, 25) == FromFirst(e, val, f, a, g, 24) + From(e, val, f, a, g, Dir(1, 1, -1));
    assert FromFirst(e, val, f, a, g, 26) == FromFirst(e, val, f, a, g, 25) + From(e, val, f, a, g, Dir(1, 1, 1));
  }

  /** A neighbour has a node of this rank exactly when the node lies on the side towards that neighbour,
      and there it is the mirrored cell. */
  lemma SharedIsOnSide(e: Exchange, a: Place, d: Dir, c: Cell)
    requires Nodal(e) && IsDir(d) && InBlock(e, c)
    ensures Owns(e, Move(a, d), GlobalOf(e, a, c)) <==> OnSide(e, d, c)
    ensures OnSide(e, d, c) ==> LocalOf(e, Move(a, d), GlobalOf(e, a, c)) == Mirror(e, d, c)
  {
    SharedOnAxis(a.col, d.c, e.nx, c.x);
    SharedOnAxis(a.row, d.r, e.nx, c.y);
    SharedOnAxis(a.plane, d.p, e.nx, c.z);
  }

  lemma SharedOnAxis(i: int, s: int, nx: nat, x: int)
    requires nx >= 1 && IsStep(s) && 0 <= x <= nx
    ensures var y := i * nx + x - (i + s) * nx;
            && (0 <= y < nx + 1 <==> OnAxis(s, nx + 1, x))
            && (OnAxis(s, nx + 1, x) ==> y == if s == 0 then x else Low(-s, nx + 1))
  {
    assert (i + s) * nx == i * nx + s * nx;
  }

  /** What a rank adds for one direction is the value the neighbour there had for the same global node. */
  lemma ShareIsNeighbours(e: Exchange, val: Values, send: Buffers, a: Place, recv: seq<real>, f: nat, n: nat, i: nat)
    requires Nodal(e) && InGrid(e.tp, a) && |recv| == BufferSize(e, a) && f < e.fields && n < BlockSize(e) && i < 26
    requires forall b :: InGrid(e.tp, b) ==> |send(b)| == BufferSize(e, b) && Sent(e, val, b, send(b))
    requires Delivered(e, send, a, recv)
    ensures ShareOf(e, a, recv, f, n, i) == From(e, val, f, a, GlobalOf(e, a, CellOf(e, n)), DirAt(i))
  {
    var d, c := DirAt(i), CellOf(e, n);
    var b := Move(a, d);
    hide CellOf, GlobalOf, BlockSize, OnSide, LocalOf, Mirror, Offset, SideSize,
         BufferSize, DirAt, Sent, Partner, Share, Message, NodeIndex;
    DirAtIsADir(i);
    CellOfNode(e, n);
    SharedIsOnSide(e, a, d, c);
    if InGrid(e.tp, b) {
      if OnSide(e, d, c) {
        ShareIsInMessage(e, a, recv, f, n, i);
        ReceivedValue(e, val, send, a, recv, f, n, i);
      } else {
        NothingOffSide(e, a, recv, f, n, i);
      }
    }
  }

  lemma NothingOffSide(e: Exchange, a: Place, recv: seq<real>, f: nat, n: nat, i: nat)
    requires Fits(e) && |recv| == BufferSize(e, a) && f < e.fields && i < 26
    requires n < BlockSize(e) && !OnSide(e, DirAt(i), CellOf(e, n))
    ensures ShareOf(e, a, recv, f, n, i) == 0.0
  {
    hide DirAt, Posts, Offset, BufferSize, BlockSize, CellOf, OnSide, Count;
  }

  lemma ShareIsInMessage(e: Exchange, a: Place, recv: seq<real>, f: nat, n: nat, i: nat)
    requires Fits(e) && |recv| == BufferSize(e, a) && f < e.fields && i < 26 && Posts(e, a, false, true, i)
    requires NodeOnSide(e, DirAt(i), n)
    ensures ShareOf(e, a, recv, f, n, i)
              == Message(e, a, false, i, recv)[SlotOf(e, DirAt(i), f, PosOfNode(e, DirAt(i), n))]
  {
    hide NodeOnSide, PosOfNode, SideSize, DirAt, Offset, BufferSize, Posts, Count, Message;
    MessageValues(e, a, false, i, recv);
  }

  lemma {:induction false} GatheredIsNeighbours(e: Exchange, val: Values, send: Buffers, a: Place, recv: seq<real>,
                                                f: nat, n: nat, i: nat)
    requires Nodal(e) && InGrid(e.tp, a) && |recv| == BufferSize(e, a) && f < e.fields && n < BlockSize(e) && i <= 26
    requires forall b :: InGrid(e.tp, b) ==> |send(b)| == BufferSize(e, b) && Sent(e, val, b, send(b))
    requires Delivered(e, send, a, recv)
    ensures Gathered(e, a, recv, f, n, i) == FromFirst(e, val, f, a, GlobalOf(e, a, CellOf(e, n)), i)
  {
    hide CellOf, GlobalOf, BlockSize, BufferSize, DirAt, Sent, Delivered, ShareOf, From, Nodal;
    if i > 0 {
      GatheredIsNeighbours(e, val, send, a, recv, f, n, i - 1);
      ShareIsNeighbours(e, val, send, a, recv, f, n, i - 1);
    }
  }

  /** After send, delivery and CommSBN, each rank's copy of a node is the exact sum of the values that all
      ranks owning that global node had before; so all copies agree. */
  lemma EveryCopyIsTheSum(e: Exchange, val: Values, send: Buffers, a: Place, recv: seq<real>, f: nat, n: nat)
    requires Nodal(e) && InGrid(e.tp, a) && |recv| == BufferSize(e, a) && f < e.fields && n < BlockSize(e)
    requires forall b :: InGrid(e.tp, b) ==> |send(b)| == BufferSize(e, b) && Sent(e, val, b, send(b))
    requires Delivered(e, send, a, recv)
    ensures val(a, f, n) + Gathered(e, a, recv, f, n, 26) == GlobalSum(e, val, f, GlobalOf(e, a, CellOf(e, n)))
  {
    var c := CellOf(e, n);
    var g := GlobalOf(e, a, c);
    CellOfNode(e, n);
    GlobalIsAround(e, val, f, a, c);
    AroundInOrder(e, val, f, a, g);
    GatheredIsNeighbours(e, val, send, a, recv, f, n, 26);
    OwnTerm(e, val, f, a, n);
    hide FromPlane, FromFirst, GlobalSum, Gathered, BlockSize, BufferSize, CellOf, GlobalOf, From;
  }

  lemma OwnTerm(e: Exchange, val: Values, f: nat, a: Place, n: nat)
    requires Nodal(e) && InGrid(e.tp, a) && n < BlockSize(e)
    ensures From(e, val, f, a, GlobalOf(e, a, CellOf(e, n)), Dir(0, 0, 0)) == val(a, f, n)
  {
    CellOfNode(e, n);
    var c := CellOf(e, n);
    hide CellOf, NodeIndex, BlockSize;
    assert Move(a, Dir(0, 0, 0)) == a;
    assert LocalOf(e, a, GlobalOf(e, a, c)) == c;
  }

  // ----- how many ranks own a node

  /** A rank exists one step along an axis, and the node lies on the side towards it. */
  predicate Across(e: Exchange, i: int, x: int, s: int) {
    0 <= i + s < e.tp && OnAxis(s, e.nx + 1, x)
  }

  /** How many ranks along one axis have the node: two on a side shared with a neighbour, else one. */
  function AxisOwners(e: Exchange, i: int, x: int): nat {
    1 + if Across(e, i, x, -1) || Across(e, i, x, 1) then 1 else 0
  }

  function Owners(e: Exchange, a: Place, c: Cell): nat {
    AxisOwners(e, a.col, c.x) * AxisOwners(e, a.row, c.y) * AxisOwners(e, a.plane, c.z)
  }

  function One(b: Place, f: nat, n: nat): real { 1.0 }

  lemma CountOne(e: Exchange, a: Place, c: Cell, d: Dir)
    requires Nodal(e) && InGrid(e.tp, a) && InBlock(e, c) && IsStep(d.c) && IsStep(d.r) && IsStep(d.p)
    ensures From(e, One, 0, a, GlobalOf(e, a, c), d)
         == if Across(e, a.col, c.x, d.c) && Across(e, a.row, c.y, d.r) && Across(e, a.plane, c.z, d.p) then 1.0
            else 0.0
  {
    hide OnAxis, NodeIndex, BlockSize;
    SharedOnAxis(a.col, d.c, e.nx, c.x);
    SharedOnAxis(a.row, d.r, e.nx, c.y);
    SharedOnAxis(a.plane, d.p, e.nx, c.z);
  }

  lemma CountRow(e: Exchange, a: Place, c: Cell, r: int, p: int)
    requires Nodal(e) && InGrid(e.tp, a) && InBlock(e, c) && IsStep(r) && IsStep(p)
    ensures FromRow(e, One, 0, a, GlobalOf(e, a, c), r, p)
         == if Across(e, a.row, c.y, r) && Across(e, a.plane, c.z, p) then AxisOwners(e, a.col, c.x) as real else 0.0
  {
    hide GlobalOf, From;
    CountOne(e, a, c, Dir(-1, r, p));
    CountOne(e, a, c, Dir(0, r, p));
    CountOne(e, a, c, Dir(1, r, p));
  }

  lemma CountPlane(e: Exchange, a: Place, c: Cell, p: int)
    requires Nodal(e) && InGrid(e.tp, a) && InBlock(e, c) && IsStep(p)
    ensures FromPlane(e, One, 0, a, GlobalOf(e, a, c), p)
         == if Across(e, a.plane, c.z, p) then (AxisOwners(e, a.col, c.x) * AxisOwners(e, a.row, c.y)) as real else 0.0
  {
    CountRow(e, a, c, -1, p);
    CountRow(e, a, c, 0, p);
    CountRow(e, a, c, 1, p);
    var i := AxisOwners(e, a.col, c.x);
    assert i * 1 == i && i * 2 == i + i;
    hide GlobalOf, FromRow;
  }

  /** A node is owned by one rank, or by 2 on a shared face, 4 on a shared edge, 8 at a shared corner. */
  lemma OwnersMultiply(e: Exchange, a: Place, c: Cell)
    requires Nodal(e) && InGrid(e.tp, a) && InBlock(e, c)
    ensures GlobalSum(e, One, 0, GlobalOf(e, a, c)) == Owners(e, a, c) as real
    ensures Owners(e, a, c) in {1, 2, 4, 8}
  {
    hide GlobalOf, FromPlane, GlobalSum, OnAxis, InGrid, InBlock, Nodal;
    GlobalIsAround(e, One, 0, a, c);
    CountPlane(e, a, c, -1);
    CountPlane(e, a, c, 0);
    CountPlane(e, a, c, 1);
    var i := AxisOwners(e, a.col, c.x) * AxisOwners(e, a.row, c.y);
    InRange(e, a, c);
    assert i * 1 == i && i * 2 == i + i;
    assert i in {1, 2, 4};
  }

  lemma InRange(e: Exchange, a: Place, c: Cell)
    requires Nodal(e) && InGrid(e.tp, a) && InBlock(e, c)
    ensures Across(e, a.plane, c.z, 0) && !(Across(e, a.plane, c.z, -1) && Across(e, a.plane, c.z, 1))
  {
  }

  /** CommSBN leaves a node that no other rank owns unchanged. */
  lemma UnsharedIsUnchanged(e: Exchange, val: Values, send: Buffers, a: Place, recv: seq<real>, f: nat, n: nat)
    requires Nodal(e) && InGrid(e.tp, a) && |recv| == BufferSize(e, a) && f < e.fields && n < BlockSize(e)
    requires forall b :: InGrid(e.tp, b) ==> |send(b)| == BufferSize(e, b) && Sent(e, val, b, send(b))
    requires Delivered(e, send, a, recv)
    requires forall b :: InGrid(e.tp, b) && b != a ==> !Owns(e, b, GlobalOf(e, a, CellOf(e, n)))
    ensures Gathered(e, a, recv, f, n, 26) == 0.0
  {
    GatheredIsNeighbours(e, val, send, a, recv, f, n, 26);
    NothingAround(e, val, f, a, GlobalOf(e, a, CellOf(e, n)), 26);
  }

  lemma {:induction false} NothingAround(e: Exchange, val: Values, f: nat, a: Place, g: Cell, i: nat)
    requires i <= 26 && forall b :: InGrid(e.tp, b) && b != a ==> !Owns(e, b, g)
    ensures FromFirst(e, val, f, a, g, i) == 0.0
  {
    hide DirAt, Owns;
    if i > 0 {
      NothingAround(e, val, f, a, g, i - 1);
      DirAtIsADir(i - 1);
    }
  }
}
