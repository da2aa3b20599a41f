/** The ghost elements around a block, and what the neighbour links of its elements read from them. */
module GhostElements {
  import opened Arithmetic
  import opened HaloGeometry
  import opened HaloMessages
  import opened HaloSides
  import opened HaloExchange
  import opened HaloDelivery
  import opened ElementLinks

  /** Element fields with room for the ghost elements of all six sides. */
  ghost predicate Roomy(e: Exchange, fields: array2<real>) {
    fields.Length0 == e.fields && fields.Length1 == BlockSize(e) + 6 * PlaneSize(e)
  }

  /** Value `t` of field `f` received from side `s` lies in the ghost elements of that side. */
  ghost predicate GhostHolds(e: Exchange, a: Place, recv: seq<real>, fields: array2<real>, s: nat, f: nat, t: nat)
    requires Elemental(e) && |recv| == BufferSize(e, a) && Roomy(e, fields)
    requires s < 6 && Posts(e, a, false, true, s) && f < 3 && t < SideSize(e, DirAt(s))
    reads fields
  {
    hide BlockSize, Exists, SideSize, Count, BufferSize, Posts, DirAt;
    GhostsInField(e, a, s);
    fields[f, GhostStart(e, a, s) + t] == Message(e, a, false, s, recv)[SlotOf(e, DirAt(s), f, t)]
  }

  lemma GhostsInField(e: Exchange, a: Place, s: nat)
    requires Elemental(e) && s < 6 && Posts(e, a, false, true, s)
    ensures SideSize(e, DirAt(s)) == PlaneSize(e)
    ensures GhostStart(e, a, s) + PlaneSize(e) == GhostStart(e, a, s + 1) <= BlockSize(e) + 6 * PlaneSize(e)
  {
    hide PlaneSize, BlockSize, GhostStart, Exists, DirAt, SideSize;
    SideIsSquare(e, s);
    GhostsFit(e, a, s + 1);
    MulAtLeast(s + 1, 6, PlaneSize(e));
    GhostStartNext(e, a, s);
  }

  lemma GhostStartNext(e: Exchange, a: Place, s: nat)
    requires s < 6
    ensures GhostStart(e, a, s + 1) == GhostStart(e, a, s) + if Exists(e, a, DirAt(s)) then PlaneSize(e) else 0
  {
  }

  lemma {:induction false} GhostsFit(e: Exchange, a: Place, s: nat)
    requires s <= 6
    ensures BlockSize(e) <= GhostStart(e, a, s) <= BlockSize(e) + s * PlaneSize(e)
  {
    hide BlockSize, PlaneSize, Exists, DirAt;
    if s > 0 {
      GhostsFit(e, a, s - 1);
      MulDistribute(s - 1, 1, PlaneSize(e));
    }
  }

  /** The ghost elements of the first `i` sides hold what was received from there. */
  ghost predicate GhostsHold(e: Exchange, a: Place, recv: seq<real>, fields: array2<real>, i: nat)
    requires Elemental(e) && |recv| == BufferSize(e, a) && Roomy(e, fields)
    reads fields
  {
    forall s: nat, f: nat, t: nat ::
      s < i && s < 6 && Posts(e, a, false, true, s) && f < 3 && t < SideSize(e, DirAt(s)) ==>
        GhostHolds(e, a, recv, fields, s, f, t)
  }

  lemma {:induction false} GhostStartsGrow(e: Exchange, a: Place, s: nat, i: nat)
    requires s <= i <= 6
    ensures GhostStart(e, a, s) <= GhostStart(e, a, i)
    decreases i
  {
    hide BlockSize, PlaneSize, Exists, DirAt;
    if s < i {
      GhostStartsGrow(e, a, s, i - 1);
    }
  }

  /** Copies one field of a received side into the ghost elements that start at `start`. */
  method UnpackField(side: nat, srcAddr: nat, start: nat, f: nat, recv: array<real>, fields: array2<real>)
    requires f < fields.Length0 && srcAddr + side <= recv.Length && start + side <= fields.Length1
    modifies fields
    ensures forall n: nat :: start <= n < start + side ==> fields[f, n] == recv[srcAddr + (n - start)]
    ensures forall g: nat, n: nat ::
             g < fields.Length0 && n < fields.Length1 && !(g == f && start <= n < start + side) ==>
              fields[g, n] == old(fields[g, n])
  {
    for t := 0 to side
      invariant forall n: nat :: start <= n < start + t ==> fields[f, n] == recv[srcAddr + (n - start)]
      invariant forall g: nat, n: nat ::
                 g < fields.Length0 && n < fields.Length1 && !(g == f && start <= n < start + side) ==>
                  fields[g, n] == old(fields[g, n])
    {
      fields[f, start + t] := recv[srcAddr + t];
    }
  }

  /** Side fields of one message lie in the ghost elements that start at `start`. */
  ghost predicate Unpacked(side: nat, off: nat, start: nat, recv: seq<real>, fields: array2<real>)
    requires fields.Length0 == 3 && off + 3 * side <= |recv| && start + side <= fields.Length1
    reads fields
  {
    forall n: nat :: start <= n < start + side ==>
      && fields[0, n] == recv[off + (n - start)]
      && fields[1, n] == recv[off + side + (n - start)]
      && fields[2, n] == recv[off + 2 * side + (n - start)]
  }

  /** Copies one received side into the ghost elements that start at `start`. */
  method UnpackSide(side: nat, off: nat, start: nat, recv: array<real>, fields: array2<real>)
    requires fields.Length0 == 3 && off + 3 * side <= recv.Length && start + side <= fields.Length1
    modifies fields
    ensures Unpacked(side, off, start, recv[..], fields)
    ensures forall g: nat, n: nat :: g < 3 && n < fields.Length1 && !(start <= n < start + side) ==>
              fields[g, n] == old(fields[g, n])
  {
    UnpackField(side, off, start, 0, recv, fields);
    UnpackField(side, off + side, start, 1, recv, fields);
    UnpackField(side, off + 2 * side, start, 2, recv, fields);
  }

  lemma UnpackedHolds(e: Exchange, a: Place, recv: seq<real>, fields: array2<real>, i: nat, f: nat, t: nat)
    requires Elemental(e) && |recv| == BufferSize(e, a) && Roomy(e, fields)
    requires i < 6 && Posts(e, a, false, true, i) && f < 3 && t < SideSize(e, DirAt(i))
    requires Offset(e, a, false, true, i) + 3 * SideSize(e, DirAt(i)) <= |recv|
    requires GhostStart(e, a, i) + SideSize(e, DirAt(i)) <= fields.Length1
    requires Unpacked(SideSize(e, DirAt(i)), Offset(e, a, false, true, i), GhostStart(e, a, i), recv, fields)
    ensures GhostHolds(e, a, recv, fields, i, f, t)
  {
    hide BlockSize, BufferSize, Offset, PlaneSize, SideSize, GhostStart, DirAt, Posts, Message, SlotOf;
    MessageValues(e, a, false, i, recv);
    SlotsOfThree(e, DirAt(i), t);
    GhostsInField(e, a, i);
    ghost var n := GhostStart(e, a, i) + t;
    assert n - GhostStart(e, a, i) == t;
    if f == 0 {
    } else if f == 1 {
    } else {
    }
  }

  lemma SlotsOfThree(e: Exchange, d: Dir, t: nat)
    requires e.fields == 3 && t < SideSize(e, d)
    ensures SlotOf(e, d, 0, t) == t && SlotOf(e, d, 1, t) == SideSize(e, d) + t
    ensures SlotOf(e, d, 2, t) == 2 * SideSize(e, d) + t
    ensures SlotOf(e, d, 2, t) < Count(e, d)
  {
    hide SideSize;
  }

  /** Unpacks the message from side `i`; the ghost elements of earlier sides stay as they were. */
  method UnpackNext(e: Exchange, a: Place, recv: array<real>, fields: array2<real>, i: nat, off: nat, fieldOffset: nat)
    requires Elemental(e) && recv.Length == BufferSize(e, a) && Roomy(e, fields)
    requires i < 6 && Posts(e, a, false, true, i) && GhostsHold(e, a, recv[..], fields, i)
    requires off == Offset(e, a, false, true, i) && fieldOffset == GhostStart(e, a, i)
    modifies fields
    ensures GhostsHold(e, a, recv[..], fields, i + 1)
    ensures forall f: nat, n: nat :: f < 3 && n < BlockSize(e) ==> fields[f, n] == old(fields[f, n])
  {
    hide BlockSize, BufferSize, Offset, PlaneSize, SideSize, GhostStart, DirAt, Posts, Message, Unpacked;
    var opCount := SideSize(e, DirAt(i));
    GhostsInField(e, a, i);
    GhostsFit(e, a, i);
    MessageValues(e, a, false, i, recv[..]);
    UnpackSide(opCount, off, fieldOffset, recv, fields);
    forall s: nat, f: nat, t: nat | s <= i && Posts(e, a, false, true, s) && f < 3 && t < SideSize(e, DirAt(s))
      ensures GhostHolds(e, a, recv[..], fields, s, f, t)
    {
      if s < i {
        assert old(GhostHolds(e, a, recv[..], fields, s, f, t));
        GhostsInField(e, a, s);
        GhostStartsGrow(e, a, s + 1, i);
      } else {
        UnpackedHolds(e, a, recv[..], fields, i, f, t);
      }
    }
  }

  /** Copies all received sides into the ghost elements. */
  method CommMonoQ(e: Exchange, a: Place, recv: array<real>, fields: array2<real>)
    requires Elemental(e) && InGrid(e.tp, a) && recv.Length == BufferSize(e, a) && Roomy(e, fields)
    modifies fields
    ensures GhostsHold(e, a, recv[..], fields, 6)
    ensures forall f: nat, n: nat :: f < 3 && n < BlockSize(e) ==> fields[f, n] == old(fields[f, n])
  {
    hide BlockSize, BufferSize, Offset, PlaneSize, SideSize, GhostStart, DirAt, SlotSize, OffsetOf, Bump, Exists,
         Posts, GhostsHold;
    NoGhostsYet(e, a, recv[..], fields);
    if e.tp == 1 {
      return;
    }
    var k := Counters(0, 0, 0);
    var fieldOffset := BlockSize(e);
    StartOfAll(e, a);
    for i := 0 to 6
      invariant GhostsHold(e, a, recv[..], fields, i)
      invariant OffsetOf(e, k) == Offset(e, a, false, true, i) && fieldOffset == GhostStart(e, a, i)
      invariant forall f: nat, n: nat :: f < 3 && n < BlockSize(e) ==> fields[f, n] == old(fields[f, n])
    {
      SideStep(e, a, i);
      if Exists(e, a, DirAt(i)) {
        UnpackNext(e, a, recv, fields, i, OffsetOf(e, k), fieldOffset);
        fieldOffset := fieldOffset + SideSize(e, DirAt(i));
        BumpAddsASlot(e, k, DirAt(i));
        k := Bump(k, DirAt(i));
      } else {
        NoGhostsThere(e, a, recv[..], fields, i);
      }
    }
  }

  lemma NoGhostsYet(e: Exchange, a: Place, recv: seq<real>, fields: array2<real>)
    requires Elemental(e) && InGrid(e.tp, a) && |recv| == BufferSize(e, a) && Roomy(e, fields)
    ensures GhostsHold(e, a, recv, fields, 0)
    ensures e.tp == 1 ==> GhostsHold(e, a, recv, fields, 6)
  {
    hide BlockSize, BufferSize, PlaneSize, SideSize, GhostHolds, DirAt, Posts;
    OneRankIsAlone(e, a, false, true, if e.tp == 1 then 26 else 0);
  }

  lemma NoGhostsThere(e: Exchange, a: Place, recv: seq<real>, fields: array2<real>, i: nat)
    requires Elemental(e) && |recv| == BufferSize(e, a) && Roomy(e, fields)
    requires i < 6 && !Posts(e, a, false, true, i) && GhostsHold(e, a, recv, fields, i)
    ensures GhostsHold(e, a, recv, fields, i + 1)
  {
    hide BlockSize, BufferSize, PlaneSize, SideSize, GhostHolds, DirAt, Posts;
  }

  lemma StartOfAll(e: Exchange, a: Place)
    ensures GhostStart(e, a, 0) == BlockSize(e) && OffsetOf(e, Counters(0, 0, 0)) == Offset(e, a, false, true, 0)
  {
  }

  /** In a faces-only exchange a rank receives from each of its neighbours across a face, in slots of one size. */
  lemma SideStep(e: Exchange, a: Place, i: nat)
    requires Elemental(e) && i < 6
    ensures Posts(e, a, false, true, i) <==> Exists(e, a, DirAt(i))
    ensures SideSize(e, DirAt(i)) == PlaneSize(e)
    ensures GhostStart(e, a, i + 1) == GhostStart(e, a, i) + if Exists(e, a, DirAt(i)) then PlaneSize(e) else 0
    ensures Offset(e, a, false, true, i + 1)
         == Offset(e, a, false, true, i) + if Exists(e, a, DirAt(i)) then SlotSize(e, DirAt(i)) else 0
  {
    hide SideSize, PlaneSize, MaxPlaneSize, DirAt, GhostStart, Exists, BlockSize;
    SideIsSquare(e, i);
    GhostStartNext(e, a, i);
  }

  // ----- the global mesh of elements

  function Beside(c: Cell, d: Dir): Cell { Cell(c.x + d.c, c.y + d.r, c.z + d.p) }

  predicate InMesh(e: Exchange, g: Cell) {
    0 <= g.x < e.tp * e.nx && 0 <= g.y < e.tp * e.nx && 0 <= g.z < e.tp * e.nx
  }

  // A field of the global mesh: field number, element.
  type Mesh = (nat, Cell) -> real

  /** The values of every rank are its part of a field on the global mesh. */
  ghost predicate Restricts(e: Exchange, mesh: Mesh, val: Values)
    requires Elemental(e)
  {
    forall b, f: nat, n: nat :: InGrid(e.tp, b) && f < 3 && n < BlockSize(e) ==>
      val(b, f, n) == mesh(f, GlobalOf(e, b, CellOf(e, n)))
  }

  /** An element has no neighbour across a side exactly when that neighbour would lie outside the mesh, and
      then its flag says symmetry or free surface. */
  lemma BoundIsMeshEdge(e: Exchange, a: Place, s: nat, k: nat)
    requires Elemental(e) && InGrid(e.tp, a) && s < 6 && k < BlockSize(e)
    ensures BoundOf(e, a, s, k) in {Inner, Comm} <==> InMesh(e, Beside(GlobalOf(e, a, CellOf(e, k)), DirAt(s)))
    ensures BoundOf(e, a, s, k) == Inner <==> InBlock(e, Beside(CellOf(e, k), DirAt(s)))
  {
    CellOfNode(e, k);
    var c, d := CellOf(e, k), DirAt(s);
    hide CellOf, BlockSize;
    MeshAxis(a.col, d.c, e.nx, c.x, e.tp);
    MeshAxis(a.row, d.r, e.nx, c.y, e.tp);
    MeshAxis(a.plane, d.p, e.nx, c.z, e.tp);
  }

  /** At the edge of the mesh the symmetry planes are those through the origin, and the free surfaces those
      opposite. */
  lemma EdgesAreSymmetricBelow(e: Exchange, a: Place, s: nat, k: nat)
    requires Elemental(e) && InGrid(e.tp, a) && s < 6 && k < BlockSize(e)
    ensures var g, n := Beside(GlobalOf(e, a, CellOf(e, k)), DirAt(s)), e.tp * e.nx;
            && (BoundOf(e, a, s, k) == Symm <==> g.x < 0 || g.y < 0 || g.z < 0)
            && (BoundOf(e, a, s, k) == Free <==> g.x >= n || g.y >= n || g.z >= n)
  {
    BoundIsMeshEdge(e, a, s, k);
    CellOfNode(e, k);
    var c := CellOf(e, k);
    InRow(a.col, e.nx, c.x, e.tp);
    InRow(a.row, e.nx, c.y, e.tp);
    InRow(a.plane, e.nx, c.z, e.tp);
    BoundAtEdge(e, a, s, k);
    hide CellOf, BlockSize, BoundOf;
  }

  lemma BoundAtEdge(e: Exchange, a: Place, s: nat, k: nat)
    requires Elemental(e) && s < 6
    ensures BoundOf(e, a, s, k) == Symm ==> s % 2 == 0
    ensures BoundOf(e, a, s, k) == Free ==> s % 2 == 1
    ensures var d := DirAt(s); if s % 2 == 0 then d.c + d.r + d.p == -1 else d.c + d.r + d.p == 1
    ensures Order(DirAt(s)) == 1
  {
    hide OnSide, CellOf;
  }

  lemma InRow(i: int, nx: nat, x: int, tp: nat)
    requires 0 <= x < nx && 0 <= i < tp
    ensures 0 <= i * nx + x < tp * nx
  {
    MulStep(i, tp, nx);
    MulNonNegative(i, nx);
  }

  /** What the flag of an element says under a side's mask fixes how the side ends: it reads inner or COMM, the two
      cases in which the limiter follows the link, exactly when there is a neighbour in the mesh. */
  lemma FlagTellsNeighbour(e: Exchange, a: Place, s: nat, k: nat, flags: bv32)
    requires Elemental(e) && InGrid(e.tp, a) && s < 6 && k < BlockSize(e)
    requires Under(flags, s) == Bit(s, BoundOf(e, a, s, k))
    ensures forall b :: Under(flags, s) == Bit(s, b) <==> b == BoundOf(e, a, s, k)
    ensures Under(flags, s) == Bit(s, Inner) || Under(flags, s) == Bit(s, Comm)
       <==> InMesh(e, Beside(GlobalOf(e, a, CellOf(e, k)), DirAt(s)))
  {
    hide BlockSize, BoundOf, Under, Bit, InMesh, DirAt, CellOf, GlobalOf;
    BoundIsMeshEdge(e, a, s, k);
    forall b | Bit(s, b) == Bit(s, BoundOf(e, a, s, k)) ensures b == BoundOf(e, a, s, k) {
      FlagsAreDistinct(s, b, BoundOf(e, a, s, k));
    }
  }

  lemma MeshAxis(i: int, s: int, nx: nat, x: int, tp: nat)
    requires IsStep(s) && 0 <= x < nx && 0 <= i < tp
    ensures 0 <= i * nx + x + s < tp * nx <==> 0 <= i + s < tp || !(OnAxis(s, nx, x) && s != 0)
  {
    MulStep(i, tp, nx);
    MulNonNegative(i, nx);
    if i == tp - 1 {
      MulDistribute(i, 1, nx);
    } else {
      MulStep(i + 1, tp, nx);
      MulDistribute(i, 1, nx);
    }
    if i >= 1 {
      MulAtLeast(1, i, nx);
    }
  }

  /** Inside the block the link is the element one step away. */
  lemma InnerLinkIsBeside(e: Exchange, s: nat, k: nat)
    requires Elemental(e) && s < 6 && k < BlockSize(e) && InBlock(e, Beside(CellOf(e, k), DirAt(s)))
    ensures InnerLink(e.nx, s, BlockSize(e), k) == NodeIndex(e, Beside(CellOf(e, k), DirAt(s)))
  {
    var c := CellOf(e, k);
    CellOfNode(e, k);
    StepIndex(e, s, c);
    NodeOfCell(e, Beside(c, DirAt(s)));
    hide CellOf, BlockSize, NodeIndex, Stride;
  }

  lemma StepIndex(e: Exchange, s: nat, c: Cell)
    requires Elemental(e) && s < 6
    ensures NodeIndex(e, Beside(c, DirAt(s)))
         == if s % 2 == 0 then NodeIndex(e, c) - Stride(e.nx, s) else NodeIndex(e, c) + Stride(e.nx, s)
  {
    var n := e.nx;
    assert ((c.z - 1) * n + c.y) * n == (c.z * n + c.y) * n - n * n;
    assert ((c.z + 1) * n + c.y) * n == (c.z * n + c.y) * n + n * n;
    assert (c.z * n + (c.y - 1)) * n == (c.z * n + c.y) * n - n;
    assert (c.z * n + (c.y + 1)) * n == (c.z * n + c.y) * n + n;
  }

  /** Across a side shared with another rank, the mirrored element is one step away in the global mesh. */
  lemma MirrorIsBeside(e: Exchange, a: Place, s: nat, c: Cell)
    requires Elemental(e) && s < 6 && OnSide(e, DirAt(s), c)
    ensures GlobalOf(e, Move(a, DirAt(s)), Mirror(e, DirAt(s), c)) == Beside(GlobalOf(e, a, c), DirAt(s))
  {
    var d := DirAt(s);
    assert (a.col + d.c) * e.nx == a.col * e.nx + d.c * e.nx;
    assert (a.row + d.r) * e.nx == a.row * e.nx + d.r * e.nx;
    assert (a.plane + d.p) * e.nx == a.plane * e.nx + d.p * e.nx;
  }

  /** After CommMonoQ, following the link of an element across any side whose flag is inner or COMM reads the
      value of its geometric neighbour in the global mesh. */
  lemma LinkReadsNeighbour(e: Exchange, a: Place, mesh: Mesh, val: Values, send: Buffers, recv: seq<real>,
                           fields: array2<real>, s: nat, f: nat, k: nat)
    requires Elemental(e) && InGrid(e.tp, a) && |recv| == BufferSize(e, a) && Roomy(e, fields)
    requires Restricts(e, mesh, val)
    requires forall b :: InGrid(e.tp, b) ==> |send(b)| == BufferSize(e, b) && Sent(e, val, b, send(b))
    requires Delivered(e, send, a, recv)
    requires f < 3 && forall n: nat :: n < BlockSize(e) ==> fields[f, n] == val(a, f, n)
    requires GhostsHold(e, a, recv, fields, 6)
    requires s < 6 && k < BlockSize(e) && BoundOf(e, a, s, k) in {Inner, Comm}
    ensures 0 <= LinkOf(e, a, s, k) < fields.Length1
    ensures fields[f, LinkOf(e, a, s, k)] == mesh(f, Beside(GlobalOf(e, a, CellOf(e, k)), DirAt(s)))
  {
    hide BlockSize, BufferSize, Sent, Delivered, GhostsHold, DirAt, CellOf, GlobalOf, InnerLink, GhostStart, SidePos,
         Message, NodeIndex;
    if BoundOf(e, a, s, k) == Inner {
      BoundIsMeshEdge(e, a, s, k);
      ReadsInside(e, a, mesh, val, s, f, k);
    } else {
      ReadsGhost(e, a, mesh, val, send, recv, fields, s, f, k);
    }
  }

  lemma ReadsInside(e: Exchange, a: Place, mesh: Mesh, val: Values, s: nat, f: nat, k: nat)
    requires Elemental(e) && InGrid(e.tp, a) && Restricts(e, mesh, val) && s < 6 && f < 3 && k < BlockSize(e)
    requires InBlock(e, Beside(CellOf(e, k), DirAt(s)))
    ensures 0 <= InnerLink(e.nx, s, BlockSize(e), k) < BlockSize(e)
    ensures val(a, f, InnerLink(e.nx, s, BlockSize(e), k)) == mesh(f, Beside(GlobalOf(e, a, CellOf(e, k)), DirAt(s)))
  {
    hide BlockSize, DirAt, CellOf, InnerLink, NodeIndex;
    InnerLinkIsBeside(e, s, k);
    NodeOfCell(e, Beside(CellOf(e, k), DirAt(s)));
    assert GlobalOf(e, a, Beside(CellOf(e, k), DirAt(s))) == Beside(GlobalOf(e, a, CellOf(e, k)), DirAt(s));
  }

  lemma ReadsGhost(e: Exchange, a: Place, mesh: Mesh, val: Values, send: Buffers, recv: seq<real>,
                   fields: array2<real>, s: nat, f: nat, k: nat)
    requires Elemental(e) && InGrid(e.tp, a) && |recv| == BufferSize(e, a) && Roomy(e, fields)
    requires Restricts(e, mesh, val)
    requires forall b :: InGrid(e.tp, b) ==> |send(b)| == BufferSize(e, b) && Sent(e, val, b, send(b))
    requires Delivered(e, send, a, recv) && GhostsHold(e, a, recv, fields, 6)
    requires s < 6 && f < 3 && k < BlockSize(e) && OnSide(e, DirAt(s), CellOf(e, k)) && Exists(e, a, DirAt(s))
    ensures 0 <= GhostStart(e, a, s) + SidePos(e, DirAt(s), CellOf(e, k)) < fields.Length1
    ensures fields[f, GhostStart(e, a, s) + SidePos(e, DirAt(s), CellOf(e, k))]
         == mesh(f, Beside(GlobalOf(e, a, CellOf(e, k)), DirAt(s)))
  {
    hide BlockSize, BufferSize, Sent, Delivered, DirAt, CellOf, GlobalOf, GhostStart, SidePos, Message, NodeIndex,
         SideSize;
    SideStep(e, a, s);
    var t := PosOfNode(e, DirAt(s), k);
    assert t == SidePos(e, DirAt(s), CellOf(e, k));
    assert GhostHolds(e, a, recv, fields, s, f, t);
    GhostsInField(e, a, s);
    ReceivedValue(e, val, send, a, recv, f, k, s);
    MirrorIsBeside(e, a, s, CellOf(e, k));
    NodeOfCell(e, Mirror(e, DirAt(s), CellOf(e, k)));
  }
}
