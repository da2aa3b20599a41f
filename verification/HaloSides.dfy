/** The block of nodes or elements of one rank, its sides, and the order in which a side is packed. */
module HaloSides {
  import opened Arithmetic
  import opened HaloGeometry
  import opened HaloMessages

  datatype Cell = Cell(x: int, y: int, z: int)

  predicate InBlock(e: Exchange, c: Cell) {
    0 <= c.x < e.dx && 0 <= c.y < e.dy && 0 <= c.z < e.dz
  }

  function BlockSize(e: Exchange): nat { e.dz * (e.dy * e.dx) }

  /** The position of a cell in a field. */
  function NodeIndex(e: Exchange, c: Cell): int { Flat(c.z, c.y, c.x, e.dy, e.dx) }

  function CellOf(e: Exchange, n: nat): Cell
    requires e.dx > 0 && e.dy > 0
  {
    Cell(LowDigit(n, e.dx), MiddleDigit(n, e.dy, e.dx), HighDigit(n, e.dy, e.dx))
  }

  lemma NodeOfCell(e: Exchange, c: Cell)
    requires InBlock(e, c)
    ensures 0 <= NodeIndex(e, c) < BlockSize(e) && CellOf(e, NodeIndex(e, c)) == c
  {
    FlatDigits(c.z, c.y, c.x, e.dz, e.dy, e.dx);
    hide Flat, LowDigit, MiddleDigit, HighDigit;
  }

  lemma CellOfNode(e: Exchange, n: nat)
    requires e.dx > 0 && e.dy > 0 && n < BlockSize(e)
    ensures InBlock(e, CellOf(e, n)) && NodeIndex(e, CellOf(e, n)) == n
  {
    DigitsFlat(n, e.dz, e.dy, e.dx);
    hide Flat, LowDigit, MiddleDigit, HighDigit;
  }

  /** The node or element of the global mesh that a cell of a rank stands for. */
  function GlobalOf(e: Exchange, a: Place, c: Cell): Cell {
    Cell(a.col * e.nx + c.x, a.row * e.nx + c.y, a.plane * e.nx + c.z)
  }

  /** The first coordinate of the side towards `step` along one axis. */
  function Low(step: int, size: nat): int { if step > 0 then size - 1 else 0 }

  predicate OnAxis(step: int, size: nat, c: int) {
    0 <= c < size && (step == 0 || c == Low(step, size))
  }

  predicate OnSide(e: Exchange, d: Dir, c: Cell) {
    OnAxis(d.c, e.dx, c.x) && OnAxis(d.r, e.dy, c.y) && OnAxis(d.p, e.dz, c.z)
  }

  /** The cell that a message for direction `d` holds at position `t`: x runs fastest, then y, then z. */
  function SideCell(e: Exchange, d: Dir, t: nat): Cell
    requires e.dx > 0 && e.dy > 0
  {
    var m, n := Extent(d.r, e.dy), Extent(d.c, e.dx);
    Cell(Low(d.c, e.dx) + LowDigit(t, n), Low(d.r, e.dy) + MiddleDigit(t, m, n), Low(d.p, e.dz) + HighDigit(t, m, n))
  }

  function SidePos(e: Exchange, d: Dir, c: Cell): int {
    Flat(c.z - Low(d.p, e.dz), c.y - Low(d.r, e.dy), c.x - Low(d.c, e.dx), Extent(d.r, e.dy), Extent(d.c, e.dx))
  }

  lemma PosOfCell(e: Exchange, d: Dir, c: Cell)
    requires OnSide(e, d, c)
    ensures 0 <= SidePos(e, d, c) < SideSize(e, d) && SideCell(e, d, SidePos(e, d, c)) == c
  {
    FlatDigits(c.z - Low(d.p, e.dz), c.y - Low(d.r, e.dy), c.x - Low(d.c, e.dx),
               Extent(d.p, e.dz), Extent(d.r, e.dy), Extent(d.c, e.dx));
    hide Flat, LowDigit, MiddleDigit, HighDigit;
  }

  lemma CellOfPos(e: Exchange, d: Dir, t: nat)
    requires e.dx > 0 && e.dy > 0 && e.dz > 0 && t < SideSize(e, d)
    ensures OnSide(e, d, SideCell(e, d, t)) && SidePos(e, d, SideCell(e, d, t)) == t
  {
    DigitsFlat(t, Extent(d.p, e.dz), Extent(d.r, e.dy), Extent(d.c, e.dx));
    hide Flat, LowDigit, MiddleDigit, HighDigit;
  }

  /** The cell of the neighbour towards `d` that lies opposite a cell of the side. */
  function Mirror(e: Exchange, d: Dir, c: Cell): Cell {
    Cell(if d.c == 0 then c.x else Low(-d.c, e.dx),
         if d.r == 0 then c.y else Low(-d.r, e.dy),
         if d.p == 0 then c.z else Low(-d.p, e.dz))
  }

  /** Both ranks pack and unpack a shared side in the same order. */
  lemma SidesAgree(e: Exchange, d: Dir, c: Cell)
    requires OnSide(e, d, c)
    ensures OnSide(e, Opposite(d), Mirror(e, d, c))
    ensures SidePos(e, Opposite(d), Mirror(e, d, c)) == SidePos(e, d, c)
    ensures SideSize(e, Opposite(d)) == SideSize(e, d)
  {
    SameExtents(e, d);
    AxesAgree(d.c, e.dx, c.x);
    AxesAgree(d.r, e.dy, c.y);
    AxesAgree(d.p, e.dz, c.z);
    hide Flat, Low, OnAxis, Extent, SideSize;
  }

  lemma SameExtents(e: Exchange, d: Dir)
    ensures SideSize(e, Opposite(d)) == SideSize(e, d)
  {
    assert Extent(-d.c, e.dx) == Extent(d.c, e.dx) && Extent(-d.r, e.dy) == Extent(d.r, e.dy);
    assert Extent(-d.p, e.dz) == Extent(d.p, e.dz);
    hide Extent;
  }

  lemma AxesAgree(step: int, size: nat, c: int)
    requires OnAxis(step, size, c)
    ensures var m := if step == 0 then c else Low(-step, size);
            && OnAxis(-step, size, m) && m - Low(-step, size) == c - Low(step, size)
            && Extent(-step, size) == Extent(step, size)
  {
  }

  // ----- the order of a message

  /** Plane first, then row, then column. */
  predicate Earlier(z: int, y: int, x: int, z': int, y': int, x': int) {
    z < z' || (z == z' && (y < y' || (y == y' && x < x')))
  }

  lemma FlatIncreases(z: int, y: int, x: int, z': int, y': int, x': int, m: nat, n: nat)
    requires 0 <= y < m && 0 <= y' < m && 0 <= x < n && 0 <= x' < n && 0 <= z && 0 <= z'
    requires Earlier(z, y, x, z', y', x')
    ensures Flat(z, y, x, m, n) < Flat(z', y', x', m, n)
  {
    if z < z' {
      MulStep(z, z', m);
    }
    var line, line' := z * m + y, z' * m + y';
    MulNonNegative(z, m);
    MulNonNegative(z', m);
    if line < line' {
      MulStep(line, line', n);
    }
  }

  lemma FlatIsOrder(z: int, y: int, x: int, z': int, y': int, x': int, m: nat, n: nat)
    requires 0 <= y < m && 0 <= y' < m && 0 <= x < n && 0 <= x' < n && 0 <= z && 0 <= z'
    ensures Flat(z, y, x, m, n) < Flat(z', y', x', m, n) <==> Earlier(z, y, x, z', y', x')
  {
    hide Flat;
    if Earlier(z, y, x, z', y', x') {
      FlatIncreases(z, y, x, z', y', x', m, n);
    } else if Earlier(z', y', x', z, y, x) {
      FlatIncreases(z', y', x', z, y, x, m, n);
    } else {
      assert z == z' && y == y' && x == x';
    }
  }

  /** A message lists the cells of a side in the order in which they lie in the field. */
  lemma MessageKeepsOrder(e: Exchange, d: Dir, c: Cell, c': Cell)
    requires OnSide(e, d, c) && OnSide(e, d, c')
    ensures SidePos(e, d, c) < SidePos(e, d, c') <==> NodeIndex(e, c) < NodeIndex(e, c')
  {
    var lx, ly, lz := Low(d.c, e.dx), Low(d.r, e.dy), Low(d.p, e.dz);
    FlatIsOrder(c.z, c.y, c.x, c'.z, c'.y, c'.x, e.dy, e.dx);
    FlatIsOrder(c.z - lz, c.y - ly, c.x - lx, c'.z - lz, c'.y - ly, c'.x - lx, Extent(d.r, e.dy), Extent(d.c, e.dx));
    hide Flat;
  }
}
