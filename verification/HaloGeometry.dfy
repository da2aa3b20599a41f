/** The cube of ranks that LULESH runs on, and its 26 directions. */
module HaloGeometry {
  import opened Arithmetic

  // One step per axis: column (x), row (y), plane (z).
  datatype Dir = Dir(c: int, r: int, p: int)

  datatype Place = Place(col: int, row: int, plane: int)

  /** The order in which receives, sends and unpacking treat the neighbours: 6 faces, 12 edges, 8 corners. */
  function DirAt(i: nat): Dir
    requires i < 26
  {
    match i
    case 0 => Dir(0, 0, -1)
    case 1 => Dir(0, 0, 1)
    case 2 => Dir(0, -1, 0)
    case 3 => Dir(0, 1, 0)
    case 4 => Dir(-1, 0, 0)
    case 5 => Dir(1, 0, 0)
    case 6 => Dir(-1, -1, 0)
    case 7 => Dir(0, -1, -1)
    case 8 => Dir(-1, 0, -1)
    case 9 => Dir(1, 1, 0)
    case 10 => Dir(0, 1, 1)
    case 11 => Dir(1, 0, 1)
    case 12 => Dir(-1, 1, 0)
    case 13 => Dir(0, -1, 1)
    case 14 => Dir(-1, 0, 1)
    case 15 => Dir(1, -1, 0)
    case 16 => Dir(0, 1, -1)
    case 17 => Dir(1, 0, -1)
    case 18 => Dir(-1, -1, -1)
    case 19 => Dir(-1, -1, 1)
    case 20 => Dir(1, -1, -1)
    case 21 => Dir(1, -1, 1)
    case 22 => Dir(-1, 1, -1)
    case 23 => Dir(-1, 1, 1)
    case 24 => Dir(1, 1, -1)
    case _ => Dir(1, 1, 1)
  }

  predicate IsStep(s: int) { -1 <= s <= 1 }

  predicate IsDir(d: Dir) {
    IsStep(d.c) && IsStep(d.r) && IsStep(d.p) && d != Dir(0, 0, 0)
  }

  function Abs(s: int): nat { if s < 0 then -s else s }

  /** 1 for a face, 2 for an edge, 3 for a corner. */
  function Order(d: Dir): nat { Abs(d.c) + Abs(d.r) + Abs(d.p) }

  function Opposite(d: Dir): Dir { Dir(-d.c, -d.r, -d.p) }

  /** Directions whose send is unconditional and whose receive depends on the flag. */
  predicate IsLow(d: Dir) {
    if d.p != 0 then d.p < 0 else if d.r != 0 then d.r < 0 else d.c < 0
  }

  /** The place of a direction in that order. */
  function IndexOf(d: Dir): (i: nat)
    requires IsDir(d)
    ensures i < 26 && DirAt(i) == d
  {
    match 9 * (d.p + 1) + 3 * (d.r + 1) + (d.c + 1)
    case 0 => 18
    case 1 => 7
    case 2 => 20
    case 3 => 8
    case 4 => 0
    case 5 => 17
    case 6 => 22
    case 7 => 16
    case 8 => 24
    case 9 => 6
    case 10 => 2
    case 11 => 15
    case 12 => 4
    case 14 => 5
    case 15 => 12
    case 16 => 3
    case 17 => 9
    case 18 => 19
    case 19 => 13
    case 20 => 21
    case 21 => 14
    case 22 => 1
    case 23 => 11
    case 24 => 23
    case 25 => 10
    case _ => 25
  }

  /** All 26 directions occur once each, faces first, corners last. */
  lemma DirAtIsADir(i: nat)
    requires i < 26
    ensures IsDir(DirAt(i)) && IndexOf(DirAt(i)) == i
    ensures Order(DirAt(i)) == if i < 6 then 1 else if i < 18 then 2 else 3
  {
  }

  lemma OppositeFacts(d: Dir)
    requires IsDir(d)
    ensures IsDir(Opposite(d)) && Opposite(Opposite(d)) == d && Order(Opposite(d)) == Order(d)
    ensures IsLow(Opposite(d)) <==> !IsLow(d)
  {
  }

  /** The number of the direction back. */
  function Partner(i: nat): (j: nat)
    requires i < 26
    ensures j < 26 && DirAt(j) == Opposite(DirAt(i))
  {
    DirAtIsADir(i);
    OppositeFacts(DirAt(i));
    IndexOf(Opposite(DirAt(i)))
  }

  lemma PartnersPair(i: nat)
    requires i < 26
    ensures Partner(Partner(i)) == i
  {
    var j := Partner(i);
    DirAtIsADir(i);
    OppositeFacts(DirAt(i));
    hide DirAt, IndexOf;
    assert DirAt(Partner(j)) == DirAt(i);
    assert IndexOf(DirAt(Partner(j))) == Partner(j) by { DirAtIsADir(Partner(j)); }
  }

  // ----- ranks and places

  predicate InGrid(tp: nat, a: Place) {
    0 <= a.col < tp && 0 <= a.row < tp && 0 <= a.plane < tp
  }

  function Move(a: Place, d: Dir): Place {
    Place(a.col + d.c, a.row + d.r, a.plane + d.p)
  }

  function RankOf(tp: nat, a: Place): int {
    a.plane * (tp * tp) + a.row * tp + a.col
  }

  /** InitMeshDecomp, for a rank count that is the cube of `side`. */
  function PlaceOf(side: nat, rank: nat): Place
    requires side > 0
  {
    Place(rank % side, (rank / side) % side, rank / (side * side))
  }

  /** A place of the grid is found again from its rank. */
  lemma PlaceRoundTrip(tp: nat, a: Place)
    requires tp > 0 && InGrid(tp, a)
    ensures 0 <= RankOf(tp, a) < tp * (tp * tp)
    ensures PlaceOf(tp, RankOf(tp, a)) == a
  {
    MixedRadix(a.row, tp, a.col, tp);
    MixedRadix(a.plane, tp * tp, a.row * tp + a.col, tp);
    MulAssoc(a.plane, tp, tp);
    MulNonNegative(a.plane, tp);
    MulDistribute(a.plane * tp, a.row, tp);
    MixedRadix(a.plane, tp, a.row, tp);
    ModUnique(RankOf(tp, a), tp, a.plane * tp + a.row, a.col);
  }

  /** A rank is found again from its place, so that ranks and places of the grid correspond one to one. */
  lemma RankRoundTrip(tp: nat, rank: nat)
    requires tp > 0 && rank < tp * (tp * tp)
    ensures InGrid(tp, PlaceOf(tp, rank)) && RankOf(tp, PlaceOf(tp, rank)) == rank
  {
    var line := rank / tp;
    DivisionIdentity(rank, tp);
    DivisionIdentity(line, tp);
    RankAt(tp, line / tp, line % tp, rank % tp, rank);
  }

  lemma RankAt(tp: nat, plane: nat, row: nat, col: nat, rank: nat)
    requires row < tp && col < tp && rank == (plane * tp + row) * tp + col
    ensures rank / (tp * tp) == plane && rank == RankOf(tp, Place(col, row, plane))
    ensures rank < tp * (tp * tp) ==> plane < tp
  {
    MulDistribute(plane * tp, row, tp);
    MulAssoc(plane, tp, tp);
    MixedRadix(row, tp, col, tp);
    ModUnique(rank, tp * tp, plane, row * tp + col);
    if plane >= tp {
      MulAtLeast(tp, plane, tp * tp);
    }
  }
}
