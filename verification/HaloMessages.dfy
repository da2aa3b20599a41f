/** Which messages a rank posts, and where they lie in its communication buffers. */
module HaloMessages {
  import opened Arithmetic
  import opened HaloGeometry

  // MAX_FIELDS_PER_MPI_COMM, and CACHE_COHERENCE_PAD_REAL for 8-byte reals
  const MAX_FIELDS := 6
  const PAD := 16

  /** CACHE_ALIGN_REAL: rounds up to a multiple of the padding. */
  function AlignReal(n: nat): (r: nat)
    ensures n <= r < n + PAD && r % PAD == 0
  {
    (n + (PAD - 1)) / PAD * PAD
  }

  /** The macro clears the low bits of a sum; this is the same rounding. */
  lemma AlignIsMasking(n: bv32)
    requires n <= 0x7FFF_FFF0
    ensures (n + 15) & !15 == (n + 15) / 16 * 16
  {
  }

  /** One exchange: `tp` ranks a side of `nx` elements a side, so many fields of a dx * dy * dz block. */
  datatype Exchange = Exchange(tp: nat, nx: nat, fields: nat, dx: nat, dy: nat, dz: nat, planeOnly: bool)

  /** What every caller passes: blocks of nodes or of elements, and no more fields than fit. */
  predicate Fits(x: Exchange) {
    && 1 <= x.tp && 1 <= x.nx && x.fields <= MAX_FIELDS
    && 1 <= x.dx <= x.nx + 1 && 1 <= x.dy <= x.nx + 1 && 1 <= x.dz <= x.nx + 1
  }

  function MaxPlaneSize(x: Exchange): nat { AlignReal((x.nx + 1) * (x.nx + 1)) }
  function MaxEdgeSize(x: Exchange): nat { AlignReal(x.nx + 1) }

  // The number of entries along an axis that a direction leaves free, or one.
  function Extent(step: int, size: nat): nat { if step == 0 then size else 1 }

  /** The number of nodes or elements of a block that lie on the side towards `d`. */
  function SideSize(x: Exchange, d: Dir): nat {
    Extent(d.p, x.dz) * (Extent(d.r, x.dy) * Extent(d.c, x.dx))
  }

  function Count(x: Exchange, d: Dir): nat { x.fields * SideSize(x, d) }

  /** The space reserved for one message. */
  function SlotSize(x: Exchange, d: Dir): nat {
    if Order(d) == 1 then x.fields * MaxPlaneSize(x)
    else if Order(d) == 2 then x.fields * MaxEdgeSize(x)
    else PAD
  }

  lemma SideFits(x: Exchange, d: Dir)
    requires Fits(x) && IsDir(d)
    ensures SideSize(x, d) <= if Order(d) == 1 then MaxPlaneSize(x) else if Order(d) == 2 then MaxEdgeSize(x) else 1
  {
    var a, b, c := Extent(d.p, x.dz), Extent(d.r, x.dy), Extent(d.c, x.dx);
    ProductFits(a, b, x.nx + 1);
    ProductFits(a, c, x.nx + 1);
    ProductFits(b, c, x.nx + 1);
    hide AlignReal;
  }

  lemma ProductFits(a: nat, b: nat, n: nat)
    requires a <= n && b <= n
    ensures a * b <= n * n
    ensures 1 * (a * b) == a * b && a * (1 * b) == a * b && a * (b * 1) == a * b
  {
    if a < n { MulStep(a, n, b); }
    if b < n { MulStep(b, n, n); }
    assert a * b <= n * b && b * n <= n * n;
  }

  lemma CountFits(x: Exchange, d: Dir)
    requires Fits(x) && IsDir(d)
    ensures Count(x, d) <= SlotSize(x, d)
  {
    SideFits(x, d);
    hide SideSize, MaxPlaneSize, MaxEdgeSize;
    var m := if Order(d) == 1 then MaxPlaneSize(x) else if Order(d) == 2 then MaxEdgeSize(x) else 1;
    MulMono(SideSize(x, d), m, x.fields);
  }

  lemma MulMono(a: nat, b: nat, k: nat)
    requires a <= b
    ensures k * a <= k * b
  {
    if a < b { MulStep(a, b, k); }
  }

  // ----- who talks to whom

  predicate Exists(x: Exchange, a: Place, d: Dir) {
    InGrid(x.tp, Move(a, d))
  }

  predicate Wanted(x: Exchange, d: Dir) {
    x.planeOnly ==> Order(d) == 1
  }

  predicate Receives(x: Exchange, a: Place, doRecv: bool, d: Dir) {
    Exists(x, a, d) && Wanted(x, d) && (IsLow(d) ==> doRecv)
  }

  predicate Sends(x: Exchange, a: Place, doSend: bool, d: Dir) {
    Exists(x, a, d) && Wanted(x, d) && (!IsLow(d) ==> doSend)
  }

  /** Whether a rank posts the message number `i`, as a receive or as a send. */
  predicate Posts(x: Exchange, a: Place, isSend: bool, flag: bool, i: nat)
    requires i < 26
  {
    if isSend then Sends(x, a, flag, DirAt(i)) else Receives(x, a, flag, DirAt(i))
  }

  /** A rank receives from direction `d` exactly when its neighbour there sends back along the opposite
      direction, the counts agree, and each is the other's neighbour. */
  lemma MessagesMatch(x: Exchange, a: Place, flag: bool, d: Dir)
    requires Fits(x) && InGrid(x.tp, a) && IsDir(d) && InGrid(x.tp, Move(a, d))
    ensures Receives(x, a, flag, d) <==> Sends(x, Move(a, d), flag, Opposite(d))
    ensures Count(x, d) == Count(x, Opposite(d))
    ensures Move(Move(a, d), Opposite(d)) == a
  {
    OppositeFacts(d);
  }

  /** The same for message numbers: the receive number `i` of one rank pairs with exactly one send of the
      neighbour, and every send pairs with a receive. */
  lemma NumbersMatch(x: Exchange, a: Place, flag: bool, i: nat)
    requires Fits(x) && InGrid(x.tp, a) && i < 26 && InGrid(x.tp, Move(a, DirAt(i)))
    ensures var b, j := Move(a, DirAt(i)), Partner(i);
            && Move(b, DirAt(j)) == a && Partner(j) == i
            && (Posts(x, a, false, flag, i) <==> Posts(x, b, true, flag, j))
            && Count(x, DirAt(i)) == Count(x, DirAt(j))
  {
    DirAtIsADir(i);
    PartnersPair(i);
    hide Partner, DirAt, Receives, Sends, Count;
    MessagesMatch(x, a, flag, DirAt(i));
  }

  /** Different directions lead to different ranks, so sender and receiver identify a message. */
  lemma PeersDiffer(tp: nat, a: Place, d: Dir, e: Dir)
    requires tp > 0 && InGrid(tp, Move(a, d)) && InGrid(tp, Move(a, e)) && d != e
    ensures RankOf(tp, Move(a, d)) != RankOf(tp, Move(a, e))
  {
    PlaceRoundTrip(tp, Move(a, d));
    PlaceRoundTrip(tp, Move(a, e));
  }

  // ----- where messages lie

  /** The offset of message number `i`: the slots of the messages posted before it. */
  function Offset(x: Exchange, a: Place, isSend: bool, flag: bool, i: nat): nat
    requires i <= 26
  {
    if i == 0 then 0
    else Offset(x, a, isSend, flag, i - 1)
         + if Posts(x, a, isSend, flag, i - 1) then SlotSize(x, DirAt(i - 1)) else 0
  }

  lemma {:induction false} OffsetsGrow(x: Exchange, a: Place, isSend: bool, flag: bool, i: nat, j: nat)
    requires Fits(x) && i < j <= 26 && Posts(x, a, isSend, flag, i)
    ensures Offset(x, a, isSend, flag, i) + Count(x, DirAt(i)) <= Offset(x, a, isSend, flag, j)
    decreases j
  {
    if i == j - 1 {
      DirAtIsADir(i);
      CountFits(x, DirAt(i));
    } else {
      OffsetsGrow(x, a, isSend, flag, i, j - 1);
    }
    hide Posts, SlotSize, Count, DirAt;
  }

  /** The size of the two communication buffers. */
  function BufferSize(x: Exchange, a: Place): nat {
    BufferPart(x, a, 26)
  }

  /** The share of the first `i` directions in the buffer size. */
  function BufferPart(x: Exchange, a: Place, i: nat): nat
    requires i <= 26
  {
    if i == 0 then 0
    else BufferPart(x, a, i - 1)
         + if !Exists(x, a, DirAt(i - 1)) then 0
           else if Order(DirAt(i - 1)) == 3 then PAD else MaxPlaneSize(x) * MAX_FIELDS
  }

  lemma {:induction false} OffsetsFit(x: Exchange, a: Place, isSend: bool, flag: bool, i: nat)
    requires Fits(x) && i <= 26
    ensures Offset(x, a, isSend, flag, i) <= BufferPart(x, a, i)
  {
    if i > 0 {
      OffsetsFit(x, a, isSend, flag, i - 1);
      DirAtIsADir(i - 1);
      SlotFits(x, DirAt(i - 1));
      hide SlotSize, DirAt, MaxPlaneSize;
    }
  }

  lemma SlotFits(x: Exchange, d: Dir)
    requires Fits(x) && IsDir(d)
    ensures SlotSize(x, d) <= if Order(d) == 3 then PAD else MaxPlaneSize(x) * MAX_FIELDS
  {
    var n := x.nx + 1;
    assert n <= n * n by { MulMono(1, n, n); }
    AlignGrows(n, n * n);
    hide AlignReal;
    MulMono(x.fields, MAX_FIELDS, MaxPlaneSize(x));
    MulMono(x.fields, MAX_FIELDS, MaxEdgeSize(x));
  }

  lemma AlignGrows(a: nat, b: nat)
    requires a <= b
    ensures AlignReal(a) <= AlignReal(b)
  {
  }

  lemma SlotInBuffer(x: Exchange, a: Place, isSend: bool, flag: bool, i: nat)
    requires Fits(x) && i < 26 && Posts(x, a, isSend, flag, i)
    ensures Offset(x, a, isSend, flag, i) + Count(x, DirAt(i)) <= BufferSize(x, a)
  {
    hide Offset, BufferPart, Count, Posts, DirAt;
    OffsetsGrow(x, a, isSend, flag, i, 26);
    OffsetsFit(x, a, isSend, flag, 26);
  }

  /** On every rank the message slots are pairwise disjoint and lie inside the allocated buffer. */
  lemma SlotsAreDisjoint(x: Exchange, a: Place, isSend: bool, flag: bool, i: nat)
    requires Fits(x) && i < 26 && Posts(x, a, isSend, flag, i)
    ensures Offset(x, a, isSend, flag, i) + Count(x, DirAt(i)) <= BufferSize(x, a)
    ensures forall j :: i < j < 26 && Posts(x, a, isSend, flag, j) ==>
              Offset(x, a, isSend, flag, i) + Count(x, DirAt(i)) <= Offset(x, a, isSend, flag, j)
  {
    hide Offset, BufferPart, Count, Posts, DirAt;
    SlotInBuffer(x, a, isSend, flag, i);
    forall j | i < j < 26 && Posts(x, a, isSend, flag, j)
      ensures Offset(x, a, isSend, flag, i) + Count(x, DirAt(i)) <= Offset(x, a, isSend, flag, j)
    {
      OffsetsGrow(x, a, isSend, flag, i, j);
    }
  }

  // ----- posting

  // What is handed to MPI_Irecv or MPI_Isend.
  datatype Request = Request(peer: int, offset: nat, count: nat)

  function RequestAt(x: Exchange, a: Place, isSend: bool, flag: bool, i: nat): Request
    requires i < 26
  {
    Request(RankOf(x.tp, Move(a, DirAt(i))), Offset(x, a, isSend, flag, i), Count(x, DirAt(i)))
  }

  /** The requests of the first `i` directions, in order. */
  function Requests(x: Exchange, a: Place, isSend: bool, flag: bool, i: nat): seq<Request>
    requires i <= 26
  {
    if i == 0 then []
    else Requests(x, a, isSend, flag, i - 1)
         + if Posts(x, a, isSend, flag, i - 1) then [RequestAt(x, a, isSend, flag, i - 1)] else []
  }

  /** The three counters of a posting routine and the offset they stand for. */
  datatype Counters = Counters(pmsg: nat, emsg: nat, cmsg: nat)

  function OffsetOf(x: Exchange, k: Counters): nat {
    MulNonNegative(k.pmsg, x.fields * MaxPlaneSize(x));
    MulNonNegative(k.emsg, x.fields * MaxEdgeSize(x));
    k.pmsg * (x.fields * MaxPlaneSize(x)) + k.emsg * (x.fields * MaxEdgeSize(x)) + k.cmsg * PAD
  }

  function Bump(k: Counters, d: Dir): Counters {
    if Order(d) == 1 then k.(pmsg := k.pmsg + 1)
    else if Order(d) == 2 then k.(emsg := k.emsg + 1)
    else k.(cmsg := k.cmsg + 1)
  }

  lemma BumpAddsASlot(x: Exchange, k: Counters, d: Dir)
    ensures OffsetOf(x, Bump(k, d)) == OffsetOf(x, k) + SlotSize(x, d)
  {
    hide MaxPlaneSize, MaxEdgeSize;
    MulDistribute(k.pmsg, 1, x.fields * MaxPlaneSize(x));
    MulDistribute(k.emsg, 1, x.fields * MaxEdgeSize(x));
    MulDistribute(k.cmsg, 1, PAD);
  }

  lemma OneRankIsAlone(x: Exchange, a: Place, isSend: bool, flag: bool, i: nat)
    requires (x.tp == 1 || i == 0) && InGrid(x.tp, a) && i <= 26
    ensures Requests(x, a, isSend, flag, i) == [] && Offset(x, a, isSend, flag, i) == 0
    ensures forall j :: 0 <= j < i ==> !Posts(x, a, isSend, flag, j)
  {
    if i > 0 {
      DirAtIsADir(i - 1);
      OneRankIsAlone(x, a, isSend, flag, i - 1);
    }
  }

  /** Posts the receives: peers, offsets and counts, in the order of the directions. */
  method CommRecv(x: Exchange, a: Place, myRank: int, doRecv: bool) returns (requests: seq<Request>)
    requires Fits(x) && InGrid(x.tp, a) && myRank == RankOf(x.tp, a)
    ensures requests == Requests(x, a, false, doRecv, 26)
  {
    requests := [];
    OneRankIsAlone(x, a, false, doRecv, if x.tp == 1 then 26 else 0);
    if x.tp == 1 {
      return;
    }
    var k := Counters(0, 0, 0);
    NoneYet(x, a, false, doRecv);
    hide *;
    for i := 0 to 26
      invariant requests == Requests(x, a, false, doRecv, i)
      invariant OffsetOf(x, k) == Offset(x, a, false, doRecv, i)
    {
      var d := DirAt(i);
      NextReceive(x, a, doRecv, i);
      if Receives(x, a, doRecv, d) {
        var fromRank := PeerOf(myRank, x.tp, d);
        requests := requests + [Request(fromRank, OffsetOf(x, k), Count(x, d))];
        BumpAddsASlot(x, k, d);
        k := Bump(k, d);
      }
    }
  }

  lemma NoneYet(x: Exchange, a: Place, isSend: bool, flag: bool)
    ensures OffsetOf(x, Counters(0, 0, 0)) == 0 == Offset(x, a, isSend, flag, 0)
    ensures Requests(x, a, isSend, flag, 0) == []
  {
  }

  lemma NextRequest(x: Exchange, a: Place, isSend: bool, flag: bool, i: nat)
    requires i < 26
    ensures Requests(x, a, isSend, flag, i + 1)
         == if Posts(x, a, isSend, flag, i) then Requests(x, a, isSend, flag, i) + [RequestAt(x, a, isSend, flag, i)]
            else Requests(x, a, isSend, flag, i)
    ensures Offset(x, a, isSend, flag, i + 1)
         == Offset(x, a, isSend, flag, i) + if Posts(x, a, isSend, flag, i) then SlotSize(x, DirAt(i)) else 0
  {
    hide Posts, RequestAt, SlotSize, DirAt;
  }

  lemma NextReceive(x: Exchange, a: Place, doRecv: bool, i: nat)
    requires i < 26
    ensures var d := DirAt(i);
            && Requests(x, a, false, doRecv, i + 1) == Requests(x, a, false, doRecv, i) + (
                 if Receives(x, a, doRecv, d)
                 then [Request(PeerOf(RankOf(x.tp, a), x.tp, d), Offset(x, a, false, doRecv, i), Count(x, d))] else [])
            && Offset(x, a, false, doRecv, i + 1)
            == Offset(x, a, false, doRecv, i) + if Receives(x, a, doRecv, d) then SlotSize(x, d) else 0
  {
    hide Receives, DirAt, Count, SlotSize, RankOf, PeerOf, Move, Requests, Offset;
    NextRequest(x, a, false, doRecv, i);
    NeighbourRank(x.tp, a, DirAt(i));
  }

  /** The rank number that a posting routine computes for its neighbour. */
  function PeerOf(myRank: int, tp: nat, d: Dir): int {
    myRank + d.p * (tp * tp) + d.r * tp + d.c
  }

  lemma NeighbourRank(tp: nat, a: Place, d: Dir)
    ensures RankOf(tp, Move(a, d)) == PeerOf(RankOf(tp, a), tp, d)
  {
    assert (a.plane + d.p) * (tp * tp) == a.plane * (tp * tp) + d.p * (tp * tp);
    assert (a.row + d.r) * tp == a.row * tp + d.r * tp;
  }

  // ----- which way a one-sided exchange goes

  /** The sign of a sum of steps is that of the step along the slowest axis. */
  lemma StepSign(tp: nat, d: Dir)
    requires tp >= 2 && IsDir(d)
    ensures var rise := d.p * (tp * tp) + d.r * tp + d.c; if IsLow(d) then rise < 0 else rise > 0
  {
    MulStep(1, tp, tp);
    assert d.p * (tp * tp) == if d.p == 0 then 0 else if d.p > 0 then tp * tp else 0 - tp * tp;
    assert d.r * tp == if d.r == 0 then 0 else if d.r > 0 then tp else 0 - tp;
  }

  /** The ranks that an exchange reaches: all of them, or with the flag off only lower ones by sends and only higher
      ones by receives. */
  predicate OnItsSide(tp: nat, a: Place, isSend: bool, flag: bool, b: Place) {
    flag || if isSend then RankOf(tp, b) < RankOf(tp, a) else RankOf(tp, b) > RankOf(tp, a)
  }

  /** With the flag off a rank receives from higher ranks and sends to lower ranks only; with it on it exchanges
      with all neighbours; and an exchange of planes leaves out all but the six faces. */
  lemma PostsByRank(x: Exchange, a: Place, isSend: bool, flag: bool, i: nat)
    requires InGrid(x.tp, a) && i < 26
    ensures var b := Move(a, DirAt(i));
            Posts(x, a, isSend, flag, i) <==>
            InGrid(x.tp, b) && (x.planeOnly ==> i < 6) && OnItsSide(x.tp, a, isSend, flag, b)
  {
    DirAtIsADir(i);
    var d := DirAt(i);
    NeighbourRank(x.tp, a, d);
    hide DirAt, IsLow, RankOf;
    if InGrid(x.tp, Move(a, d)) {
      StepSign(x.tp, d);
    }
  }

  /** The step from one place to another. */
  function StepTo(a: Place, b: Place): Dir { Dir(b.col - a.col, b.row - a.row, b.plane - a.plane) }

  ghost predicate Asks(requests: seq<Request>, peer: int, count: nat) {
    exists r :: r in requests && r.peer == peer && r.count == count
  }

  lemma {:induction false} AsksByNumber(x: Exchange, a: Place, isSend: bool, flag: bool, i: nat, b: Place)
    requires InGrid(x.tp, a) && InGrid(x.tp, b) && IsDir(StepTo(a, b)) && i <= 26
    ensures var d := StepTo(a, b);
            Asks(Requests(x, a, isSend, flag, i), RankOf(x.tp, b), Count(x, d)) <==>
            IndexOf(d) < i && Posts(x, a, isSend, flag, IndexOf(d))
  {
    var d := StepTo(a, b);
    hide IndexOf, DirAt, Count, RankOf, Posts;
    if i > 0 {
      AsksByNumber(x, a, isSend, flag, i - 1, b);
      DirAtIsADir(i - 1);
      assert DirAt(IndexOf(d)) == d && Move(a, d) == b;
      if Posts(x, a, isSend, flag, i - 1) {
        PostsExist(x, a, isSend, flag, i - 1);
        if DirAt(i - 1) != d {
          PeersDiffer(x.tp, a, DirAt(i - 1), d);
        }
        AsksMore(Requests(x, a, isSend, flag, i - 1), RequestAt(x, a, isSend, flag, i - 1),
                 RankOf(x.tp, b), Count(x, d));
      }
    }
  }

  lemma PostsExist(x: Exchange, a: Place, isSend: bool, flag: bool, i: nat)
    requires i < 26 && Posts(x, a, isSend, flag, i)
    ensures InGrid(x.tp, Move(a, DirAt(i)))
  {
    hide DirAt;
  }

  lemma AsksMore(requests: seq<Request>, r: Request, peer: int, count: nat)
    ensures Asks(requests + [r], peer, count) <==> Asks(requests, peer, count) || (r.peer == peer && r.count == count)
  {
    if r.peer == peer && r.count == count {
      assert r in requests + [r];
    }
    if q :| q in requests && q.peer == peer && q.count == count {
      assert q in requests + [r];
    }
  }

  /** The routine asks for a message from, or to, another rank exactly when that rank is one step away and on the
      right side of this one, and then with all fields of the side between them. */
  lemma RequestsReach(x: Exchange, a: Place, isSend: bool, flag: bool, b: Place)
    requires InGrid(x.tp, a) && InGrid(x.tp, b) && IsDir(StepTo(a, b))
    ensures var d := StepTo(a, b);
            Asks(Requests(x, a, isSend, flag, 26), RankOf(x.tp, b), Count(x, d)) <==>
            (x.planeOnly ==> Order(d) == 1) && OnItsSide(x.tp, a, isSend, flag, b)
  {
    hide *;
    AsksByNumber(x, a, isSend, flag, 26, b);
    PostsTo(x, a, isSend, flag, b);
  }

  lemma PostsTo(x: Exchange, a: Place, isSend: bool, flag: bool, b: Place)
    requires InGrid(x.tp, a) && InGrid(x.tp, b) && IsDir(StepTo(a, b))
    ensures Posts(x, a, isSend, flag, IndexOf(StepTo(a, b))) <==>
            (x.planeOnly ==> Order(StepTo(a, b)) == 1) && OnItsSide(x.tp, a, isSend, flag, b)
  {
    hide DirAt, IndexOf, Posts, RankOf;
    var i := IndexOf(StepTo(a, b));
    PostsByRank(x, a, isSend, flag, i);
    DirAtIsADir(i);
    assert Move(a, DirAt(i)) == b;
  }
}
