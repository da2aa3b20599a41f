/** How the messages of all ranks reach their receivers. */
module HaloDelivery {
  import opened HaloGeometry
  import opened HaloMessages
  import opened HaloSides
  import opened HaloExchange

  // Field values of all ranks before the exchange: place, field, node or element.
  type Values = (Place, nat, nat) -> real

  // The send buffers of all ranks.
  type Buffers = Place -> seq<real>

  function Part(buffer: seq<real>, off: nat, count: nat): seq<real>
    requires off + count <= |buffer|
  {
    buffer[off..off + count]
  }

  /** The part of a communication buffer that message number `i` takes. */
  function Message(e: Exchange, a: Place, isSend: bool, i: nat, buffer: seq<real>): (m: seq<real>)
    requires Fits(e) && |buffer| == BufferSize(e, a) && i < 26 && Posts(e, a, isSend, true, i)
    ensures |m| == Count(e, DirAt(i))
  {
    hide Count, DirAt, Offset, Posts, BufferSize;
    SlotInBuffer(e, a, isSend, true, i);
    Part(buffer, Offset(e, a, isSend, true, i), Count(e, DirAt(i)))
  }

  lemma MessageValues(e: Exchange, a: Place, isSend: bool, i: nat, buffer: seq<real>)
    requires Fits(e) && |buffer| == BufferSize(e, a) && i < 26 && Posts(e, a, isSend, true, i)
    ensures Offset(e, a, isSend, true, i) + Count(e, DirAt(i)) <= |buffer|
    ensures forall k :: 0 <= k < Count(e, DirAt(i)) ==>
              Message(e, a, isSend, i, buffer)[k] == buffer[Offset(e, a, isSend, true, i) + k]
  {
    hide Count, DirAt, Offset, Posts, BufferSize;
    SlotInBuffer(e, a, isSend, true, i);
  }

  /** Where value `t` of field `f` lies inside a message. */
  function SlotOf(e: Exchange, d: Dir, f: nat, t: nat): (k: nat)
    requires f < e.fields && t < SideSize(e, d)
    ensures k < Count(e, d)
  {
    SlotInMessage(0, SideSize(e, d), f, t, e.fields);
    Slot(0, SideSize(e, d), f, t)
  }

  /** Receive number `i` of one rank and send number `j` of another name each other as peers. */
  predicate Paired(e: Exchange, a: Place, i: nat, b: Place, j: nat) {
    && i < 26 && j < 26 && InGrid(e.tp, b)
    && Posts(e, a, false, true, i) && RequestAt(e, a, false, true, i).peer == RankOf(e.tp, b)
    && Posts(e, b, true, true, j) && RequestAt(e, b, true, true, j).peer == RankOf(e.tp, a)
  }

  /** Each receive of a rank is filled by the send it is paired with. */
  ghost predicate Delivered(e: Exchange, send: Buffers, a: Place, recv: seq<real>)
    requires Fits(e) && |recv| == BufferSize(e, a)
    requires forall b :: InGrid(e.tp, b) ==> |send(b)| == BufferSize(e, b)
  {
    forall i: nat, b, j: nat :: Paired(e, a, i, b, j) ==>
      Message(e, a, false, i, recv) == Message(e, b, true, j, send(b))
  }

  ghost predicate SentValue(e: Exchange, val: Values, b: Place, send: seq<real>, j: nat, f: nat, t: nat)
    requires Fits(e) && |send| == BufferSize(e, b) && j < 26 && Posts(e, b, true, true, j)
    requires f < e.fields && t < SideSize(e, DirAt(j))
  {
    hide Count, DirAt, Posts, SideSize, BufferSize;
    Message(e, b, true, j, send)[SlotOf(e, DirAt(j), f, t)] == val(b, f, SideNode(e, DirAt(j), t))
  }

  /** The send buffer of a rank holds the values its fields had before the exchange. */
  ghost predicate Sent(e: Exchange, val: Values, b: Place, send: seq<real>)
    requires Fits(e) && |send| == BufferSize(e, b)
  {
    forall j: nat, f: nat, t: nat ::
      j < 26 && Posts(e, b, true, true, j) && f < e.fields && t < SideSize(e, DirAt(j)) ==>
        SentValue(e, val, b, send, j, f, t)
  }

  /** CommSend leaves such a buffer. */
  lemma PackedIsSent(e: Exchange, val: Values, b: Place, fields: array2<real>, send: seq<real>)
    requires Fits(e) && FieldsFit(e, fields) && |send| == BufferSize(e, b)
    requires forall f: nat, n: nat :: f < e.fields && n < BlockSize(e) ==> fields[f, n] == val(b, f, n)
    requires HoldsPosted(e, b, true, fields, send, 26)
    ensures Sent(e, val, b, send)
  {
    hide SideNode, BlockSize, Offset, SideSize, BufferSize, DirAt, Posts;
    forall j: nat, f: nat, t: nat
      | j < 26 && Posts(e, b, true, true, j) && f < e.fields && t < SideSize(e, DirAt(j))
      ensures SentValue(e, val, b, send, j, f, t)
    {
      MessageValues(e, b, true, j, send);
      assert HoldsMessage(e, b, true, fields, send, j);
      assert HoldsValue(e, DirAt(j), Offset(e, b, true, true, j), fields, send, f, t);
      SideNodeInBlock(e, DirAt(j), t);
      assert SlotOf(e, DirAt(j), f, t) < Count(e, DirAt(j));
    }
  }

  /** A receive that a rank posts is paired with a send of the neighbour it comes from. */
  lemma BothPost(e: Exchange, a: Place, i: nat)
    requires Fits(e) && InGrid(e.tp, a) && i < 26 && Posts(e, a, false, true, i)
    ensures Paired(e, a, i, Move(a, DirAt(i)), Partner(i))
  {
    hide DirAt, Partner;
    NumbersMatch(e, a, true, i);
  }

  /** Nothing else is paired with that receive: sender and receiver identify a message. */
  lemma PairedIsPartner(e: Exchange, a: Place, i: nat, b: Place, j: nat)
    requires Fits(e) && InGrid(e.tp, a) && Paired(e, a, i, b, j)
    ensures b == Move(a, DirAt(i)) && j == Partner(i)
  {
    hide DirAt, RankOf, IndexOf;
    var d, back := DirAt(i), DirAt(j);
    SameRankSamePlace(e.tp, Move(a, d), b);
    SameRankSamePlace(e.tp, Move(b, back), a);
    assert back == Opposite(d);
    DirAtIsADir(j);
    assert IndexOf(DirAt(Partner(i))) == Partner(i) by { DirAtIsADir(Partner(i)); }
  }

  lemma SameRankSamePlace(tp: nat, a: Place, b: Place)
    requires tp > 0 && InGrid(tp, a) && InGrid(tp, b) && RankOf(tp, a) == RankOf(tp, b)
    ensures a == b
  {
    PlaceRoundTrip(tp, a);
    PlaceRoundTrip(tp, b);
  }

  /** The receives of the first `n` directions are filled. */
  ghost predicate DeliveredUpTo(e: Exchange, send: Buffers, a: Place, recv: seq<real>, n: nat)
    requires Fits(e) && |recv| == BufferSize(e, a)
    requires forall b :: InGrid(e.tp, b) ==> |send(b)| == BufferSize(e, b)
  {
    forall i: nat, b, j: nat :: i < n && Paired(e, a, i, b, j) ==>
      Message(e, a, false, i, recv) == Message(e, b, true, j, send(b))
  }

  /** Whatever the ranks send, all messages of a rank can be delivered together, since each has its own slot. */
  lemma {:induction false} DeliveryExists(e: Exchange, send: Buffers, a: Place, n: nat) returns (recv: seq<real>)
    requires Fits(e) && InGrid(e.tp, a) && n <= 26
    requires forall b :: InGrid(e.tp, b) ==> |send(b)| == BufferSize(e, b)
    ensures |recv| == BufferSize(e, a) && DeliveredUpTo(e, send, a, recv, n)
    ensures n == 26 ==> Delivered(e, send, a, recv)
  {
    hide BufferSize, Message, Paired, Posts, DirAt, Offset, Count, Partner, DeliveredUpTo;
    if n == 0 {
      recv := seq(BufferSize(e, a), _ => 0.0);
      NothingDelivered(e, send, a, recv);
    } else {
      var before := DeliveryExists(e, send, a, n - 1);
      recv := before;
      if Posts(e, a, false, true, n - 1) {
        BothPost(e, a, n - 1);
        PairedBounds(e, a, n - 1);
        var b := Move(a, DirAt(n - 1));
        recv := Filled(e, a, n - 1, before, Message(e, b, true, Partner(n - 1), send(b)));
      }
      DeliverNext(e, send, a, n - 1, before, recv);
    }
    if n == 26 {
      AllDelivered(e, send, a, recv);
    }
  }

  lemma NothingDelivered(e: Exchange, send: Buffers, a: Place, recv: seq<real>)
    requires Fits(e) && |recv| == BufferSize(e, a)
    requires forall b :: InGrid(e.tp, b) ==> |send(b)| == BufferSize(e, b)
    ensures DeliveredUpTo(e, send, a, recv, 0)
  {
    hide BufferSize;
  }

  lemma AllDelivered(e: Exchange, send: Buffers, a: Place, recv: seq<real>)
    requires Fits(e) && |recv| == BufferSize(e, a)
    requires forall b :: InGrid(e.tp, b) ==> |send(b)| == BufferSize(e, b)
    requires DeliveredUpTo(e, send, a, recv, 26)
    ensures Delivered(e, send, a, recv)
  {
    hide BufferSize, Posts, Message, RequestAt, RankOf;
  }

  lemma DeliverNext(e: Exchange, send: Buffers, a: Place, n: nat, before: seq<real>, recv: seq<real>)
    requires Fits(e) && InGrid(e.tp, a) && n < 26 && |before| == |recv| == BufferSize(e, a)
    requires forall b :: InGrid(e.tp, b) ==> |send(b)| == BufferSize(e, b)
    requires DeliveredUpTo(e, send, a, before, n)
    requires forall i: nat :: i < n && Posts(e, a, false, true, i) ==>
               Message(e, a, false, i, recv) == Message(e, a, false, i, before)
    requires Posts(e, a, false, true, n) ==>
               var b := Move(a, DirAt(n));
               && InGrid(e.tp, b) && Posts(e, b, true, true, Partner(n))
               && Message(e, a, false, n, recv) == Message(e, b, true, Partner(n), send(b))
    ensures DeliveredUpTo(e, send, a, recv, n + 1)
  {
    hide BufferSize, Message, RequestAt, Posts, DirAt, Partner, RankOf;
    forall i: nat, b, j: nat | i < n + 1 && Paired(e, a, i, b, j)
      ensures Message(e, a, false, i, recv) == Message(e, b, true, j, send(b))
    {
      PairedIsPartner(e, a, i, b, j);
    }
  }

  lemma PairedBounds(e: Exchange, a: Place, i: nat)
    requires Fits(e) && InGrid(e.tp, a) && i < 26 && Paired(e, a, i, Move(a, DirAt(i)), Partner(i))
    ensures var b := Move(a, DirAt(i));
            && InGrid(e.tp, b) && Posts(e, a, false, true, i) && Posts(e, b, true, true, Partner(i))
            && Count(e, DirAt(Partner(i))) == Count(e, DirAt(i))
  {
    hide DirAt, Partner;
    NumbersMatch(e, a, true, i);
  }

  /** A receive buffer in which message `i` has been replaced; all earlier messages stay. */
  lemma Filled(e: Exchange, a: Place, i: nat, before: seq<real>, m: seq<real>) returns (recv: seq<real>)
    requires Fits(e) && |before| == BufferSize(e, a) && i < 26 && Posts(e, a, false, true, i)
    requires |m| == Count(e, DirAt(i))
    ensures |recv| == |before| && Message(e, a, false, i, recv) == m
    ensures forall j: nat :: j < i && Posts(e, a, false, true, j) ==>
              Message(e, a, false, j, recv) == Message(e, a, false, j, before)
  {
    hide BufferSize, Posts, DirAt, Offset, Count, Message;
    var off := Offset(e, a, false, true, i);
    SlotInBuffer(e, a, false, true, i);
    recv := before[..off] + m + before[off + |m|..];
    MessageValues(e, a, false, i, recv);
    forall j: nat | j < i && Posts(e, a, false, true, j)
      ensures Message(e, a, false, j, recv) == Message(e, a, false, j, before)
    {
      OffsetsGrow(e, a, false, true, j, i);
      MessageValues(e, a, false, j, recv);
      MessageValues(e, a, false, j, before);
    }
  }

  function Node(e: Exchange, c: Cell): (n: nat)
    requires InBlock(e, c)
    ensures n < BlockSize(e)
  {
    NodeOfCell(e, c);
    NodeIndex(e, c)
  }

  /** A shared node and its mirror have the same position in the messages both ways. */
  lemma OppositePos(e: Exchange, d: Dir, n: nat)
    requires Fits(e) && NodeOnSide(e, d, n)
    ensures SideSize(e, Opposite(d)) == SideSize(e, d)
    ensures InBlock(e, Mirror(e, d, CellOf(e, n)))
    ensures SideNode(e, Opposite(d), PosOfNode(e, d, n)) == Node(e, Mirror(e, d, CellOf(e, n)))
  {
    hide CellOf, SideSize, BlockSize, SidePos, SideCell, NodeIndex, Mirror, OnSide, InBlock;
    OppositeCell(e, d, CellOf(e, n), PosOfNode(e, d, n));
  }

  lemma OppositeCell(e: Exchange, d: Dir, c: Cell, t: nat)
    requires Fits(e) && OnSide(e, d, c) && t == SidePos(e, d, c)
    ensures SideSize(e, Opposite(d)) == SideSize(e, d)
    ensures InBlock(e, Mirror(e, d, c)) && SideCell(e, Opposite(d), t) == Mirror(e, d, c)
  {
    hide SideSize, SidePos, SideCell, Mirror, OnSide, InBlock;
    SidesAgree(e, d, c);
    PosOfCell(e, Opposite(d), Mirror(e, d, c));
    SideInBlock(e, Opposite(d), Mirror(e, d, c));
  }

  lemma SideInBlock(e: Exchange, d: Dir, c: Cell)
    requires OnSide(e, d, c)
    ensures InBlock(e, c)
  {
    hide Low;
  }

  /** What a rank receives at the position of a node of its side is the value that the sender has for the
      mirrored node. */
  lemma ReceivedValue(e: Exchange, val: Values, send: Buffers, a: Place, recv: seq<real>, f: nat, n: nat, i: nat)
    requires Fits(e) && InGrid(e.tp, a) && |recv| == BufferSize(e, a)
    requires forall b :: InGrid(e.tp, b) ==> |send(b)| == BufferSize(e, b) && Sent(e, val, b, send(b))
    requires Delivered(e, send, a, recv)
    requires f < e.fields && i < 26 && Posts(e, a, false, true, i) && NodeOnSide(e, DirAt(i), n)
    ensures InBlock(e, Mirror(e, DirAt(i), CellOf(e, n)))
    ensures Message(e, a, false, i, recv)[SlotOf(e, DirAt(i), f, PosOfNode(e, DirAt(i), n))]
         == val(Move(a, DirAt(i)), f, Node(e, Mirror(e, DirAt(i), CellOf(e, n))))
  {
    hide CellOf, Offset, BufferSize, DirAt, PosOfNode, Message, Posts, BlockSize, Partner;
    var d, b, j := DirAt(i), Move(a, DirAt(i)), Partner(i);
    BothPost(e, a, i);
    OppositePos(e, d, n);
    hide OnSide, Mirror, SideSize, SideNode, NodeOnSide;
    assert SentValue(e, val, b, send(b), j, f, PosOfNode(e, d, n));
  }
}
