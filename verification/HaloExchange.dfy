/** Packing the sides of a block into the send buffer, and adding received sides to the fields. */
module HaloExchange {
  import opened Arithmetic
  import opened HaloGeometry
  import opened HaloMessages
  import opened HaloSides

  /** Where value `t` of field `f` lies in a message that starts at `off`. */
  function Slot(off: nat, side: nat, f: nat, t: nat): nat { off + f * side + t }

  lemma SlotInMessage(off: nat, side: nat, f: nat, t: nat, fields: nat)
    requires f < fields && t < side
    ensures off + f * side <= Slot(off, side, f, t) < off + f * side + side <= off + fields * side
  {
    MulStep(f, fields, side);
  }

  lemma EarlierSlots(off: nat, side: nat, f: nat)
    ensures forall g: nat, t: nat :: g < f && t < side ==> Slot(off, side, g, t) < off + f * side
  {
    forall g: nat, t: nat | g < f && t < side ensures Slot(off, side, g, t) < off + f * side {
      MulStep(g, f, side);
    }
  }

  /** The node whose value a message for direction `d` holds at position `t`. */
  function SideNode(e: Exchange, d: Dir, t: nat): nat
    requires Fits(e) && t < SideSize(e, d)
  {
    CellOfPos(e, d, t);
    NodeOfCell(e, SideCell(e, d, t));
    NodeIndex(e, SideCell(e, d, t))
  }

  lemma SideNodeInBlock(e: Exchange, d: Dir, t: nat)
    requires Fits(e) && t < SideSize(e, d)
    ensures SideNode(e, d, t) < BlockSize(e)
  {
    CellOfPos(e, d, t);
    NodeOfCell(e, SideCell(e, d, t));
  }

  ghost predicate FieldsFit(e: Exchange, fields: array2<real>) {
    fields.Length0 == e.fields && fields.Length1 >= BlockSize(e)
  }

  /** The buffer holds the message for direction `d` at offset `off`: each field's side in turn. */
  ghost predicate HoldsSide(e: Exchange, d: Dir, off: nat, fields: array2<real>, buffer: seq<real>)
    requires Fits(e) && FieldsFit(e, fields) && off + Count(e, d) <= |buffer|
    reads fields
  {
    forall f: nat, t: nat :: f < e.fields && t < SideSize(e, d) ==> HoldsValue(e, d, off, fields, buffer, f, t)
  }

  ghost predicate HoldsValue(e: Exchange, d: Dir, off: nat, fields: array2<real>, buffer: seq<real>, f: nat, t: nat)
    requires Fits(e) && FieldsFit(e, fields) && off + Count(e, d) <= |buffer|
    requires f < e.fields && t < SideSize(e, d)
    reads fields
  {
    SlotInMessage(off, SideSize(e, d), f, t, e.fields);
    SideNodeInBlock(e, d, t);
    buffer[Slot(off, SideSize(e, d), f, t)] == fields[f, SideNode(e, d, t)]
  }

  /** A message whose part of the buffer has not changed is still held. */
  lemma SameSide(e: Exchange, d: Dir, off: nat, fields: array2<real>, was: seq<real>, buffer: seq<real>)
    requires Fits(e) && FieldsFit(e, fields) && off + Count(e, d) <= |was| == |buffer|
    requires HoldsSide(e, d, off, fields, was)
    requires forall k :: off <= k < off + Count(e, d) ==> buffer[k] == was[k]
    ensures HoldsSide(e, d, off, fields, buffer)
  {
    hide SideSize, SideNode;
    forall f: nat, t: nat | f < e.fields && t < SideSize(e, d)
      ensures HoldsValue(e, d, off, fields, buffer, f, t)
    {
      assert HoldsValue(e, d, off, fields, was, f, t);
      SlotInMessage(off, SideSize(e, d), f, t, e.fields);
    }
  }

  /** The first `f` fields, and the first `t` values of the next one, are in place. */
  ghost predicate HoldsPart(e: Exchange, d: Dir, off: nat, fields: array2<real>, buffer: seq<real>, f: nat, t: nat)
    requires Fits(e) && FieldsFit(e, fields) && off + Count(e, d) <= |buffer|
    reads fields
  {
    && (forall g: nat, u: nat :: g < f && g < e.fields && u < SideSize(e, d) ==>
          HoldsValue(e, d, off, fields, buffer, g, u))
    && (f < e.fields ==> forall u: nat :: u < t && u < SideSize(e, d) ==> HoldsValue(e, d, off, fields, buffer, f, u))
  }

  method PackSide(e: Exchange, d: Dir, off: nat, fields: array2<real>, buffer: array<real>)
    requires Fits(e) && IsDir(d) && FieldsFit(e, fields) && off + Count(e, d) <= buffer.Length
    modifies buffer
    ensures HoldsSide(e, d, off, fields, buffer[..])
    ensures forall k :: 0 <= k < buffer.Length && !(off <= k < off + Count(e, d)) ==> buffer[k] == old(buffer[k])
  {
    hide SideSize, HoldsValue, BlockSize;
    var sendCount := SideSize(e, d);
    var destAddr := off;
    for f := 0 to e.fields
      invariant destAddr == off + f * sendCount
      invariant HoldsPart(e, d, off, fields, buffer[..], f, 0)
      invariant forall k :: 0 <= k < buffer.Length && !(off <= k < off + Count(e, d)) ==> buffer[k] == old(buffer[k])
    {
      PackField(e, d, off, fields, buffer, f, destAddr);
      MulDistribute(f, 1, sendCount);
      destAddr := destAddr + sendCount;
    }
  }

  method PackField(e: Exchange, d: Dir, off: nat, fields: array2<real>, buffer: array<real>, f: nat, destAddr: nat)
    requires Fits(e) && FieldsFit(e, fields) && off + Count(e, d) <= buffer.Length
    requires f < e.fields && destAddr == off + f * SideSize(e, d) && HoldsPart(e, d, off, fields, buffer[..], f, 0)
    modifies buffer
    ensures HoldsPart(e, d, off, fields, buffer[..], f + 1, 0)
    ensures forall k :: 0 <= k < buffer.Length && !(off <= k < off + Count(e, d)) ==> buffer[k] == old(buffer[k])
  {
    hide SideSize, SideNode, BlockSize, HoldsValue;
    var sendCount := SideSize(e, d);
    for t := 0 to sendCount
      invariant HoldsPart(e, d, off, fields, buffer[..], f, t)
      invariant forall k :: 0 <= k < buffer.Length && !(off <= k < off + Count(e, d)) ==> buffer[k] == old(buffer[k])
    {
      SlotInMessage(off, sendCount, f, t, e.fields);
      SideNodeInBlock(e, d, t);
      ghost var was := buffer[..];
      buffer[destAddr + t] := fields[f, SideNode(e, d, t)];
      NextValue(e, d, off, fields, was, buffer[..], f, t);
    }
  }

  /** Writing value `t` of field `f` leaves all earlier values of the message in place. */
  lemma NextValue(e: Exchange, d: Dir, off: nat, fields: array2<real>, was: seq<real>, buffer: seq<real>, f: nat,
                  t: nat)
    requires Fits(e) && FieldsFit(e, fields) && off + Count(e, d) <= |was| == |buffer|
    requires f < e.fields && t < SideSize(e, d) && Slot(off, SideSize(e, d), f, t) < |was|
    requires SideNode(e, d, t) < fields.Length1
    requires buffer == was[Slot(off, SideSize(e, d), f, t) := fields[f, SideNode(e, d, t)]]
    requires HoldsPart(e, d, off, fields, was, f, t)
    ensures HoldsPart(e, d, off, fields, buffer, f, t + 1)
  {
    var side := SideSize(e, d);
    hide SideSize, SideNode;
    EarlierSlots(off, side, f);
    forall g: nat, u: nat | g < f && u < side
      ensures HoldsValue(e, d, off, fields, buffer, g, u)
    {
      assert HoldsValue(e, d, off, fields, was, g, u);
      SlotInMessage(off, side, g, u, e.fields);
    }
    forall u: nat | u <= t
      ensures HoldsValue(e, d, off, fields, buffer, f, u)
    {
      assert u < t ==> HoldsValue(e, d, off, fields, was, f, u);
      SlotInMessage(off, side, f, u, e.fields);
    }
  }

  /** The buffer holds every message posted among the first `i` directions. */
  ghost predicate HoldsPosted(e: Exchange, a: Place, doSend: bool, fields: array2<real>, buffer: seq<real>, i: nat)
    requires Fits(e) && FieldsFit(e, fields) && |buffer| == BufferSize(e, a) && i <= 26
    reads fields
  {
    forall j: nat :: j < i && Posts(e, a, true, doSend, j) ==> HoldsMessage(e, a, doSend, fields, buffer, j)
  }

  ghost predicate HoldsMessage(e: Exchange, a: Place, doSend: bool, fields: array2<real>, buffer: seq<real>, j: nat)
    requires Fits(e) && FieldsFit(e, fields) && |buffer| == BufferSize(e, a)
    requires j < 26 && Posts(e, a, true, doSend, j)
    reads fields
  {
    SlotInBuffer(e, a, true, doSend, j);
    HoldsSide(e, DirAt(j), Offset(e, a, true, doSend, j), fields, buffer)
  }

  /** Packs and posts all sends; when it is done every posted message is still intact in the buffer. */
  method CommSend(e: Exchange, a: Place, myRank: int, doSend: bool, fields: array2<real>, buffer: array<real>)
    returns (requests: seq<Request>)
    requires Fits(e) && InGrid(e.tp, a) && myRank == RankOf(e.tp, a)
    requires FieldsFit(e, fields) && buffer.Length == BufferSize(e, a)
    modifies buffer
    ensures requests == Requests(e, a, true, doSend, 26)
    ensures HoldsPosted(e, a, doSend, fields, buffer[..], 26)
  {
    requests := [];
    OneRankIsAlone(e, a, true, doSend, if e.tp == 1 then 26 else 0);
    if e.tp == 1 {
      return;
    }
    var k := Counters(0, 0, 0);
    NoneYet(e, a, true, doSend);
    assert HoldsPosted(e, a, doSend, fields, buffer[..], 0);
    hide OffsetOf, Sends, Count, DirAt, Bump, SlotSize, RankOf, Move, Requests, Offset, PeerOf, HoldsPosted,
         BufferSize, BlockSize;
    for i := 0 to 26
      invariant requests == Requests(e, a, true, doSend, i)
      invariant OffsetOf(e, k) == Offset(e, a, true, doSend, i)
      invariant HoldsPosted(e, a, doSend, fields, buffer[..], i)
    {
      var d := DirAt(i);
      NextRequest(e, a, true, doSend, i);
      if Sends(e, a, doSend, d) {
        PackNext(e, a, doSend, fields, buffer, i, OffsetOf(e, k));
        var toRank := PeerOf(myRank, e.tp, d);
        NeighbourRank(e.tp, a, d);
        requests := requests + [Request(toRank, OffsetOf(e, k), Count(e, d))];
        BumpAddsASlot(e, k, d);
        k := Bump(k, d);
      }
    }
  }

  /** Packs message number `i` behind the earlier ones, which stay intact. */
  method PackNext(e: Exchange, a: Place, doSend: bool, fields: array2<real>, buffer: array<real>, i: nat, off: nat)
    requires Fits(e) && FieldsFit(e, fields) && buffer.Length == BufferSize(e, a)
    requires i < 26 && Posts(e, a, true, doSend, i) && off == Offset(e, a, true, doSend, i)
    requires HoldsPosted(e, a, doSend, fields, buffer[..], i)
    modifies buffer
    ensures HoldsPosted(e, a, doSend, fields, buffer[..], i + 1)
  {
    SlotInBuffer(e, a, true, doSend, i);
    DirAtIsADir(i);
    ghost var was := buffer[..];
    hide Posts, Count, DirAt, Offset, HoldsSide, BufferSize;
    PackSide(e, DirAt(i), off, fields, buffer);
    EarlierStay(e, a, doSend, fields, was, buffer[..], i);
  }

  lemma EarlierStay(e: Exchange, a: Place, doSend: bool, fields: array2<real>, was: seq<real>, buffer: seq<real>,
                    i: nat)
    requires Fits(e) && FieldsFit(e, fields) && |buffer| == |was| == BufferSize(e, a)
    requires i < 26 && HoldsPosted(e, a, doSend, fields, was, i)
    requires forall k :: 0 <= k < Offset(e, a, true, doSend, i) && k < |buffer| ==> buffer[k] == was[k]
    ensures HoldsPosted(e, a, doSend, fields, buffer, i)
  {
    hide HoldsSide, Offset, Count, DirAt, BufferSize, Posts;
    forall j: nat | j < i && Posts(e, a, true, doSend, j)
      ensures HoldsMessage(e, a, doSend, fields, buffer, j)
    {
      assert HoldsMessage(e, a, doSend, fields, was, j);
      SlotInBuffer(e, a, true, doSend, j);
      OffsetsGrow(e, a, true, doSend, j, i);
      SameSide(e, DirAt(j), Offset(e, a, true, doSend, j), fields, was, buffer);
    }
  }

  // ----- adding received sides

  predicate NodeOnSide(e: Exchange, d: Dir, n: nat)
    requires Fits(e)
  {
    n < BlockSize(e) && OnSide(e, d, CellOf(e, n))
  }

  /** The position of a node of the side in a message. */
  function PosOfNode(e: Exchange, d: Dir, n: nat): (t: nat)
    requires Fits(e) && NodeOnSide(e, d, n)
    ensures t < SideSize(e, d) && SideNode(e, d, t) == n
  {
    PosOfCell(e, d, CellOf(e, n));
    CellOfNode(e, n);
    SidePos(e, d, CellOf(e, n))
  }

  lemma NodeAtPos(e: Exchange, d: Dir, t: nat)
    requires Fits(e) && t < SideSize(e, d)
    ensures NodeOnSide(e, d, SideNode(e, d, t)) && PosOfNode(e, d, SideNode(e, d, t)) == t
  {
    CellOfPos(e, d, t);
    NodeOfCell(e, SideCell(e, d, t));
  }

  /** What the message at `off` from direction `d` adds to node `n` of field `f`. */
  function Share(e: Exchange, d: Dir, off: nat, recv: seq<real>, f: nat, n: nat): real
    requires Fits(e) && off + Count(e, d) <= |recv| && f < e.fields
  {
    if NodeOnSide(e, d, n) then
      var t := PosOfNode(e, d, n);
      SlotInMessage(off, SideSize(e, d), f, t, e.fields);
      recv[Slot(off, SideSize(e, d), f, t)]
    else 0.0
  }

  /** The part of the share that the first `t` values of the message make up. */
  function PartShare(e: Exchange, d: Dir, off: nat, recv: seq<real>, f: nat, n: nat, t: nat): real
    requires Fits(e) && off + Count(e, d) <= |recv| && f < e.fields
  {
    if NodeOnSide(e, d, n) && PosOfNode(e, d, n) < t then Share(e, d, off, recv, f, n) else 0.0
  }

  lemma PartShareNext(e: Exchange, d: Dir, off: nat, recv: seq<real>, f: nat, n: nat, t: nat)
    requires Fits(e) && off + Count(e, d) <= |recv| && f < e.fields && t < SideSize(e, d)
    ensures off <= Slot(off, SideSize(e, d), f, t) < off + Count(e, d)
    ensures PartShare(e, d, off, recv, f, n, t + 1)
         == if n == SideNode(e, d, t) then PartShare(e, d, off, recv, f, n, t) + recv[Slot(off, SideSize(e, d), f, t)]
            else PartShare(e, d, off, recv, f, n, t)
  {
    hide SideNode, NodeOnSide, SideSize, PosOfNode, BlockSize;
    SlotInMessage(off, SideSize(e, d), f, t, e.fields);
    var m := SideNode(e, d, t);
    NodeAtPos(e, d, t);
    if n == m {
      assert Share(e, d, off, recv, f, n) == recv[Slot(off, SideSize(e, d), f, t)];
    } else if NodeOnSide(e, d, n) {
      NodeIsItsPos(e, d, n);
      assert PosOfNode(e, d, n) != t;
    }
  }

  lemma NodeIsItsPos(e: Exchange, d: Dir, n: nat)
    requires Fits(e) && NodeOnSide(e, d, n)
    ensures PosOfNode(e, d, n) < SideSize(e, d) && SideNode(e, d, PosOfNode(e, d, n)) == n
  {
  }

  lemma PartShareEnds(e: Exchange, d: Dir, off: nat, recv: seq<real>, f: nat, n: nat)
    requires Fits(e) && off + Count(e, d) <= |recv| && f < e.fields
    ensures PartShare(e, d, off, recv, f, n, 0) == 0.0
    ensures PartShare(e, d, off, recv, f, n, SideSize(e, d)) == Share(e, d, off, recv, f, n)
  {
    hide SideSize, SideNode;
  }

  method AddField(e: Exchange, d: Dir, off: nat, recv: array<real>, fields: array2<real>, f: nat)
    requires Fits(e) && FieldsFit(e, fields) && off + Count(e, d) <= recv.Length && f < e.fields
    modifies fields
    ensures forall g, n: nat :: 0 <= g < e.fields && n < fields.Length1 ==>
              fields[g, n] == old(fields[g, n]) + if g == f then Share(e, d, off, recv[..], f, n) else 0.0
  {
    var opCount := SideSize(e, d);
    ghost var r := recv[..];
    forall n: nat ensures PartShare(e, d, off, r, f, n, 0) == 0.0
                  ensures PartShare(e, d, off, r, f, n, opCount) == Share(e, d, off, r, f, n) {
      PartShareEnds(e, d, off, r, f, n);
    }
    hide SideSize, SideNode, BlockSize, Share, PartShare;
    for t := 0 to opCount
      invariant forall g, n: nat :: 0 <= g < e.fields && n < fields.Length1 ==>
                  fields[g, n] == old(fields[g, n]) + if g == f then PartShare(e, d, off, r, f, n, t) else 0.0
    {
      SlotInMessage(off, opCount, f, t, e.fields);
      SideNodeInBlock(e, d, t);
      var n := SideNode(e, d, t);
      fields[f, n] := fields[f, n] + recv[Slot(off, opCount, f, t)];
      forall m: nat | m < fields.Length1
        ensures PartShare(e, d, off, r, f, m, t + 1)
             == PartShare(e, d, off, r, f, m, t) + if m == n then r[Slot(off, opCount, f, t)] else 0.0
      {
        PartShareNext(e, d, off, r, f, m, t);
      }
    }
  }

  method AddSide(e: Exchange, d: Dir, off: nat, recv: array<real>, fields: array2<real>)
    requires Fits(e) && FieldsFit(e, fields) && off + Count(e, d) <= recv.Length
    modifies fields
    ensures forall g, n: nat :: 0 <= g < e.fields && n < fields.Length1 ==>
              fields[g, n] == old(fields[g, n]) + Share(e, d, off, recv[..], g, n)
  {
    hide Share, Count, BlockSize;
    for f := 0 to e.fields
      invariant forall g, n: nat :: 0 <= g < e.fields && n < fields.Length1 ==>
                  fields[g, n] == old(fields[g, n]) + if g < f then Share(e, d, off, recv[..], g, n) else 0.0
    {
      AddField(e, d, off, recv, fields, f);
    }
  }

  /** What the receives of the first `i` directions add to node `n` of field `f`. */
  function Gathered(e: Exchange, a: Place, recv: seq<real>, f: nat, n: nat, i: nat): real
    requires Fits(e) && |recv| == BufferSize(e, a) && f < e.fields && i <= 26
  {
    if i == 0 then 0.0
    else Gathered(e, a, recv, f, n, i - 1) + ShareOf(e, a, recv, f, n, i - 1)
  }

  function ShareOf(e: Exchange, a: Place, recv: seq<real>, f: nat, n: nat, i: nat): real
    requires Fits(e) && |recv| == BufferSize(e, a) && f < e.fields && i < 26
  {
    if Posts(e, a, false, true, i) then
      SlotInBuffer(e, a, false, true, i);
      Share(e, DirAt(i), Offset(e, a, false, true, i), recv, f, n)
    else 0.0
  }

  /** Adds all received sides to the fields. */
  method CommSBN(e: Exchange, a: Place, recv: array<real>, fields: array2<real>)
    requires Fits(e) && !e.planeOnly && InGrid(e.tp, a) && FieldsFit(e, fields) && recv.Length == BufferSize(e, a)
    modifies fields
    ensures forall g, n: nat :: 0 <= g < e.fields && n < fields.Length1 ==>
              fields[g, n] == old(fields[g, n]) + Gathered(e, a, recv[..], g, n, 26)
  {
    if e.tp == 1 {
      AloneGathersNothing(e, a, recv[..]);
      return;
    }
    var k := Counters(0, 0, 0);
    NoneYet(e, a, false, true);
    hide OffsetOf, Receives, Count, DirAt, Bump, SlotSize, Move, Requests, Offset, Share, BufferSize, BlockSize;
    for i := 0 to 26
      invariant OffsetOf(e, k) == Offset(e, a, false, true, i)
      invariant forall g, n: nat :: 0 <= g < e.fields && n < fields.Length1 ==>
                  fields[g, n] == old(fields[g, n]) + Gathered(e, a, recv[..], g, n, i)
    {
      var d := DirAt(i);
      NextRequest(e, a, false, true, i);
      if Receives(e, a, true, d) {
        SlotInBuffer(e, a, false, true, i);
        AddSide(e, d, OffsetOf(e, k), recv, fields);
        BumpAddsASlot(e, k, d);
        k := Bump(k, d);
      }
    }
  }

  lemma AloneGathersNothing(e: Exchange, a: Place, recv: seq<real>)
    requires Fits(e) && e.tp == 1 && InGrid(e.tp, a) && |recv| == BufferSize(e, a)
    ensures forall f: nat, n: nat, i: nat :: f < e.fields && i <= 26 ==> Gathered(e, a, recv, f, n, i) == 0.0
  {
    forall f: nat, n: nat, i: nat | f < e.fields && i <= 26 ensures Gathered(e, a, recv, f, n, i) == 0.0 {
      AloneGathers(e, a, recv, f, n, i);
    }
  }

  lemma {:induction false} AloneGathers(e: Exchange, a: Place, recv: seq<real>, f: nat, n: nat, i: nat)
    requires Fits(e) && e.tp == 1 && InGrid(e.tp, a) && |recv| == BufferSize(e, a) && f < e.fields && i <= 26
    ensures Gathered(e, a, recv, f, n, i) == 0.0
  {
    hide Share, BufferSize, Posts, Offset, DirAt, Count;
    if i > 0 {
      OneRankIsAlone(e, a, false, true, i);
      AloneGathers(e, a, recv, f, n, i - 1);
    }
  }
}
