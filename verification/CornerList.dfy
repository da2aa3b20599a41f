/** The list of element corners around each node. */
module CornerList {
  // Corner `k` of the mesh is corner `k % 8` of element `k / 8`; `nl[k]` is the node it lies on.

  /** How many of the first `k` corners lie on node `m`. */
  function CountIn(nl: seq<nat>, m: nat, k: nat): (n: nat)
    requires k <= |nl|
    ensures n <= k
  {
    if k == 0 then 0 else CountIn(nl, m, k - 1) + if nl[k - 1] == m then 1 else 0
  }

  /** Those corners, in ascending order. */
  function CornersOf(nl: seq<nat>, m: nat, k: nat): (cs: seq<nat>)
    requires k <= |nl|
    ensures |cs| == CountIn(nl, m, k)
  {
    if k == 0 then [] else CornersOf(nl, m, k - 1) + if nl[k - 1] == m then [k - 1] else []
  }

  /** How many of the first `k` corners lie on nodes before `m`. */
  function StartOf(nl: seq<nat>, m: nat, k: nat): nat
    requires k <= |nl|
  {
    if m == 0 then 0 else StartOf(nl, m - 1, k) + CountIn(nl, m - 1, k)
  }

  /** A node's corners are exactly those whose entry in the node list is that node. */
  lemma {:induction false} CornersAreExact(nl: seq<nat>, m: nat, k: nat, c: nat)
    requires k <= |nl|
    ensures c in CornersOf(nl, m, k) <==> c < k && nl[c] == m
  {
    if k > 0 {
      CornersAreExact(nl, m, k - 1, c);
    }
  }

  /** A corner stands behind the earlier corners of its node. */
  lemma {:induction false} CornerAt(nl: seq<nat>, m: nat, k: nat, i: nat)
    requires k <= |nl| && i < CountIn(nl, m, k)
    ensures var c := CornersOf(nl, m, k)[i]; c < k && nl[c] == m && CountIn(nl, m, c) == i
  {
    if i < CountIn(nl, m, k - 1) {
      CornerAt(nl, m, k - 1, i);
    }
  }

  lemma {:induction false} CornerFound(nl: seq<nat>, k: nat, c: nat)
    requires c < k <= |nl|
    ensures CountIn(nl, nl[c], c) < CountIn(nl, nl[c], k)
    ensures CornersOf(nl, nl[c], k)[CountIn(nl, nl[c], c)] == c
  {
    if c < k - 1 {
      CornerFound(nl, k - 1, c);
    }
  }

  lemma {:induction false} CountGrows(nl: seq<nat>, m: nat, j: nat, k: nat)
    requires j <= k <= |nl|
    ensures CountIn(nl, m, j) <= CountIn(nl, m, k)
  {
    if j < k {
      CountGrows(nl, m, j, k - 1);
    }
  }

  lemma {:induction false} StartStep(nl: seq<nat>, m: nat, k: nat)
    requires 0 < k <= |nl|
    ensures StartOf(nl, m, k) == StartOf(nl, m, k - 1) + if nl[k - 1] < m then 1 else 0
  {
    if m > 0 {
      StartStep(nl, m - 1, k);
    }
  }

  /** The counts of all nodes add up to the number of corners. */
  lemma {:induction false} AllCornersCounted(nl: seq<nat>, numNode: nat, k: nat)
    requires k <= |nl| && forall c :: 0 <= c < |nl| ==> nl[c] < numNode
    ensures StartOf(nl, numNode, k) == k
  {
    if k == 0 {
      NothingCounted(nl, numNode);
    } else {
      AllCornersCounted(nl, numNode, k - 1);
      StartStep(nl, numNode, k);
    }
  }

  lemma {:induction false} NothingCounted(nl: seq<nat>, m: nat)
    ensures StartOf(nl, m, 0) == 0
  {
    if m > 0 {
      NothingCounted(nl, m - 1);
    }
  }

  lemma {:induction false} StartsGrow(nl: seq<nat>, m: nat, n: nat, k: nat)
    requires m <= n && k <= |nl|
    ensures StartOf(nl, m, k) <= StartOf(nl, n, k)
    ensures m < n ==> StartOf(nl, m, k) + CountIn(nl, m, k) <= StartOf(nl, n, k)
  {
    if m < n {
      StartsGrow(nl, m, n - 1, k);
    }
  }

  // ----- what the two arrays hold

  /** The starts are the running totals of the counts, and each node's slice of the list is its corners. */
  ghost predicate Lists(nl: seq<nat>, numNode: nat, start: seq<nat>, list: seq<nat>) {
    && |start| == numNode + 1 && |list| == |nl|
    && (forall m: nat :: m <= numNode ==> start[m] == StartOf(nl, m, |nl|) <= |list|)
    && InPlace(nl, numNode, list, |nl|)
  }

  /** The first `k` corners of node `m` are in place. */
  ghost predicate SliceIs(nl: seq<nat>, list: seq<nat>, m: nat, k: nat)
    requires k <= |nl|
  {
    var s := StartOf(nl, m, |nl|);
    s + CountIn(nl, m, k) <= |list| && forall i: nat :: i < CountIn(nl, m, k) ==> list[s + i] == CornersOf(nl, m, k)[i]
  }

  /** The first `k` corners of all nodes are in place. */
  ghost predicate InPlace(nl: seq<nat>, numNode: nat, list: seq<nat>, k: nat)
    requires k <= |nl|
  {
    forall m: nat :: m < numNode ==> SliceIs(nl, list, m, k)
  }

  /** The place of a corner in the list. */
  function PlaceOf(nl: seq<nat>, c: nat): nat
    requires c < |nl|
  {
    StartOf(nl, nl[c], |nl|) + CountIn(nl, nl[c], c)
  }

  /** The node whose slice has position `p`. */
  function NodeAt(nl: seq<nat>, m: nat, p: nat): (n: nat)
    requires p < StartOf(nl, m, |nl|)
    ensures n < m && StartOf(nl, n, |nl|) <= p < StartOf(nl, n, |nl|) + CountIn(nl, n, |nl|)
  {
    if p < StartOf(nl, m - 1, |nl|) then NodeAt(nl, m - 1, p) else m - 1
  }

  /** The list is a permutation of all corners: each has exactly one place. */
  lemma ListIsPermutation(nl: seq<nat>, numNode: nat, start: seq<nat>, list: seq<nat>)
    requires Lists(nl, numNode, start, list) && forall c :: 0 <= c < |nl| ==> nl[c] < numNode
    ensures forall c: nat :: c < |nl| ==> PlaceOf(nl, c) < |list| && list[PlaceOf(nl, c)] == c
    ensures forall p: nat :: p < |list| ==> list[p] < |nl| && PlaceOf(nl, list[p]) == p
  {
    forall c: nat | c < |nl| ensures PlaceOf(nl, c) < |list| && list[PlaceOf(nl, c)] == c {
      CornerFound(nl, |nl|, c);
      assert SliceIs(nl, list, nl[c], |nl|);
    }
    AllCornersCounted(nl, numNode, |nl|);
    forall p: nat | p < |list| ensures list[p] < |nl| && PlaceOf(nl, list[p]) == p {
      var m := NodeAt(nl, numNode, p);
      var i := p - StartOf(nl, m, |nl|);
      assert SliceIs(nl, list, m, |nl|);
      assert list[StartOf(nl, m, |nl|) + i] == CornersOf(nl, m, |nl|)[i];
      CornerAt(nl, m, |nl|, i);
    }
  }

  // ----- building the list

  class ThreadSupport {
    var nodeElemStart: array?<nat>
    var nodeElemCornerList: array?<nat>

    /** Counts the corners of each node, sums the counts up and sorts the corners by node; the final range
        check, which would accept one value too many, never fails. */
    method SetupThreadSupportStructures(numthreads: int, numElem: nat, numNode: nat, nodelist: array<nat>)
      returns (inRange: bool)
      requires nodelist.Length == 8 * numElem && forall k :: 0 <= k < nodelist.Length ==> nodelist[k] < numNode
      modifies this
      ensures inRange
      ensures numthreads <= 1 ==> nodeElemStart == null && nodeElemCornerList == null
      ensures numthreads > 1 ==>
                && nodeElemStart != null && nodeElemCornerList != null
                && fresh(nodeElemStart) && fresh(nodeElemCornerList)
                && Lists(nodelist[..], numNode, nodeElemStart[..], nodeElemCornerList[..])
    {
      if numthreads > 1 {
        var nodeElemCount := CountCorners(numElem, numNode, nodelist);
        var start := SumCounts(numNode, nodelist, nodeElemCount);
        AllCornersCounted(nodelist[..], numNode, nodelist.Length);
        var list := ListCorners(numElem, numNode, nodelist, nodeElemCount, start);
        inRange := CheckRange(numElem, numNode, nodelist, start, list);
        nodeElemStart, nodeElemCornerList := start, list;
      } else {
        nodeElemStart, nodeElemCornerList := null, null;
        inRange := true;
      }
    }
  }

  method CountCorners(numElem: nat, numNode: nat, nodelist: array<nat>) returns (nodeElemCount: array<nat>)
    requires nodelist.Length == 8 * numElem && forall k :: 0 <= k < nodelist.Length ==> nodelist[k] < numNode
    ensures fresh(nodeElemCount) && nodeElemCount.Length == numNode
    ensures CountsAre(nodelist[..], numNode, nodeElemCount, nodelist.Length)
  {
    ghost var nl := nodelist[..];
    nodeElemCount := new nat[numNode];
    ClearCounts(nl, numNode, nodeElemCount);
    hide CountIn;
    for i := 0 to numElem
      invariant CountsAre(nl, numNode, nodeElemCount, 8 * i)
    {
      for j := 0 to 8
        invariant CountsAre(nl, numNode, nodeElemCount, 8 * i + j)
      {
        CountCorner(nl, numNode, nodeElemCount, nodelist[8 * i + j], 8 * i + j, 8 * i + j + 1);
      }
    }
  }

  method SumCounts(numNode: nat, nodelist: array<nat>, nodeElemCount: array<nat>) returns (start: array<nat>)
    requires nodeElemCount.Length == numNode && CountsAre(nodelist[..], numNode, nodeElemCount, nodelist.Length)
    ensures fresh(start) && start.Length == numNode + 1
    ensures forall m: nat :: m <= numNode ==> start[m] == StartOf(nodelist[..], m, nodelist.Length)
  {
    hide CountIn, StartOf;
    ghost var nl := nodelist[..];
    StartNext(nl, 0);
    start := new nat[numNode + 1];
    start[0] := 0;
    for i := 1 to numNode + 1
      invariant forall m: nat :: m < i ==> start[m] == StartOf(nl, m, |nl|)
    {
      StartNext(nl, i);
      start[i] := start[i - 1] + nodeElemCount[i - 1];
    }
  }

  lemma StartNext(nl: seq<nat>, m: nat)
    ensures StartOf(nl, m, |nl|) == if m == 0 then 0 else StartOf(nl, m - 1, |nl|) + CountIn(nl, m - 1, |nl|)
  {
  }

  method ListCorners(numElem: nat, numNode: nat, nodelist: array<nat>, nodeElemCount: array<nat>, start: array<nat>)
    returns (list: array<nat>)
    requires nodelist.Length == 8 * numElem && forall k :: 0 <= k < nodelist.Length ==> nodelist[k] < numNode
    requires nodeElemCount != start && nodeElemCount != nodelist
    requires nodeElemCount.Length == numNode && start.Length == numNode + 1
    requires forall m: nat :: m <= numNode ==> start[m] == StartOf(nodelist[..], m, nodelist.Length)
    requires start[numNode] == nodelist.Length
    modifies nodeElemCount
    ensures fresh(list) && Lists(nodelist[..], numNode, start[..], list[..])
  {
    hide StartOf, CountIn, CornersOf, SliceIs, InPlace;
    ghost var nl := nodelist[..];
    list := new nat[start[numNode]];
    ClearCounts(nl, numNode, nodeElemCount);
    NothingInPlace(nl, numNode, list[..]);
    for i := 0 to numElem
      invariant CountsAre(nl, numNode, nodeElemCount, 8 * i) && InPlace(nl, numNode, list[..], 8 * i)
    {
      for j := 0 to 8
        invariant CountsAre(nl, numNode, nodeElemCount, 8 * i + j) && InPlace(nl, numNode, list[..], 8 * i + j)
      {
        var m, k := nodelist[8 * i + j], i * 8 + j;
        var offset := start[m] + nodeElemCount[m];
        PlaceInList(nl, numNode, k);
        ghost var was := list[..];
        list[offset] := k;
        PutInPlace(nl, numNode, was, list[..], k, k + 1);
        CountCorner(nl, numNode, nodeElemCount, m, k, k + 1);
      }
    }
    forall m: nat | m <= numNode ensures StartOf(nl, m, |nl|) <= list.Length {
      StartsGrow(nl, m, numNode, |nl|);
    }
  }

  ghost predicate CountsAre(nl: seq<nat>, numNode: nat, count: array<nat>, k: nat)
    requires k <= |nl| && count.Length == numNode
    reads count
  {
    forall m: nat :: m < numNode ==> count[m] == CountIn(nl, m, k)
  }

  method ClearCounts(ghost nl: seq<nat>, numNode: nat, count: array<nat>)
    requires count.Length == numNode
    modifies count
    ensures CountsAre(nl, numNode, count, 0)
  {
    for i := 0 to numNode
      invariant forall m: nat :: m < i ==> count[m] == 0
    {
      count[i] := 0;
    }
  }

  /** Counts corner `k`, which lies on node `m`. */
  method CountCorner(ghost nl: seq<nat>, numNode: nat, count: array<nat>, m: nat, ghost k: nat, ghost next: nat)
    requires k < |nl| && nl[k] == m < numNode && next == k + 1 && count.Length == numNode
    requires CountsAre(nl, numNode, count, k)
    modifies count
    ensures CountsAre(nl, numNode, count, next)
  {
    hide CountIn;
    count[m] := count[m] + 1;
    forall n: nat | n < numNode ensures count[n] == CountIn(nl, n, next) {
      CountNext(nl, n, k);
    }
  }

  /** The place of a corner lies in the list. */
  lemma PlaceInList(nl: seq<nat>, numNode: nat, k: nat)
    requires k < |nl| && nl[k] < numNode
    ensures PlaceOf(nl, k) < StartOf(nl, numNode, |nl|)
  {
    CornerFound(nl, |nl|, k);
    StartsGrow(nl, nl[k], numNode, |nl|);
    hide StartOf, CountIn;
  }

  lemma NothingInPlace(nl: seq<nat>, numNode: nat, list: seq<nat>)
    requires |list| == StartOf(nl, numNode, |nl|)
    ensures InPlace(nl, numNode, list, 0)
  {
    forall m: nat | m < numNode ensures SliceIs(nl, list, m, 0) {
      StartsGrow(nl, m, numNode, |nl|);
    }
  }

  /** Writing corner `k` at its place leaves all earlier corners in place. */
  lemma PutInPlace(nl: seq<nat>, numNode: nat, was: seq<nat>, list: seq<nat>, k: nat, next: nat)
    requires k < |nl| && next == k + 1 && PlaceOf(nl, k) < |was| && list == was[PlaceOf(nl, k) := k]
    requires InPlace(nl, numNode, was, k)
    ensures InPlace(nl, numNode, list, next)
  {
    hide StartOf, CountIn, CornersOf;
    forall m: nat | m < numNode ensures SliceIs(nl, list, m, next) {
      assert SliceIs(nl, was, m, k);
      NextInSlice(nl, was, list, m, k, next);
    }
  }

  lemma NextInSlice(nl: seq<nat>, was: seq<nat>, list: seq<nat>, m: nat, k: nat, next: nat)
    requires k < |nl| && next == k + 1 && PlaceOf(nl, k) < |was| && list == was[PlaceOf(nl, k) := k]
    requires SliceIs(nl, was, m, k)
    ensures SliceIs(nl, list, m, next)
  {
    hide StartOf, CountIn, CornersOf;
    var s := StartOf(nl, m, |nl|);
    CountNext(nl, m, k);
    CountGrows(nl, m, next, |nl|);
    CornerFound(nl, |nl|, k);
    if m != nl[k] {
      StartsGrow(nl, if m < nl[k] then m else nl[k], if m < nl[k] then nl[k] else m, |nl|);
    }
    forall i: nat | i < CountIn(nl, m, next) ensures list[s + i] == CornersOf(nl, m, next)[i] {
      if i < CountIn(nl, m, k) {
        assert was[s + i] == CornersOf(nl, m, k)[i];
      }
    }
  }

  lemma CountNext(nl: seq<nat>, m: nat, k: nat)
    requires k < |nl|
    ensures CountIn(nl, m, k + 1) == CountIn(nl, m, k) + if nl[k] == m then 1 else 0
    ensures forall i: nat :: i < CountIn(nl, m, k) ==> CornersOf(nl, m, k + 1)[i] == CornersOf(nl, m, k)[i]
    ensures nl[k] == m ==> CornersOf(nl, m, k + 1)[CountIn(nl, m, k)] == k
  {
  }

  method CheckRange(numElem: nat, numNode: nat, nodelist: array<nat>, start: array<nat>, list: array<nat>)
    returns (ok: bool)
    requires nodelist.Length == 8 * numElem && forall k :: 0 <= k < nodelist.Length ==> nodelist[k] < numNode
    requires Lists(nodelist[..], numNode, start[..], list[..])
    ensures ok
  {
    ok := true;
    AllCornersCounted(nodelist[..], numNode, nodelist.Length);
    ListIsPermutation(nodelist[..], numNode, start[..], list[..]);
    for i := 0 to start[numNode]
      invariant ok
    {
      var clv := list[..][i];
      if clv < 0 || clv > numElem * 8 {
        ok := false;
      }
    }
  }
}
