/** Adding up corner forces at the nodes: directly element by element, or through the corner list. */
module NodalForces {
  import opened CornerList

  // Any addition: exact, or rounded in some fixed way.
  type Adder = (real, real) -> real

  /** What element-by-element addition of the first `k` corners makes of node `m`, starting from `acc`. */
  function NodeTotal(add: Adder, acc: real, force: seq<real>, nl: seq<nat>, m: nat, k: nat): real
    requires k <= |nl| == |force|
  {
    if k == 0 then acc
    else
      var before := NodeTotal(add, acc, force, nl, m, k - 1);
      if nl[k - 1] == m then add(before, force[k - 1]) else before
  }

  /** What adding `n` entries of the list from position `s` on makes of `acc`. */
  function ListTotal(add: Adder, acc: real, force: seq<real>, list: seq<nat>, s: nat, n: nat): real
    requires s + n <= |list| && forall p :: 0 <= p < |list| ==> list[p] < |force|
  {
    if n == 0 then acc else add(ListTotal(add, acc, force, list, s, n - 1), force[list[s + n - 1]])
  }

  /** A node's slice of the list holds its corners in the order in which the elements come, so both ways add
      the same numbers in the same order. */
  lemma {:induction false} SliceTotal(add: Adder, acc: real, force: seq<real>, nl: seq<nat>, list: seq<nat>, m: nat,
                                      k: nat)
    requires k <= |nl| == |force| && SliceIs(nl, list, m, k) && forall p :: 0 <= p < |list| ==> list[p] < |force|
    ensures ListTotal(add, acc, force, list, StartOf(nl, m, |nl|), CountIn(nl, m, k))
         == NodeTotal(add, acc, force, nl, m, k)
  {
    hide StartOf, CornersOf;
    if k > 0 {
      CountNext(nl, m, k - 1);
      ShorterSlice(nl, list, m, k - 1);
      SliceTotal(add, acc, force, nl, list, m, k - 1);
    }
  }

  lemma ShorterSlice(nl: seq<nat>, list: seq<nat>, m: nat, k: nat)
    requires k < |nl| && SliceIs(nl, list, m, k + 1)
    ensures SliceIs(nl, list, m, k)
  {
    hide StartOf, CornersOf;
    CountNext(nl, m, k);
    forall i: nat | i < CountIn(nl, m, k) ensures list[StartOf(nl, m, |nl|) + i] == CornersOf(nl, m, k)[i] {
      assert CornersOf(nl, m, k + 1)[i] == CornersOf(nl, m, k)[i];
    }
  }

  /** Adds each element's corner forces to its nodes, either at once or through the corner list, which starts
      each node from zero. Given zeroed forces, the number of threads makes no difference at all. */
  method IntegrateStressForElems(add: Adder, numthreads: int, numElem: nat, numNode: nat, nodelist: array<nat>,
                                 force: seq<real>, start: array<nat>, list: array<nat>, fx: array<real>)
    requires nodelist.Length == 8 * numElem == |force| && fx.Length == numNode
    requires forall k :: 0 <= k < nodelist.Length ==> nodelist[k] < numNode
    requires numthreads > 1 ==> Lists(nodelist[..], numNode, start[..], list[..])
    modifies fx
    ensures forall m: nat :: m < numNode ==>
              fx[m] == NodeTotal(add, if numthreads > 1 then 0.0 else old(fx[m]), force, nodelist[..], m, |force|)
    ensures (forall m: nat :: m < numNode ==> old(fx[m]) == 0.0) ==>
              forall m: nat :: m < numNode ==> fx[m] == NodeTotal(add, 0.0, force, nodelist[..], m, |force|)
  {
    hide NodeTotal;
    if numthreads > 1 {
      GatherForces(add, numElem, numNode, nodelist, force, start, list, fx);
    } else {
      ScatterForces(add, numElem, numNode, nodelist, force, fx);
    }
  }

  method ScatterForces(add: Adder, numElem: nat, numNode: nat, nodelist: array<nat>, force: seq<real>, fx: array<real>)
    requires nodelist.Length == 8 * numElem == |force| && fx.Length == numNode
    requires forall k :: 0 <= k < nodelist.Length ==> nodelist[k] < numNode
    modifies fx
    ensures forall m: nat :: m < numNode ==> fx[m] == NodeTotal(add, old(fx[m]), force, nodelist[..], m, |force|)
  {
    for k := 0 to numElem
      invariant forall m: nat :: m < numNode ==> fx[m] == NodeTotal(add, old(fx[m]), force, nodelist[..], m, 8 * k)
    {
      for lnode := 0 to 8
        invariant forall m: nat :: m < numNode ==>
                    fx[m] == NodeTotal(add, old(fx[m]), force, nodelist[..], m, 8 * k + lnode)
      {
        var gnode := nodelist[8 * k + lnode];
        fx[gnode] := add(fx[gnode], force[8 * k + lnode]);
      }
    }
  }

  method GatherForces(add: Adder, numElem: nat, numNode: nat, nodelist: array<nat>, force: seq<real>,
                      start: array<nat>, list: array<nat>, fx: array<real>)
    requires nodelist.Length == 8 * numElem == |force| && fx.Length == numNode
    requires forall k :: 0 <= k < nodelist.Length ==> nodelist[k] < numNode
    requires Lists(nodelist[..], numNode, start[..], list[..])
    modifies fx
    ensures forall m: nat :: m < numNode ==> fx[m] == NodeTotal(add, 0.0, force, nodelist[..], m, |force|)
  {
    hide NodeTotal, SliceIs, CountIn, StartOf, CornersOf;
    ghost var nl := nodelist[..];
    ListIsPermutation(nl, numNode, start[..], list[..]);
    for gnode := 0 to numNode
      invariant forall m: nat :: m < gnode ==> fx[m] == NodeTotal(add, 0.0, force, nl, m, |force|)
    {
      fx[gnode] := GatherNode(add, nl, numNode, force, start, list, gnode);
    }
  }

  method GatherNode(add: Adder, ghost nl: seq<nat>, numNode: nat, force: seq<real>, start: array<nat>,
                    list: array<nat>, gnode: nat)
    returns (tmp: real)
    requires |nl| == |force| && gnode < numNode && Lists(nl, numNode, start[..], list[..])
    requires forall p: nat :: p < list.Length ==> list[..][p] < |force|
    ensures tmp == NodeTotal(add, 0.0, force, nl, gnode, |force|)
  {
    hide NodeTotal, CountIn, CornersOf;
    assert start[..][gnode] == StartOf(nl, gnode, |nl|) && start[..][gnode + 1] == StartOf(nl, gnode + 1, |nl|);
    var count := start[gnode + 1] - start[gnode];
    assert SliceIs(nl, list[..], gnode, |nl|);
    tmp := 0.0;
    for i := 0 to count
      invariant tmp == ListTotal(add, 0.0, force, list[..], start[gnode], i)
    {
      var elem := list[..][start[gnode] + i];
      tmp := add(tmp, force[elem]);
    }
    SliceTotal(add, 0.0, force, nl, list[..], gnode, |nl|);
  }

  // ----- exact arithmetic

  function Plus(x: real, y: real): real { x + y }

  /** Exactly, a node's total is what it had before plus its corner forces: the two ways agree if and only if
      the node started from zero. */
  lemma GatherIsScatterFromZero(acc: real, force: seq<real>, nl: seq<nat>, m: nat)
    requires |nl| == |force|
    ensures NodeTotal(Plus, acc, force, nl, m, |nl|) == acc + NodeTotal(Plus, 0.0, force, nl, m, |nl|)
    ensures NodeTotal(Plus, acc, force, nl, m, |nl|) == NodeTotal(Plus, 0.0, force, nl, m, |nl|) <==> acc == 0.0
  {
    TotalFrom(acc, force, nl, m, |nl|);
  }

  lemma {:induction false} TotalFrom(acc: real, force: seq<real>, nl: seq<nat>, m: nat, k: nat)
    requires k <= |nl| == |force|
    ensures NodeTotal(Plus, acc, force, nl, m, k) == acc + NodeTotal(Plus, 0.0, force, nl, m, k)
  {
    if k > 0 {
      TotalFrom(acc, force, nl, m, k - 1);
    }
  }

  function SumOfForces(force: seq<real>, k: nat): real
    requires k <= |force|
  {
    if k == 0 then 0.0 else SumOfForces(force, k - 1) + force[k - 1]
  }

  function SumOverNodes(force: seq<real>, nl: seq<nat>, m: nat, k: nat): real
    requires k <= |nl| == |force|
  {
    if m == 0 then 0.0 else SumOverNodes(force, nl, m - 1, k) + NodeTotal(Plus, 0.0, force, nl, m - 1, k)
  }

  /** No force is lost or counted twice: the node totals add up to the sum of all corner forces. */
  lemma {:induction false} ForcesAreConserved(force: seq<real>, nl: seq<nat>, numNode: nat, k: nat)
    requires k <= |nl| == |force| && forall c :: 0 <= c < |nl| ==> nl[c] < numNode
    ensures SumOverNodes(force, nl, numNode, k) == SumOfForces(force, k)
  {
    if k == 0 {
      NoForces(force, nl, numNode);
    } else {
      ForcesAreConserved(force, nl, numNode, k - 1);
      OneMoreForce(force, nl, numNode, k);
    }
  }

  lemma {:induction false} NoForces(force: seq<real>, nl: seq<nat>, m: nat)
    requires |nl| == |force|
    ensures SumOverNodes(force, nl, m, 0) == 0.0
  {
    if m > 0 {
      NoForces(force, nl, m - 1);
    }
  }

  lemma {:induction false} OneMoreForce(force: seq<real>, nl: seq<nat>, m: nat, k: nat)
    requires 0 < k <= |nl| == |force|
    ensures SumOverNodes(force, nl, m, k)
         == SumOverNodes(force, nl, m, k - 1) + if nl[k - 1] < m then force[k - 1] else 0.0
  {
    if m > 0 {
      OneMoreForce(force, nl, m - 1, k);
    }
  }
}
