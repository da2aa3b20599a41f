/** End to end: what the filter does with streams of region entries. */
module EpochDetection {
  import opened Arithmetic
  import opened Words
  import D = DetectorModel
  import opened EpochStateMachine
  import opened EpochRecordFilter

  /** Any region entries `first`, followed by `k` entries of the endless repetition of `u`. */
  ghost function Stream(first: seq<nat>, u: seq<nat>, k: nat): (rec: seq<nat>)
    requires u != []
    ensures |rec| == |first| + k
  {
    if k == 0 then first else Stream(first, u, k - 1) + [At(u, k - 1)]
  }

  lemma {:induction false} StreamAt(first: seq<nat>, u: seq<nat>, k: nat, i: nat)
    requires u != [] && i < k
    ensures Stream(first, u, k)[|first| + i] == At(u, i)
  {
    hide At;
    if i < k - 1 {
      StreamAt(first, u, k - 1, i);
    }
  }

  /** The periodic part, read at a phase that also fits the positions of the whole stream. */
  lemma StreamReads(first: seq<nat>, u: seq<nat>, k: nat)
    requires u != []
    ensures ReadsFrom(Stream(first, u, k), |first|, u, |first| * (|u| - 1))
  {
    hide At;
    var rec := Stream(first, u, k);
    MulNonNegative(|first|, |u| - 1);
    forall x | |first| <= x < |rec| ensures rec[x] == At(u, x + |first| * (|u| - 1)) {
      StreamAt(first, u, k, x - |first|);
      PhaseFits(u, x - |first|, |first|);
    }
  }

  lemma PhaseFits(u: seq<nat>, i: nat, n: nat)
    requires u != []
    ensures 0 <= n * (|u| - 1) && At(u, i) == At(u, i + n + n * (|u| - 1))
  {
    MulNonNegative(n, |u| - 1);
    assert n + n * (|u| - 1) == n * |u|;
    ModAddMultiple(i, n, |u|);
  }

  /** After this many periodic entries the readings no longer depend on what came first. */
  function Settle(first: seq<nat>, H: nat, p: nat): int {
    if first == [] then 2 * p else 2 * (H - 2)
  }

  lemma SettledReading(first: seq<nat>, H: nat, u: seq<nat>, k: nat)
    requires Primitive(u) && |u| + 2 <= H && k >= Settle(first, H, |u|)
    ensures var rec := Stream(first, u, k);
            D.PeriodOf(rec, H) == |u| && D.ScoreOf(rec, H) == 0
  {
    var rec := Stream(first, u, k);
    StreamReads(first, u, k);
    MulNonNegative(|first|, |u| - 1);
    hide At, D.Period, D.Score;
    D.PeriodicStreamPeriod(rec, H, u, |first| * (|u| - 1));
  }

  /** From then on the machine sees a steady period. */
  lemma {:induction false} SettledMachine(p: Params, H: nat, first: seq<nat>, u: seq<nat>, k: nat, j: nat)
    requires Primitive(u) && |u| + 2 <= H && k >= Settle(first, H, |u|)
    ensures var s, n := Machine(p, H, Stream(first, u, k)), |first| + k;
            && Machine(p, H, Stream(first, u, k + j)) == Steady(p, s, n, |u|, j)
            && (j >= 1 ==> Marked(p, H, Stream(first, u, k + j)) == SteadyMarks(p, s, n, |u|, j))
    decreases j
  {
    hide Step, Machine, Marked, At, D.PeriodOf, D.ScoreOf;
    if j > 0 {
      SettledMachine(p, H, first, u, k, j - 1);
      SettledReading(first, H, u, k + j);
      MachineStep(p, H, Stream(first, u, k + j - 1), At(u, k + j - 1));
    }
  }

  // ----- bounds that hold after every run

  lemma PeriodAtMostHistory(rec: seq<nat>, H: nat)
    ensures D.PeriodOf(rec, H) <= H
    ensures D.ScoreOf(rec, H) >= 0 || D.ScoreOf(rec, H) >= D.PeriodOf(rec, H)
  {
    hide D.BestBlock, D.BlockScore, LeastRepeat;
  }

  lemma {:induction false} LastPeriodBounded(p: Params, H: nat, rec: seq<nat>)
    ensures Machine(p, H, rec).lastPeriod <= H
  {
    if rec != [] {
      var init, hash := rec[..|rec| - 1], rec[|rec| - 1];
      LastPeriodBounded(p, H, init);
      assert rec == init + [hash];
      MachineStep(p, H, init, hash);
      PeriodAtMostHistory(rec, H);
      hide Machine, Marked, D.PeriodOf, D.ScoreOf, Limit, LongTarget, BaseTarget;
    }
  }

  lemma LimitGrows(p: Params, a: int, b: nat)
    requires a <= b && p.unstableFactor >= 0.0
    ensures Limit(p, a) <= Max(0, Limit(p, b))
  {
    var x, y := p.unstableFactor * a as real, p.unstableFactor * b as real;
    assert y - x == p.unstableFactor * (b - a) as real;
    RealMulNonNegative(p.unstableFactor, (b - a) as real);
    assert x <= y;
    if x >= 0.0 {
      FloorGrows(x, y);
    }
  }

  lemma RealMulNonNegative(x: real, y: real)
    requires x >= 0.0 && y >= 0.0
    ensures x * y >= 0.0
  {
  }

  lemma FloorGrows(x: real, y: real)
    requires x <= y
    ensures x.Floor <= y.Floor
  {
  }

  lemma LimitIsPositive(p: Params, q: int)
    requires Limit(p, q) >= 1 && q >= 1
    ensures p.unstableFactor >= 0.0
  {
    if p.unstableFactor < 0.0 {
      RealMulNonNegative(-p.unstableFactor, q as real);
    }
  }

  /** Entries of a periodic stream after which the period is surely followed. */
  function Delay(p: Params, H: nat, first: seq<nat>, q: nat): int {
    Settle(first, H, q) + Max(1, Limit(p, H)) + Max(q, Wait(p, q) + 1)
  }

  /** From entry `m` of the stream on, the filter follows the period of `u` and emits
      one epoch exactly every |u| region entries. */
  ghost predicate EpochEvery(p: Params, H: nat, first: seq<nat>, u: seq<nat>, m: nat)
    requires u != []
  {
    forall k: nat :: m <= k && 1 <= k ==>
      && Locked(Machine(p, H, Stream(first, u, k)), |u|)
      && (Marked(p, H, Stream(first, u, k)) <==> (k - m) % |u| == 0)
  }

  /** Whatever was received before, a repeating sequence of region entries is detected within a bounded
      number of entries, with exactly the length of its shortest repeating block. */
  lemma PeriodicStreamsAreFollowed(p: Params, H: nat, first: seq<nat>, u: seq<nat>) returns (m: nat)
    requires Primitive(u) && |u| + 2 <= H && p.minPeriod <= |u| && Lockable(p, |u|)
    ensures 1 <= m <= Delay(p, H, first, |u|) && EpochEvery(p, H, first, u, m)
  {
    assert u != [];
    hide Machine, Limit, Wait, LockBound, Stream, Counting, MarksEvery, EpochEvery, Primitive;
    var q, k0 := |u|, Settle(first, H, |u|);
    var rec := Stream(first, u, k0);
    var s := Machine(p, H, rec);
    ReachedState(p, H, rec);
    LockBoundAtMost(p, H, s, q);
    var m0 := LocksOn(p, s, |rec|, q);
    m := k0 + m0;
    StreamMarksEvery(p, H, first, u, m0);
  }

  lemma LockBoundAtMost(p: Params, H: nat, s: State, q: int)
    requires Limit(p, q) >= 1 && q >= 1 && s.lastPeriod <= H
    ensures LockBound(p, s, q) <= Max(1, Limit(p, H)) + Max(q, Wait(p, q) + 1)
  {
    LimitIsPositive(p, q);
    LimitGrows(p, s.lastPeriod, H);
    hide Limit, Wait;
  }

  lemma StreamMarksEvery(p: Params, H: nat, first: seq<nat>, u: seq<nat>, m: nat)
    requires Primitive(u) && |u| + 2 <= H
    requires var rec := Stream(first, u, Settle(first, H, |u|));
             MarksEvery(p, Machine(p, H, rec), |rec|, |u|, m)
    ensures EpochEvery(p, H, first, u, Settle(first, H, |u|) + m)
  {
    hide Machine, Marked, Stream, Steady, SteadyMarks, MarksEvery;
    var q, k0 := |u|, Settle(first, H, |u|);
    var rec := Stream(first, u, k0);
    forall k: nat | k0 + m <= k && 1 <= k
      ensures Locked(Machine(p, H, Stream(first, u, k)), q)
      ensures Marked(p, H, Stream(first, u, k)) <==> (k - (k0 + m)) % q == 0
    {
      SettledMachine(p, H, first, u, k0, k - k0);
      SteadyFrom(p, Machine(p, H, rec), |rec|, q, m, k - k0);
      assert k - (k0 + m) == (k - k0) - m;
    }
  }

  lemma SteadyFrom(p: Params, s: State, n: int, q: int, m: nat, k: nat)
    requires MarksEvery(p, s, n, q, m) && m <= k
    ensures 1 <= m && 1 <= k && 1 <= q
    ensures Locked(Steady(p, s, n, q, k), q)
    ensures SteadyMarks(p, s, n, q, k) <==> (k - m) % q == 0
  {
  }

  lemma ReachedState(p: Params, H: nat, rec: seq<nat>)
    ensures var s := Machine(p, H, rec);
            Counting(p, s) && s.lastEpoch <= |rec| && s.lastPeriod <= H
  {
    RunsAreCounting(p, Readings(rec, H));
    RunsMarkThePast(p, Readings(rec, H));
    LastPeriodBounded(p, H, rec);
  }

  /** Some entry exists from which on the period of `u` stays detected. */
  ghost predicate FollowedForGood(p: Params, H: nat, first: seq<nat>, u: seq<nat>)
    requires u != []
  {
    exists m: nat :: LockedFrom(p, H, first, u, m)
  }

  ghost predicate LockedFrom(p: Params, H: nat, first: seq<nat>, u: seq<nat>, m: nat)
    requires u != []
  {
    forall k: nat :: m <= k ==> Locked(Machine(p, H, Stream(first, u, k)), |u|)
  }

  /** For all parameters: a periodic stream is followed for good if and only if the state it finds the filter in,
      once its readings have settled, and the parameters allow it. */
  lemma FollowedIffFollowable(p: Params, H: nat, first: seq<nat>, u: seq<nat>)
    requires Primitive(u) && |u| + 2 <= H && p.minPeriod <= |u|
    ensures FollowedForGood(p, H, first, u)
       <==> Followable(p, Machine(p, H, Stream(first, u, Settle(first, H, |u|))), |u|)
  {
    var rec := Stream(first, u, Settle(first, H, |u|));
    FollowsIffFollowable(p, Readings(rec, H), |u|);
    SameAsSteady(p, H, first, u);
    hide FollowedForGood, FollowsForGood, Followable, Primitive, After, Stream;
  }

  /** With a stable factor other than 0 the parameters alone decide, whatever was received before. */
  lemma FollowedIffLockable(p: Params, H: nat, first: seq<nat>, u: seq<nat>)
    requires Primitive(u) && |u| + 2 <= H && p.minPeriod <= |u| && p.stableFactor != 0.0
    ensures FollowedForGood(p, H, first, u) <==> Lockable(p, |u|)
  {
    var rec := Stream(first, u, Settle(first, H, |u|));
    FollowsIffLockable(p, Readings(rec, H), |u|);
    SameAsSteady(p, H, first, u);
    hide FollowedForGood, FollowsForGood, Lockable, Primitive, After, Stream;
  }

  /** A parameter set that fails: 1.5 times a base period of 3 is 4.5, a count that is never reached, so a
      stream of period 3 is not followed. */
  lemma HalfCountIsNotReached(H: nat, first: seq<nat>)
    requires H >= 5
    ensures !FollowedForGood(Params(3, 3, 1.5, 1.5), H, first, [1, 2, 3])
  {
    var p, u := Params(3, 3, 1.5, 1.5), [1, 2, 3];
    LoneFirstIsPrimitive(u);
    assert BaseTarget(p) == 4.5;
    FollowedIffLockable(p, H, first, u);
  }

  lemma SameAsSteady(p: Params, H: nat, first: seq<nat>, u: seq<nat>)
    requires Primitive(u) && |u| + 2 <= H
    ensures var rec := Stream(first, u, Settle(first, H, |u|));
            FollowedForGood(p, H, first, u) <==> FollowsForGood(p, Machine(p, H, rec), |rec|, |u|)
  {
    hide LockedFrom, StaysLocked, Machine, Stream;
    var rec := Stream(first, u, Settle(first, H, |u|));
    if m: nat :| LockedFrom(p, H, first, u, m) {
      StreamToMachine(p, H, first, u, m);
    }
    if m: nat :| StaysLocked(p, Machine(p, H, rec), |rec|, |u|, m) {
      MachineToStream(p, H, first, u, m);
    }
  }

  lemma StreamToMachine(p: Params, H: nat, first: seq<nat>, u: seq<nat>, m: nat)
    requires Primitive(u) && |u| + 2 <= H && LockedFrom(p, H, first, u, m)
    ensures var rec := Stream(first, u, Settle(first, H, |u|));
            StaysLocked(p, Machine(p, H, rec), |rec|, |u|, m)
  {
    hide Machine, Stream;
    var k0 := Settle(first, H, |u|);
    var rec := Stream(first, u, k0);
    forall j: nat | m <= j ensures Locked(Steady(p, Machine(p, H, rec), |rec|, |u|, j), |u|) {
      SettledMachine(p, H, first, u, k0, j);
    }
  }

  lemma MachineToStream(p: Params, H: nat, first: seq<nat>, u: seq<nat>, m: nat)
    requires Primitive(u) && |u| + 2 <= H
    requires var rec := Stream(first, u, Settle(first, H, |u|));
             StaysLocked(p, Machine(p, H, rec), |rec|, |u|, m)
    ensures LockedFrom(p, H, first, u, Settle(first, H, |u|) + m)
  {
    hide Machine, Stream;
    var k0 := Settle(first, H, |u|);
    forall k: nat | k0 + m <= k ensures Locked(Machine(p, H, Stream(first, u, k)), |u|) {
      SettledMachine(p, H, first, u, k0, k - k0);
    }
  }
}
