/** The two-state hysteresis machine that turns period readings into epoch markers. */
module EpochStateMachine {
  import opened Arithmetic

  datatype Params = Params(basePeriod: int, minPeriod: int, stableFactor: real, unstableFactor: real)

  /** What the detector reports after one more region entry. */
  datatype Reading = Reading(period: int, score: int)

  datatype State = State(lastPeriod: int, stable: int, unstable: int, detected: bool, lastEpoch: int)

  const START := State(-1, 0, 0, false, -1)

  // A C++ conversion from double to int truncates toward zero.
  function Trunc(r: real): int {
    if r >= 0.0 then r.Floor else -((-r).Floor)
  }

  /** The score says that the period is of low quality, or the period is too short to count. */
  predicate Poor(p: Params, r: Reading) {
    r.score >= r.period || r.period < p.minPeriod
  }

  /** The state after counting one reading while no period is detected. */
  function Counted(p: Params, s: State, r: Reading): State {
    if Poor(p, r) then s.(lastPeriod := -1, stable := 0)
    else if r.period == s.lastPeriod then s.(stable := s.stable + 1)
    else s.(lastPeriod := r.period, stable := 0)
  }

  // The count, possibly fractional, at which a short period is detected.
  function BaseTarget(p: Params): real {
    p.stableFactor * p.basePeriod as real
  }

  // The count from which a long period is detected.
  function LongTarget(p: Params, period: int): int {
    Trunc(p.stableFactor * period as real)
  }

  // The count at which a detected period is given up.
  function Limit(p: Params, period: int): int {
    Trunc(p.unstableFactor * period as real)
  }

  /** Whether the period has been stable for long enough. */
  predicate StableEnough(p: Params, stable: int, period: int) {
    || (period <= p.basePeriod && stable as real == BaseTarget(p))
    || (period > p.basePeriod && stable >= LongTarget(p, period))
  }

  /** One region entry, the `n`-th: the new state and whether it is marked as an epoch. */
  function Step(p: Params, s: State, r: Reading, n: int): (State, bool) {
    if !s.detected then
      var c := Counted(p, s, r);
      if StableEnough(p, c.stable, r.period) then (c.(detected := true, lastEpoch := n, stable := 0), true)
      else (c, false)
    else
      var u := if r.period == s.lastPeriod then 0 else s.unstable + 1;
      if u >= Limit(p, s.lastPeriod) then (s.(detected := false, unstable := 0), false)
      else if r.period >= s.lastPeriod && n - s.lastEpoch >= r.period then (s.(unstable := u, lastEpoch := n), true)
      else (s.(unstable := u), false)
  }

  /** The state after a whole run of readings. */
  function After(p: Params, rs: seq<Reading>): State {
    if rs == [] then START
    else Step(p, After(p, rs[..|rs| - 1]), rs[|rs| - 1], |rs|).0
  }

  /** Whether the last reading of a run is marked as an epoch. */
  predicate Marks(p: Params, rs: seq<Reading>)
    requires rs != []
  {
    Step(p, After(p, rs[..|rs| - 1]), rs[|rs| - 1], |rs|).1
  }

  // ----- every run

  /** A detected period is a real one, and so is a period that is being counted. */
  ghost predicate Sound(p: Params, s: State, n: nat) {
    && s.stable >= 0 && s.unstable >= 0
    && s.lastEpoch <= n
    && (s.detected ==> s.stable == 0 && 1 <= s.lastPeriod && p.minPeriod <= s.lastPeriod)
    && (!s.detected && s.stable > 0 ==> 1 <= s.lastPeriod && p.minPeriod <= s.lastPeriod)
  }

  /** Every reading of a detector: a negative score comes with no better a period. */
  predicate Plausible(r: Reading) {
    r.score >= 0 || r.score >= r.period
  }

  /** A poor reading resets the count to 0 and is then still put to the detection test. */
  predicate Refused(p: Params, r: Reading) {
    Poor(p, r) ==> !StableEnough(p, 0, r.period)
  }

  /** As long as the test refuses every poor reading, a detected period is a real one. */
  lemma {:induction false} RunsAreSound(p: Params, rs: seq<Reading>)
    requires forall i :: 0 <= i < |rs| ==> Plausible(rs[i]) && Refused(p, rs[i])
    ensures Sound(p, After(p, rs), |rs|)
  {
    hide StableEnough, Limit;
    if rs != [] {
      RunsAreSound(p, rs[..|rs| - 1]);
    }
  }

  // The condition on the parameters alone: no count of 0 reaches a threshold.
  predicate Grounded(p: Params) {
    p.basePeriod >= 1 && p.stableFactor * (p.basePeriod + 1) as real >= 1.0
  }

  ghost predicate AllPlausible(rs: seq<Reading>) {
    forall i :: 0 <= i < |rs| ==> Plausible(rs[i])
  }

  ghost predicate AlwaysSound(p: Params) {
    forall rs: seq<Reading> :: AllPlausible(rs) ==> Sound(p, After(p, rs), |rs|)
  }

  lemma GroundedRefuses(p: Params, r: Reading)
    requires Grounded(p)
    ensures Refused(p, r)
  {
    FactorIsPositive(p.stableFactor, (p.basePeriod + 1) as real);
    PositiveProduct(p.stableFactor, p.basePeriod as real);
    if r.period > p.basePeriod {
      LongTargetIsPositive(p, r.period);
    }
    hide LongTarget;
  }

  lemma LongTargetIsPositive(p: Params, q: int)
    requires Grounded(p) && q > p.basePeriod
    ensures LongTarget(p, q) >= 1
  {
    FactorIsPositive(p.stableFactor, (p.basePeriod + 1) as real);
    ProductGrows(p.stableFactor, (p.basePeriod + 1) as real, q as real);
    TruncIsPositive(p.stableFactor * q as real);
  }

  lemma FactorIsPositive(f: real, b: real)
    requires b > 0.0 && f * b >= 1.0
    ensures f > 0.0
  {
    if f <= 0.0 {
      NoGain(f, b);
    }
  }

  lemma NoGain(f: real, b: real)
    requires f <= 0.0 && b > 0.0
    ensures f * b <= 0.0
  {
  }

  lemma TruncIsPositive(r: real)
    ensures Trunc(r) >= 1 <==> r >= 1.0
  {
  }

  lemma ProductGrows(f: real, x: real, y: real)
    requires f > 0.0 && x <= y
    ensures f * x <= f * y
  {
    assert f * (y - x) >= 0.0;
  }

  /** A poor reading that passes the detection test with a count of 0. */
  function FalseAlarm(p: Params): Reading {
    if p.basePeriod <= 0 then Reading(0, 0) else Reading(p.basePeriod + 1, p.basePeriod + 1)
  }

  /** Without the condition the first reading of a run can already be detected, with period -1. */
  lemma FalseAlarmIsDetected(p: Params)
    requires !Grounded(p)
    ensures Marks(p, [FalseAlarm(p)]) && After(p, [FalseAlarm(p)]).detected
    ensures After(p, [FalseAlarm(p)]).lastPeriod == -1
  {
    FalseAlarmPasses(p);
    hide StableEnough, Grounded;
    var r := FalseAlarm(p);
    assert [r][..0] == [];
    assert After(p, [r]) == Step(p, START, r, 1).0;
  }

  lemma FalseAlarmPasses(p: Params)
    requires !Grounded(p)
    ensures StableEnough(p, 0, FalseAlarm(p).period)
  {
    if p.basePeriod == 0 {
      NoShare(p.stableFactor, p.basePeriod as real);
    } else if p.basePeriod < 0 {
      NothingToReach(p);
    } else {
      TruncIsPositive(p.stableFactor * (p.basePeriod + 1) as real);
      hide Trunc;
    }
  }

  lemma NoShare(factor: real, x: real)
    requires x == 0.0
    ensures factor * x == 0.0
  {
  }

  lemma NothingToReach(p: Params)
    ensures LongTarget(p, 0) == 0
  {
    NoShare(p.stableFactor, 0 as real);
    assert Trunc(0.0) == 0;
    hide Trunc;
  }

  /** For all parameters whatever: every run is sound if and only if no count of 0 reaches a threshold. */
  lemma SoundIffGrounded(p: Params)
    ensures AlwaysSound(p) <==> Grounded(p)
  {
    if Grounded(p) {
      forall rs: seq<Reading> | AllPlausible(rs) ensures Sound(p, After(p, rs), |rs|) {
        forall i | 0 <= i < |rs| ensures Refused(p, rs[i]) {
          GroundedRefuses(p, rs[i]);
        }
        RunsAreSound(p, rs);
      }
    } else {
      FalseAlarmIsDetected(p);
      assert AllPlausible([FalseAlarm(p)]);
      assert !Sound(p, After(p, [FalseAlarm(p)]), 1);
    }
  }

  /** For all parameters: between two marks of one detected phase the period stays the same, and at least that
      many entries pass. */
  lemma {:induction false} MarksAreAPeriodApart(p: Params, rs: seq<Reading>, i: nat)
    requires 1 <= i < |rs| && Marks(p, rs[..i])
    requires forall k :: i <= k <= |rs| ==> After(p, rs[..k]).detected
    ensures var s, t := After(p, rs[..i]), After(p, rs);
            && t.lastPeriod == s.lastPeriod
            && i <= t.lastEpoch <= |rs|
            && (t.lastEpoch > i ==> t.lastEpoch >= i + s.lastPeriod)
    ensures Marks(p, rs) ==> |rs| - i >= After(p, rs[..i]).lastPeriod
    decreases |rs|
  {
    hide StableEnough, Limit;
    var init, r := rs[..|rs| - 1], rs[|rs| - 1];
    assert rs[..|rs|] == rs;
    assert init[..i] == rs[..i];
    if i < |init| {
      forall k | i <= k <= |init| ensures After(p, init[..k]).detected {
        assert init[..k] == rs[..k];
      }
      MarksAreAPeriodApart(p, init, i);
    } else {
      assert init == rs[..i];
    }
  }

  // ----- a steady period

  /** `k` further readings, all of period `q` and score 0, from state `s` after `n` entries. */
  function Steady(p: Params, s: State, n: int, q: int, k: nat): State {
    if k == 0 then s else Step(p, Steady(p, s, n, q, k - 1), Reading(q, 0), n + k).0
  }

  predicate SteadyMarks(p: Params, s: State, n: int, q: int, k: nat)
    requires k >= 1
  {
    Step(p, Steady(p, s, n, q, k - 1), Reading(q, 0), n + k).1
  }

  predicate Locked(s: State, q: int) {
    s.detected && s.lastPeriod == q
  }

  /** The number of stable readings after which period `q` counts as detected. */
  function Wait(p: Params, q: int): int {
    if q <= p.basePeriod then BaseTarget(p).Floor else LongTarget(p, q)
  }

  /** The condition, on the parameters alone, under which a steady period `q` is followed for good. */
  predicate Lockable(p: Params, q: int) {
    && (q <= p.basePeriod ==> IsPositiveInteger(BaseTarget(p)))
    && Limit(p, q) >= 1
  }

  predicate IsPositiveInteger(r: real) {
    r >= 1.0 && r == r.Floor as real
  }

  /** What every run establishes; for short periods it keeps the count below its target. */
  ghost predicate Counting(p: Params, s: State) {
    && s.unstable >= 0 && s.stable >= 0
    && (s.detected ==> s.stable == 0)
    && (IsPositiveInteger(BaseTarget(p)) && !s.detected && s.lastPeriod <= p.basePeriod ==>
          s.stable as real < BaseTarget(p))
  }

  lemma CountingStep(p: Params, s: State, r: Reading, n: int)
    requires Counting(p, s)
    ensures Counting(p, Step(p, s, r, n).0)
  {
    hide BaseTarget, LongTarget, Limit;
    var target := BaseTarget(p);
    if IsPositiveInteger(target) && !s.detected {
      var t, c := target.Floor, Counted(p, s, r);
      assert t as real == target && t >= 1;
      if r.period == s.lastPeriod && r.period <= p.basePeriod && c.stable == s.stable + 1 {
        assert s.stable < t;
        assert c.stable != t ==> c.stable as real < target;
      }
    }
  }

  lemma {:induction false} RunsAreCounting(p: Params, rs: seq<Reading>)
    ensures Counting(p, After(p, rs))
  {
    if rs != [] {
      RunsAreCounting(p, rs[..|rs| - 1]);
      CountingStep(p, After(p, rs[..|rs| - 1]), rs[|rs| - 1], |rs|);
    }
  }

  lemma {:induction false} SteadyAdd(p: Params, s: State, n: int, q: int, a: nat, b: nat)
    ensures Steady(p, Steady(p, s, n, q, a), n + a, q, b) == Steady(p, s, n, q, a + b)
    decreases b
  {
    if b > 0 {
      SteadyAdd(p, s, n, q, a, b - 1);
    }
  }

  lemma SteadyMarksAdd(p: Params, s: State, n: int, q: int, a: nat, b: nat)
    requires b >= 1
    ensures SteadyMarks(p, Steady(p, s, n, q, a), n + a, q, b) == SteadyMarks(p, s, n, q, a + b)
  {
    SteadyAdd(p, s, n, q, a, b - 1);
  }

  /** A different period is given up after its share of unstable readings. */
  lemma {:induction false} LeaveOld(p: Params, s: State, n: int, q: int) returns (a: nat)
    requires s.detected && s.lastPeriod != q && s.unstable >= 0 && s.stable == 0 && s.lastEpoch <= n
    ensures 1 <= a <= Max(1, Limit(p, s.lastPeriod) - s.unstable)
    ensures var t := Steady(p, s, n, q, a);
            !t.detected && t.stable == 0 && t.lastPeriod != q && t.lastEpoch <= n + a
    decreases Limit(p, s.lastPeriod) - s.unstable
  {
    hide BaseTarget, LongTarget, Limit;
    var t := Step(p, s, Reading(q, 0), n + 1).0;
    assert Steady(p, s, n, q, 0) == s;
    assert Steady(p, s, n, q, 1) == t;
    if t.detected {
      var b := LeaveOld(p, t, n + 1, q);
      SteadyAdd(p, s, n, q, 1, b);
      a := 1 + b;
    } else {
      a := 1;
    }
  }

  /** A steady period is detected once it has been counted up to its target. */
  lemma {:induction false} CountUp(p: Params, s: State, n: int, q: int) returns (b: nat)
    requires !s.detected && Counting(p, s) && Lockable(p, q) && 1 <= q && p.minPeriod <= q
    ensures 1 <= b <= Max(1, if s.lastPeriod == q then Wait(p, q) - s.stable else Wait(p, q) + 1)
    ensures Locked(Steady(p, s, n, q, b), q) && Steady(p, s, n, q, b).lastEpoch == n + b
    ensures SteadyMarks(p, s, n, q, b)
    decreases if s.lastPeriod == q then 0 else 1, Wait(p, q) - s.stable
  {
    hide BaseTarget, LongTarget, Limit;
    var t := Step(p, s, Reading(q, 0), n + 1).0;
    assert Steady(p, s, n, q, 0) == s;
    assert Steady(p, s, n, q, 1) == t;
    var c := Counted(p, s, Reading(q, 0));
    if StableEnough(p, c.stable, q) {
      b := 1;
    } else {
      CountingStep(p, s, Reading(q, 0), n + 1);
      assert c.stable < Wait(p, q);
      var b' := CountUp(p, t, n + 1, q);
      SteadyAdd(p, s, n, q, 1, b');
      SteadyMarksAdd(p, s, n, q, 1, b');
      b := 1 + b';
    }
  }

  /** A phase that already follows the steady period marks its next epoch within one period. */
  lemma {:induction false} NextMark(p: Params, s: State, n: int, q: int) returns (c: nat)
    requires Locked(s, q) && s.lastEpoch <= n && Lockable(p, q) && 1 <= q
    ensures 1 <= c <= q
    ensures Locked(Steady(p, s, n, q, c), q) && Steady(p, s, n, q, c).lastEpoch == n + c
    ensures SteadyMarks(p, s, n, q, c)
    decreases q - (n - s.lastEpoch)
  {
    hide BaseTarget, LongTarget, Limit;
    var t := Step(p, s, Reading(q, 0), n + 1).0;
    assert Steady(p, s, n, q, 0) == s;
    assert Steady(p, s, n, q, 1) == t;
    if n + 1 - s.lastEpoch >= q {
      c := 1;
    } else {
      var c' := NextMarkWithin(p, t, n + 1, q, q - (n + 1 - s.lastEpoch));
      SteadyAdd(p, s, n, q, 1, c');
      SteadyMarksAdd(p, s, n, q, 1, c');
      c := 1 + c';
    }
  }

  lemma {:induction false} NextMarkWithin(p: Params, s: State, n: int, q: int, d: nat) returns (c: nat)
    requires Locked(s, q) && n - s.lastEpoch == q - d && 1 <= d <= q && Lockable(p, q)
    ensures c == d
    ensures Locked(Steady(p, s, n, q, c), q) && Steady(p, s, n, q, c).lastEpoch == n + c
    ensures SteadyMarks(p, s, n, q, c)
    decreases d
  {
    hide BaseTarget, LongTarget, Limit;
    var t := Step(p, s, Reading(q, 0), n + 1).0;
    assert Steady(p, s, n, q, 0) == s;
    assert Steady(p, s, n, q, 1) == t;
    c := d;
    if d > 1 {
      var c' := NextMarkWithin(p, t, n + 1, q, d - 1);
      SteadyAdd(p, s, n, q, 1, c');
      SteadyMarksAdd(p, s, n, q, 1, c');
    }
  }

  lemma ModNext(k: nat, q: nat)
    requires q >= 1 && k >= 1
    ensures k % q == if (k - 1) % q == q - 1 then 0 else (k - 1) % q + 1
  {
    var a, r := (k - 1) / q, (k - 1) % q;
    assert k - 1 == a * q + r;
    if r == q - 1 {
      assert k == (a + 1) * q + 0 by { assert (a + 1) * q == a * q + q; }
      ModUnique(k, q, a + 1, 0);
    } else {
      ModUnique(k, q, a, r + 1);
    }
  }

  /** From a mark on, a followed period is marked exactly every `q` entries. */
  lemma {:induction false} LockedRun(p: Params, s: State, n: int, q: int, k: nat)
    requires Locked(s, q) && s.lastEpoch == n && Lockable(p, q) && 1 <= q
    ensures Locked(Steady(p, s, n, q, k), q)
    ensures Steady(p, s, n, q, k).lastEpoch == n + k - k % q
    ensures k >= 1 ==> (SteadyMarks(p, s, n, q, k) <==> k % q == 0)
  {
    if k == 0 {
      ModUnique(0, q, 0, 0);
    } else {
      LockedRun(p, s, n, q, k - 1);
      ModNext(k, q);
    }
  }

  /** How many entries a steady period needs at most. */
  function LockBound(p: Params, s: State, q: int): int {
    (if s.detected && s.lastPeriod != q then Max(1, Limit(p, s.lastPeriod)) else 0)
    + Max(q, Wait(p, q) + 1)
  }

  lemma ReachLock(p: Params, s: State, n: int, q: int) returns (m: nat)
    requires Counting(p, s) && s.lastEpoch <= n && Lockable(p, q) && 1 <= q && p.minPeriod <= q
    ensures 1 <= m <= LockBound(p, s, q)
    ensures Locked(Steady(p, s, n, q, m), q) && Steady(p, s, n, q, m).lastEpoch == n + m
    ensures SteadyMarks(p, s, n, q, m)
  {
    hide Step, Counted, Lockable, Limit, Wait;
    if !s.detected {
      m := CountUp(p, s, n, q);
    } else if s.lastPeriod == q {
      m := NextMark(p, s, n, q);
    } else {
      var a := LeaveOld(p, s, n, q);
      var t := Steady(p, s, n, q, a);
      SteadyIsCounting(p, s, n, q, a);
      var b := CountUp(p, t, n + a, q);
      SteadyAdd(p, s, n, q, a, b);
      SteadyMarksAdd(p, s, n, q, a, b);
      m := a + b;
    }
  }

  lemma {:induction false} SteadyIsCounting(p: Params, s: State, n: int, q: int, k: nat)
    requires Counting(p, s)
    ensures Counting(p, Steady(p, s, n, q, k))
  {
    if k > 0 {
      SteadyIsCounting(p, s, n, q, k - 1);
      CountingStep(p, Steady(p, s, n, q, k - 1), Reading(q, 0), n + k);
    }
  }

  /** From entry `m` of a steady stretch on, the machine follows period `q` and marks every `q`-th entry. */
  ghost predicate MarksEvery(p: Params, s: State, n: int, q: int, m: nat) {
    && 1 <= m && 1 <= q
    && (forall k: nat :: m <= k ==> Locked(Steady(p, s, n, q, k), q))
    && (forall k: nat :: m <= k ==> (SteadyMarks(p, s, n, q, k) <==> (k - m) % q == 0))
  }

  /** From any state a run can reach, a steady period is followed within a bounded number of entries. */
  lemma LocksOn(p: Params, s: State, n: int, q: int) returns (m: nat)
    requires Counting(p, s) && s.lastEpoch <= n && Lockable(p, q) && 1 <= q && p.minPeriod <= q
    ensures 1 <= m <= LockBound(p, s, q) && MarksEvery(p, s, n, q, m)
  {
    hide Counting, Lockable, LockBound, Steady, SteadyMarks, Locked;
    m := ReachLock(p, s, n, q);
    forall k: nat | m <= k
      ensures Locked(Steady(p, s, n, q, k), q)
      ensures SteadyMarks(p, s, n, q, k) <==> (k - m) % q == 0
    {
      LockedFromMark(p, s, n, q, m, k);
    }
  }

  lemma LockedFromMark(p: Params, s: State, n: int, q: int, m: nat, k: nat)
    requires 1 <= m <= k && Lockable(p, q) && 1 <= q
    requires Locked(Steady(p, s, n, q, m), q) && Steady(p, s, n, q, m).lastEpoch == n + m && SteadyMarks(p, s, n, q, m)
    ensures Locked(Steady(p, s, n, q, k), q)
    ensures SteadyMarks(p, s, n, q, k) <==> (k - m) % q == 0
  {
    hide Lockable, Step, Steady, SteadyMarks;
    LockedRun(p, Steady(p, s, n, q, m), n + m, q, k - m);
    SteadyAdd(p, s, n, q, m, k - m);
    if k > m {
      SteadyMarksAdd(p, s, n, q, m, k - m);
    } else {
      ModUnique(0, q, 0, 0);
    }
  }

  // ----- exactly when a steady period is followed

  ghost predicate StaysLocked(p: Params, s: State, n: int, q: int, m: nat) {
    forall k: nat :: m <= k ==> Locked(Steady(p, s, n, q, k), q)
  }

  ghost predicate FollowsForGood(p: Params, s: State, n: int, q: int) {
    exists m: nat :: StaysLocked(p, s, n, q, m)
  }

  /** Without a whole number of readings to count to, a short period is never detected. */
  ghost predicate NeverShort(p: Params, s: State) {
    s.stable >= 0 && (s.detected ==> s.stable == 0 && !(1 <= s.lastPeriod <= p.basePeriod))
  }

  // A count to reach that no count ever is, not even 0.
  predicate NoTarget(p: Params) {
    BaseTarget(p) != 0.0 && !IsPositiveInteger(BaseTarget(p))
  }

  lemma NeverShortStep(p: Params, s: State, r: Reading, n: int)
    requires NoTarget(p) && NeverShort(p, s)
    ensures NeverShort(p, Step(p, s, r, n).0)
  {
    hide BaseTarget, LongTarget, Limit;
    IntegerIsItsFloor(Counted(p, s, r).stable, BaseTarget(p));
  }

  lemma IntegerIsItsFloor(c: int, r: real)
    ensures c as real == r ==> r == r.Floor as real
  {
  }

  lemma {:induction false} RunsAreNeverShort(p: Params, rs: seq<Reading>)
    requires NoTarget(p)
    ensures NeverShort(p, After(p, rs))
  {
    hide Step, NoTarget;
    if rs != [] {
      RunsAreNeverShort(p, rs[..|rs| - 1]);
      NeverShortStep(p, After(p, rs[..|rs| - 1]), rs[|rs| - 1], |rs|);
    }
  }

  lemma {:induction false} SteadyIsNeverShort(p: Params, s: State, n: int, q: int, k: nat)
    requires NoTarget(p) && NeverShort(p, s)
    ensures NeverShort(p, Steady(p, s, n, q, k))
  {
    hide Step, NoTarget;
    if k > 0 {
      SteadyIsNeverShort(p, s, n, q, k - 1);
      NeverShortStep(p, Steady(p, s, n, q, k - 1), Reading(q, 0), n + k);
    }
  }

  lemma {:induction false} RunsMarkThePast(p: Params, rs: seq<Reading>)
    ensures After(p, rs).lastEpoch <= |rs|
  {
    if rs != [] {
      RunsMarkThePast(p, rs[..|rs| - 1]);
    }
  }

  /** Whether a steady period is followed for good from a state. With a target of 0, which a stable factor of 0
      gives, a short period is detected at its first reading, but never again once it has been given up. */
  predicate Followable(p: Params, s: State, q: int) {
    && Limit(p, q) >= 1
    && (q <= p.basePeriod ==>
          if BaseTarget(p) == 0.0 then s.detected || s.lastPeriod != q
          else IsPositiveInteger(BaseTarget(p)))
  }

  /** After any run and for all parameters: a steady detectable period is eventually followed for good if and
      only if the state and the parameters allow it. */
  lemma FollowsIffFollowable(p: Params, rs: seq<Reading>, q: int)
    requires 1 <= q && p.minPeriod <= q
    ensures FollowsForGood(p, After(p, rs), |rs|, q) <==> Followable(p, After(p, rs), q)
  {
    var s, n := After(p, rs), |rs|;
    RunsAreCounting(p, rs);
    RunsMarkThePast(p, rs);
    hide After, Counting, Limit, BaseTarget, FollowsForGood;
    if Limit(p, q) < 1 {
      NeverForGood(p, s, n, q);
    } else if Lockable(p, q) {
      var m := LocksOn(p, s, n, q);
      HoldsForGood(p, s, n, q, m);
    } else if BaseTarget(p) == 0.0 {
      ZeroTarget(p, s, n, q);
    } else {
      RunsAreNeverShort(p, rs);
      NeverLocked(p, s, n, q);
    }
  }

  lemma HoldsForGood(p: Params, s: State, n: int, q: int, m: nat)
    requires StaysLocked(p, s, n, q, m) || MarksEvery(p, s, n, q, m)
    ensures FollowsForGood(p, s, n, q)
  {
    hide Locked;
    assert StaysLocked(p, s, n, q, m);
  }

  lemma NeverForGood(p: Params, s: State, n: int, q: int)
    requires Limit(p, q) < 1
    ensures !FollowsForGood(p, s, n, q)
  {
    hide Limit, Locked;
    forall m: nat ensures !StaysLocked(p, s, n, q, m) {
      GivesUp(p, s, n, q, m);
    }
  }

  lemma GivesUp(p: Params, s: State, n: int, q: int, m: nat)
    requires Limit(p, q) < 1
    ensures !Locked(Steady(p, s, n, q, m), q) || !Locked(Steady(p, s, n, q, m + 1), q)
  {
    hide Limit;
  }

  lemma NeverLocked(p: Params, s: State, n: int, q: int)
    requires NoTarget(p) && NeverShort(p, s) && 1 <= q <= p.basePeriod
    ensures !FollowsForGood(p, s, n, q)
  {
    hide NoTarget, Steady;
    forall m: nat ensures !StaysLocked(p, s, n, q, m) {
      SteadyIsNeverShort(p, s, n, q, m);
      assert !Locked(Steady(p, s, n, q, m), q);
    }
  }

  // ----- a target of 0

  lemma ZeroTarget(p: Params, s: State, n: int, q: int)
    requires BaseTarget(p) == 0.0 && Limit(p, q) >= 1 && 1 <= q <= p.basePeriod && p.minPeriod <= q
    requires Counting(p, s) && s.lastEpoch <= n
    ensures FollowsForGood(p, s, n, q) <==> s.detected || s.lastPeriod != q
  {
    hide BaseTarget, Limit, FollowsForGood, Step;
    assert Steady(p, s, n, q, 0) == s;
    if !s.detected && s.lastPeriod == q {
      PastTarget(p, s, n, q);
    } else if !s.detected {
      AtOnce(p, s, n, q, 0);
    } else if s.lastPeriod == q {
      StayLocked(p, s, n, q, 0);
    } else {
      var a := LeaveOld(p, s, n, q);
      AtOnce(p, s, n, q, a);
    }
  }

  /** The first reading of a new period is detected at once. */
  lemma AtOnce(p: Params, s: State, n: int, q: int, a: nat)
    requires BaseTarget(p) == 0.0 && Limit(p, q) >= 1 && 1 <= q <= p.basePeriod && p.minPeriod <= q
    requires var t := Steady(p, s, n, q, a); !t.detected && t.lastPeriod != q
    ensures FollowsForGood(p, s, n, q)
  {
    hide BaseTarget, Limit, FollowsForGood;
    assert Locked(Steady(p, s, n, q, a + 1), q);
    StayLocked(p, s, n, q, a + 1);
  }

  lemma StayLocked(p: Params, s: State, n: int, q: int, m: nat)
    requires Limit(p, q) >= 1 && Locked(Steady(p, s, n, q, m), q)
    ensures FollowsForGood(p, s, n, q)
  {
    hide Limit, Steady, Locked;
    forall k: nat | m <= k ensures Locked(Steady(p, s, n, q, k), q) {
      StayLockedFor(p, s, n, q, m, k);
    }
    assert StaysLocked(p, s, n, q, m);
  }

  lemma {:induction false} StayLockedFor(p: Params, s: State, n: int, q: int, m: nat, k: nat)
    requires Limit(p, q) >= 1 && Locked(Steady(p, s, n, q, m), q) && m <= k
    ensures Locked(Steady(p, s, n, q, k), q)
  {
    hide Limit;
    if m < k {
      StayLockedFor(p, s, n, q, m, k - 1);
    }
  }

  /** A period that has been given up is counted on from 1, so that the count never is 0 again. */
  lemma PastTarget(p: Params, s: State, n: int, q: int)
    requires BaseTarget(p) == 0.0 && 1 <= q <= p.basePeriod && p.minPeriod <= q
    requires !s.detected && s.lastPeriod == q && s.stable >= 0
    ensures !FollowsForGood(p, s, n, q)
  {
    hide BaseTarget, Steady;
    forall m: nat ensures !StaysLocked(p, s, n, q, m) {
      CountsOn(p, s, n, q, m);
      assert !Locked(Steady(p, s, n, q, m), q);
    }
  }

  lemma {:induction false} CountsOn(p: Params, s: State, n: int, q: int, k: nat)
    requires BaseTarget(p) == 0.0 && 1 <= q <= p.basePeriod && p.minPeriod <= q
    requires !s.detected && s.lastPeriod == q && s.stable >= 0
    ensures var t := Steady(p, s, n, q, k); !t.detected && t.lastPeriod == q && t.stable == s.stable + k
  {
    hide BaseTarget;
    if k > 0 {
      CountsOn(p, s, n, q, k - 1);
    }
  }

  /** With a stable factor other than 0 the parameters alone decide: short periods need a whole number of
      readings to count to, and the unstable threshold of the period must be at least one reading. */
  lemma FollowsIffLockable(p: Params, rs: seq<Reading>, q: int)
    requires p.stableFactor != 0.0 && 1 <= q && p.minPeriod <= q
    ensures FollowsForGood(p, After(p, rs), |rs|, q) <==> Lockable(p, q)
  {
    hide After, Limit, FollowsForGood;
    FollowsIffFollowable(p, rs, q);
    if q <= p.basePeriod {
      NonZeroProduct(p.stableFactor, p.basePeriod as real);
    }
  }

  lemma NonZeroProduct(x: real, y: real)
    requires x != 0.0 && y > 0.0
    ensures x * y != 0.0
  {
    if x > 0.0 {
      PositiveProduct(x, y);
    } else {
      PositiveProduct(-x, y);
      assert (-x) * y == -(x * y);
    }
  }

  lemma PositiveProduct(x: real, y: real)
    requires x > 0.0 && y > 0.0
    ensures x * y > 0.0
  {
  }
}
