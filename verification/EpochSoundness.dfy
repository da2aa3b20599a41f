/** What the filter detects on arbitrary streams, and exactly when all of it is real. */
module EpochSoundness {
  import opened Words
  import D = DetectorModel
  import opened EpochStateMachine
  import opened EpochRecordFilter
  import opened EpochDetection

  // ----- spacing of epochs

  lemma {:induction false} ReadingsPrefix(rec: seq<nat>, H: nat, i: nat)
    requires i <= |rec|
    ensures Readings(rec, H)[..i] == Readings(rec[..i], H)
    decreases |rec|
  {
    hide D.PeriodOf, D.ScoreOf;
    if i < |rec| {
      var init := rec[..|rec| - 1];
      ReadingsPrefix(init, H, i);
      assert init[..i] == rec[..i];
      assert Readings(rec, H)[..i] == Readings(init, H)[..i];
    } else {
      assert rec[..i] == rec;
    }
  }

  /** For all parameters and any stream: within one detected phase the period stays the same, and any later
      epoch is at least that many region entries after the epoch at entry `i`. */
  lemma EpochsAreAPeriodApart(p: Params, H: nat, rec: seq<nat>, i: nat)
    requires 1 <= i < |rec| && Marked(p, H, rec[..i])
    requires forall k :: i <= k <= |rec| ==> Machine(p, H, rec[..k]).detected
    ensures var q := Machine(p, H, rec[..i]).lastPeriod;
            && Machine(p, H, rec).lastPeriod == q
            && (Marked(p, H, rec) ==> |rec| - i >= q)
            && (Safe(p, H) ==> 1 <= q && p.minPeriod <= q)
  {
    hide Safe, D.PeriodOf, D.ScoreOf, Step, Readings;
    ReadingsPrefix(rec, H, i);
    forall k | i <= k <= |rec| ensures After(p, Readings(rec, H)[..k]).detected {
      ReadingsPrefix(rec, H, k);
    }
    MarksAreAPeriodApart(p, Readings(rec, H), i);
    if Safe(p, H) {
      SafeIsSound(p, H, rec[..i]);
    }
  }

  // ----- soundness

  /** The periods that the detector can report with a poor reading: none yet, a single entry, or a period that is
      too short to count. */
  predicate PoorPeriod(p: Params, H: nat, q: int) {
    q == -1 || (q == 1 && H >= 1) || (2 <= q < H && q < p.minPeriod)
  }

  /** None of them passes the detection test with a count of 0. */
  predicate Safe(p: Params, H: nat) {
    forall q :: -1 <= q <= H && PoorPeriod(p, H, q) ==> !StableEnough(p, 0, q)
  }

  lemma PoorReading(p: Params, H: nat, rec: seq<nat>)
    requires Poor(p, Reading(D.PeriodOf(rec, H), D.ScoreOf(rec, H)))
    ensures PoorPeriod(p, H, D.PeriodOf(rec, H)) && D.PeriodOf(rec, H) <= H
  {
    PeriodAtMostHistory(rec, H);
    if H > 0 && |rec| >= 2 {
      PeriodAtMostBlock(rec, H);
      if H >= 2 {
        BlockIsVisible(rec, H);
      }
    }
    hide D.Score, D.BestBlock;
  }

  lemma PeriodAtMostBlock(rec: seq<nat>, H: nat)
    requires H >= 1 && |rec| >= 2
    ensures 1 <= D.PeriodOf(rec, H) <= D.BestBlock(rec, H) <= D.LongestBlock(|rec|, H)
  {
    hide D.BestBlock;
  }

  lemma BlockIsVisible(rec: seq<nat>, H: nat)
    requires H >= 2 && |rec| >= 2
    ensures D.BestBlock(rec, H) < H && D.ScoreOf(rec, H) in {0, 1}
  {
    hide D.BestBlock, D.Cell;
    D.ScoreIsZeroOrOne(rec, H);
  }

  lemma {:induction false} ReadingsAreRefused(p: Params, H: nat, rec: seq<nat>)
    requires Safe(p, H)
    ensures forall i :: 0 <= i < |rec| ==> Plausible(Readings(rec, H)[i]) && Refused(p, Readings(rec, H)[i])
  {
    hide D.PeriodOf, D.ScoreOf, StableEnough, Poor;
    if rec != [] {
      ReadingsAreRefused(p, H, rec[..|rec| - 1]);
      PeriodAtMostHistory(rec, H);
      var r := Reading(D.PeriodOf(rec, H), D.ScoreOf(rec, H));
      if Poor(p, r) {
        PoorReading(p, H, rec);
      }
    }
  }

  lemma SafeIsSound(p: Params, H: nat, rec: seq<nat>)
    requires Safe(p, H)
    ensures Sound(p, Machine(p, H, rec), |rec|)
  {
    hide Safe, Sound, After;
    ReadingsAreRefused(p, H, rec);
    RunsAreSound(p, Readings(rec, H));
  }

  // ----- a stream for each poor period that is not refused

  /** 0, 1, ... q - 1, 1, 2, ... q: its last reading has period q and score 1. */
  function Ramp(q: nat): (rec: seq<nat>)
    ensures |rec| == 2 * q
  {
    seq(q, i => i) + seq(q, i => i + 1)
  }

  lemma RampAt(q: nat, i: nat)
    requires i < 2 * q
    ensures Ramp(q)[i] == if i < q then i else i - q + 1
  {
  }

  lemma RampHasNoSquare(q: nat, L: nat)
    requires q >= 1
    ensures !SquareAtEnd(Ramp(q), L)
  {
    var rec := Ramp(q);
    if SquareAtEnd(rec, L) {
      assert rec[|rec| - L..][L - 1] == rec[|rec| - 2 * L..|rec| - L][L - 1];
      RampAt(q, 2 * q - 1);
      RampAt(q, 2 * q - 1 - L);
    }
  }

  lemma RampScore(H: nat, q: nat)
    requires 1 <= q < H
    ensures D.BlockScore(Ramp(q), H, q) <= 1
  {
    var rec := Ramp(q);
    var a, b := rec[1..q], D.Block(rec, q, q - 1);
    forall i | 0 <= i < q - 1 ensures a[i] == b[i] {
      RampAt(q, i + 1);
      RampAt(q, q + i);
    }
    assert a == b;
    D.CellZero(rec, H, q, q - 1, q);
    LeftMove(rec, H, q, q, q);
  }

  lemma LeftMove(rec: seq<nat>, H: nat, ii: nat, jj: nat, mm: nat)
    requires 1 <= ii <= mm && 1 <= jj && mm + jj <= |rec| && mm + jj - ii < H && jj < H
    ensures D.Cell(rec, H, ii, jj, mm) <= D.Cell(rec, H, ii, jj - 1, mm) + 1
  {
  }

  /** The chosen block is the second half, which is no repetition. */
  lemma RampReading(H: nat, q: nat)
    requires 1 <= q < H || (q == 1 && H == 1)
    ensures D.PeriodOf(Ramp(q), H) == q && D.ScoreOf(Ramp(q), H) >= 1
  {
    hide D.Cell, D.BestBlock, D.BlockScore, LeastRepeat;
    var rec := Ramp(q);
    D.BestBlockIsBest(rec, H);
    if H == 1 {
      OneIsLost(rec);
    } else {
      RampScore(H, q);
      D.ScoreIsZeroOrOne(rec, H);
      forall L: nat ensures !D.VisibleSquare(rec, H, L) {
        RampHasNoSquare(q, L);
      }
    }
    assert D.BestBlock(rec, H) == q;
    SecondHalf(q);
  }

  lemma OneIsLost(rec: seq<nat>)
    requires |rec| >= 2
    ensures D.BlockScore(rec, 1, 1) >= 1
  {
  }

  lemma SecondHalf(q: nat)
    requires q >= 1
    ensures LeastRepeat(Ramp(q)[q..]) == q
  {
    var w := Ramp(q)[q..];
    forall i | 0 <= i < q ensures w[i] == i + 1 {
      RampAt(q, q + i);
    }
    LoneFirstIsPrimitive(w);
  }

  /** Every earlier reading of the ramp is poor too. */
  lemma RampIsPoor(p: Params, H: nat, q: nat, k: nat)
    requires PoorPeriod(p, H, q) && 1 <= q && 1 <= k <= 2 * q
    ensures Poor(p, Reading(D.PeriodOf(Ramp(q)[..k], H), D.ScoreOf(Ramp(q)[..k], H)))
  {
    hide D.Period, D.Score;
    if k == 2 * q {
      assert Ramp(q)[..k] == Ramp(q);
      RampReading(H, q);
    } else if k >= 2 {
      PeriodAtMostBlock(Ramp(q)[..k], H);
    } else {
      FirstReading(p, H, Ramp(q)[..k]);
    }
  }

  /** A machine that has found nothing yet. */
  predicate Idle(s: State) {
    !s.detected && s.stable == 0
  }

  /** A poor reading leaves the machine idle, or is detected with period -1. */
  lemma PoorStep(p: Params, H: nat, rec: seq<nat>)
    requires rec != [] && Idle(Machine(p, H, rec[..|rec| - 1]))
    requires Poor(p, Reading(D.PeriodOf(rec, H), D.ScoreOf(rec, H)))
    ensures var t := Machine(p, H, rec);
            if StableEnough(p, 0, D.PeriodOf(rec, H)) then Marked(p, H, rec) && t.detected && t.lastPeriod == -1
            else Idle(t)
  {
    hide D.PeriodOf, D.ScoreOf, StableEnough, Machine, Marked;
    var init := rec[..|rec| - 1];
    assert rec == init + [rec[|rec| - 1]];
    MachineStep(p, H, init, rec[|rec| - 1]);
  }

  /** While all readings of a stream are poor, the machine stays idle, unless some prefix is unsound. */
  lemma {:induction false} IdleOrUnsound(p: Params, H: nat, rec: seq<nat>, k: nat) returns (j: nat)
    requires k <= |rec|
    requires forall i :: 1 <= i <= k ==> Poor(p, Reading(D.PeriodOf(rec[..i], H), D.ScoreOf(rec[..i], H)))
    ensures j <= k
    ensures Idle(Machine(p, H, rec[..k])) || !Sound(p, Machine(p, H, rec[..j]), j)
    ensures k >= 1 && StableEnough(p, 0, D.PeriodOf(rec[..k], H)) ==> !Sound(p, Machine(p, H, rec[..j]), j)
  {
    hide D.PeriodOf, D.ScoreOf, StableEnough, Poor, After;
    j := k;
    if k == 0 {
      EmptyIsIdle(p, H);
    } else {
      j := IdleOrUnsound(p, H, rec, k - 1);
      assert rec[..k][..k - 1] == rec[..k - 1];
      if Idle(Machine(p, H, rec[..k - 1])) {
        PoorStep(p, H, rec[..k]);
        j := k;
      }
    }
  }

  lemma EmptyIsSound(p: Params)
    ensures Sound(p, Machine(p, 0, []), 0)
  {
  }

  lemma EmptyIsIdle(p: Params, H: nat)
    ensures Idle(Machine(p, H, []))
  {
  }

  lemma UnsoundStream(p: Params, H: nat, q: int) returns (rec: seq<nat>)
    requires PoorPeriod(p, H, q) && StableEnough(p, 0, q)
    ensures !Sound(p, Machine(p, H, rec), |rec|)
  {
    hide D.Period, D.Score, StableEnough, Sound, Machine, Poor;
    var all := if q == -1 then [0] else Ramp(q);
    assert all[..|all|] == all;
    if q == -1 {
      FirstReading(p, H, [0]);
      assert forall i :: 1 <= i <= 1 ==> all[..i] == [0];
    } else {
      RampReading(H, q);
      forall i | 1 <= i <= 2 * q ensures Poor(p, Reading(D.PeriodOf(all[..i], H), D.ScoreOf(all[..i], H))) {
        RampIsPoor(p, H, q, i);
      }
    }
    var j := IdleOrUnsound(p, H, all, |all|);
    rec := all[..j];
  }

  lemma FirstReading(p: Params, H: nat, rec: seq<nat>)
    requires |rec| == 1
    ensures D.PeriodOf(rec, H) == -1 == D.ScoreOf(rec, H)
    ensures Poor(p, Reading(-1, -1))
  {
  }

  /** Whether the filter takes these region entries: without any history it throws at the first. */
  predicate Receivable(H: nat, rec: seq<nat>) {
    H > 0 || rec == []
  }

  ghost predicate SoundOnStreams(p: Params, H: nat) {
    forall rec: seq<nat> :: Receivable(H, rec) ==> Sound(p, Machine(p, H, rec), |rec|)
  }

  /** For all parameters: what the filter has detected is real on every stream that it takes if and only if it has
      no history, and so takes none, or no poor period that the detector can report passes the detection test
      with a count of 0. */
  lemma SoundIffSafe(p: Params, H: nat)
    ensures SoundOnStreams(p, H) <==> H == 0 || Safe(p, H)
  {
    hide Sound, Machine, StableEnough, PoorPeriod;
    if H == 0 {
      EmptyIsSound(p);
    } else if Safe(p, H) {
      forall rec: seq<nat> ensures Sound(p, Machine(p, H, rec), |rec|) {
        SafeIsSound(p, H, rec);
      }
    } else {
      var q :| -1 <= q <= H && PoorPeriod(p, H, q) && StableEnough(p, 0, q);
      var rec := UnsoundStream(p, H, q);
      assert !Sound(p, Machine(p, H, rec), |rec|);
    }
  }

  /** The same in terms of the parameters, for a base period of at least 1: a stable factor of 0 is unsafe, and
      apart from that only poor periods just above the base can be detected. */
  lemma SafeParameters(p: Params, H: nat)
    requires p.basePeriod >= 1
    ensures Safe(p, H) <==>
            p.stableFactor != 0.0 &&
            (H <= p.basePeriod + 1 || p.minPeriod <= p.basePeriod + 1 ||
             p.stableFactor * (p.basePeriod + 1) as real >= 1.0)
  {
    hide LongTarget, BaseTarget;
    BaseTargetIsZero(p);
    LongTargets(p);
    var b := p.basePeriod + 1;
    if p.stableFactor == 0.0 {
      assert PoorPeriod(p, H, -1) && StableEnough(p, 0, -1);
    } else if b < H && b < p.minPeriod && !Grounded(p) {
      assert PoorPeriod(p, H, b) && StableEnough(p, 0, b);
    } else {
      forall q | -1 <= q <= H && PoorPeriod(p, H, q) ensures !StableEnough(p, 0, q) {
      }
    }
  }

  lemma BaseTargetIsZero(p: Params)
    requires p.basePeriod >= 1
    ensures BaseTarget(p) == 0.0 <==> p.stableFactor == 0.0
  {
    if p.stableFactor != 0.0 {
      NonZeroProduct(p.stableFactor, p.basePeriod as real);
    }
  }

  lemma LongTargets(p: Params)
    requires p.basePeriod >= 1
    ensures Grounded(p) ==> forall q :: q > p.basePeriod ==> LongTarget(p, q) >= 1
    ensures !Grounded(p) ==> LongTarget(p, p.basePeriod + 1) <= 0
  {
    if Grounded(p) {
      forall q | q > p.basePeriod ensures LongTarget(p, q) >= 1 {
        LongTargetIsPositive(p, q);
      }
    } else {
      TruncIsPositive(p.stableFactor * (p.basePeriod + 1) as real);
    }
  }

  /** A stream that fails: with a base period of 1, a least period of 3 and a factor of 0.4, the poor period 2 of
      the entries 1, 2, 1, 2 is detected as if it were the period -1. */
  lemma PoorPeriodIsDetected()
    ensures var p, rec := Params(1, 3, 0.4, 1.0), [1, 2, 1, 2];
            Marked(p, 6, rec) && Machine(p, 6, rec).detected && Machine(p, 6, rec).lastPeriod == -1
  {
    hide D.Period, D.Score, Machine, Marked, StableEnough;
    var p, rec, u := Params(1, 3, 0.4, 1.0), [1, 2, 1, 2], [1, 2];
    ExampleTests(p);
    IdleAtFirst(p);
    assert rec[..|rec| - 1] == [1, 2, 1];
    LoneFirstIsPrimitive(u);
    ExampleReads(rec, u);
    D.PeriodicStreamPeriod(rec, 6, u, 0);
    PoorStep(p, 6, rec);
  }

  lemma ExampleReads(rec: seq<nat>, u: seq<nat>)
    requires rec == [1, 2, 1, 2] && u == [1, 2]
    ensures ReadsFrom(rec, 0, u, 0)
  {
  }

  lemma ExampleTests(p: Params)
    requires p == Params(1, 3, 0.4, 1.0)
    ensures StableEnough(p, 0, 2) && forall q :: q <= 1 ==> !StableEnough(p, 0, q)
  {
  }

  lemma IdleAtFirst(p: Params)
    requires p == Params(1, 3, 0.4, 1.0)
    ensures Idle(Machine(p, 6, [1, 2, 1]))
  {
    hide D.Period, D.Score, Machine, Marked, StableEnough, D.BestBlock;
    ExampleTests(p);
    EmptyIsIdle(p, 6);
    FirstReading(p, 6, [1]);
    assert [1][..0] == [] && [1, 2][..1] == [1] && [1, 2, 1][..2] == [1, 2];
    PoorStep(p, 6, [1]);
    PeriodAtMostBlock([1, 2], 6);
    PoorStep(p, 6, [1, 2]);
    PeriodAtMostBlock([1, 2, 1], 6);
    PoorStep(p, 6, [1, 2, 1]);
  }
}
