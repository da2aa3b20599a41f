/** When the state machine begins, keeps, marks and ends a phase, told from the readings and the earlier marks. */
module EpochPhases {
  import D = DetectorModel
  import opened EpochStateMachine
  import opened EpochRecordFilter

  /** The number of the latest marked entry, or 0. */
  function LastMark(p: Params, rs: seq<Reading>): nat {
    if rs == [] then 0 else if Marks(p, rs) then |rs| else LastMark(p, rs[..|rs| - 1])
  }

  /** After how many entries the present phase, detected or not, has begun. */
  function PhaseStart(p: Params, rs: seq<Reading>): (j: nat)
    ensures j <= |rs|
  {
    if rs == [] then 0
    else if After(p, rs).detected != After(p, rs[..|rs| - 1]).detected then |rs|
    else PhaseStart(p, rs[..|rs| - 1])
  }

  /** The period of the reading that began the present detected phase, or else the latest one. A poor reading
      stands for -1, and so does the time before all phases. */
  function Followed(p: Params, rs: seq<Reading>): int {
    if rs == [] then -1
    else
      var init, r := rs[..|rs| - 1], rs[|rs| - 1];
      if After(p, rs).detected && !After(p, init).detected then (if Poor(p, r) then -1 else r.period)
      else Followed(p, init)
  }

  /** How many readings in a row, at the end of those behind `from`, have another period than `q`. */
  function OddTail(rs: seq<Reading>, from: nat, q: int): nat {
    if |rs| <= from || rs[|rs| - 1].period == q then 0 else OddTail(rs[..|rs| - 1], from, q) + 1
  }

  /** How many in a row have period `q` and are not poor. */
  function SameTail(p: Params, rs: seq<Reading>, from: nat, q: int): nat {
    if |rs| <= from || rs[|rs| - 1].period != q || Poor(p, rs[|rs| - 1]) then 0
    else SameTail(p, rs[..|rs| - 1], from, q) + 1
  }

  /** How often the last reading has been confirmed since `from`. The first of its period does not confirm itself,
      except that directly behind a phase the period `past` of that phase still counts. */
  function Confirmed(p: Params, rs: seq<Reading>, from: nat, past: int): int
    requires rs != []
  {
    var r := rs[|rs| - 1];
    var t := SameTail(p, rs, from, r.period);
    if Poor(p, r) then 0 else if from + t == |rs| && r.period == past then t else t - 1
  }

  /** The fields of the state in a detected phase. */
  lemma {:induction false} DetectedState(p: Params, rs: seq<Reading>)
    ensures var s := After(p, rs);
            if s.detected then
              && s.lastPeriod == Followed(p, rs) && s.lastEpoch == LastMark(p, rs)
              && s.unstable == OddTail(rs, PhaseStart(p, rs), Followed(p, rs)) && s.stable == 0
            else s.unstable == 0
  {
    hide StableEnough, Limit, Poor;
    if rs != [] {
      DetectedState(p, rs[..|rs| - 1]);
    }
  }

  /** The fields of the state while nothing is detected. */
  lemma {:induction false} CountingState(p: Params, rs: seq<Reading>)
    requires AllPlausible(rs) && !After(p, rs).detected
    ensures var s, j := After(p, rs), PhaseStart(p, rs);
            if |rs| == j then s.lastPeriod == Followed(p, rs) && s.stable == 0
            else
              && s.lastPeriod == (if Poor(p, rs[|rs| - 1]) then -1 else rs[|rs| - 1].period)
              && s.stable == Confirmed(p, rs, j, Followed(p, rs))
  {
    hide StableEnough, Limit;
    if rs != [] {
      var init := rs[..|rs| - 1];
      if After(p, init).detected {
        DetectedState(p, init);
      } else {
        CountingState(p, init);
        ConfirmedNext(p, rs, PhaseStart(p, init), Followed(p, init));
      }
    }
  }

  /** One more reading confirms, begins or breaks a row. */
  lemma ConfirmedNext(p: Params, rs: seq<Reading>, from: nat, past: int)
    requires rs != [] && from < |rs| && AllPlausible(rs)
    ensures var init, r := rs[..|rs| - 1], rs[|rs| - 1];
            var before := if |init| == from then (past, 0)
                          else (if Poor(p, init[|init| - 1]) then -1 else init[|init| - 1].period,
                                Confirmed(p, init, from, past));
            Confirmed(p, rs, from, past) == if !Poor(p, r) && r.period == before.0 then before.1 + 1 else 0
  {
    var init, r := rs[..|rs| - 1], rs[|rs| - 1];
    assert Plausible(r);
    if |init| > from {
      TailWithin(p, init, from, r.period);
    }
  }

  lemma {:induction false} TailWithin(p: Params, rs: seq<Reading>, from: nat, q: int)
    requires from <= |rs|
    ensures SameTail(p, rs, from, q) <= |rs| - from
    decreases |rs|
  {
    if from < |rs| {
      TailWithin(p, rs[..|rs| - 1], from, q);
    }
  }

  // A factor of the hysteresis times a period.
  function Share(factor: real, period: int): real { factor * period as real }

  /** A count reaches a truncated share exactly when it is less than one below the share. */
  lemma ReachesTrunc(k: nat, x: real)
    ensures k >= Trunc(x) <==> k as real + 1.0 > x
  {
  }

  lemma ReachesLimit(p: Params, k: nat, q: int)
    ensures k >= Limit(p, q) <==> k as real + 1.0 > Share(p.unstableFactor, q)
  {
    assert Limit(p, q) == Trunc(Share(p.unstableFactor, q));
    hide *;
    ReachesTrunc(k, Share(p.unstableFactor, q));
  }

  lemma ReachesTarget(p: Params, k: nat, q: int)
    ensures StableEnough(p, k, q) <==>
            if q <= p.basePeriod then k as real == Share(p.stableFactor, p.basePeriod)
            else k as real + 1.0 > Share(p.stableFactor, q)
  {
    assert LongTarget(p, q) == Trunc(Share(p.stableFactor, q)) && BaseTarget(p) == Share(p.stableFactor, p.basePeriod);
    hide Trunc, Share, LongTarget, BaseTarget;
    ReachesTrunc(k, Share(p.stableFactor, q));
  }

  /** In a detected phase: it goes on as long as the readings in a row that differ from the followed period, and
      one more, do not exceed the unstable factor times that period. While it goes on, an entry is marked exactly
      when its reading has at least the followed period and as many entries have passed since the latest mark as
      the reading says. */
  lemma PhaseGoesOn(p: Params, rs: seq<Reading>)
    requires rs != [] && After(p, rs[..|rs| - 1]).detected
    ensures var init, r := rs[..|rs| - 1], rs[|rs| - 1];
            var q := Followed(p, init);
            && (After(p, rs).detected <==>
                OddTail(rs, PhaseStart(p, init), q) as real + 1.0 <= Share(p.unstableFactor, q))
            && (Marks(p, rs) <==>
                After(p, rs).detected && r.period >= q && |rs| - LastMark(p, init) >= r.period)
  {
    var init := rs[..|rs| - 1];
    DetectedState(p, init);
    var q := Followed(p, init);
    ReachesLimit(p, OddTail(rs, PhaseStart(p, init), q), q);
    hide StableEnough, Poor, Limit, Share, PhaseStart, Followed, LastMark;
  }

  /** While nothing is detected: a phase begins, with a mark, exactly when the last reading has been confirmed often
      enough for its period. */
  lemma PhaseBegins(p: Params, rs: seq<Reading>)
    requires rs != [] && AllPlausible(rs) && !After(p, rs[..|rs| - 1]).detected
    ensures var init, r := rs[..|rs| - 1], rs[|rs| - 1];
            var k := Confirmed(p, rs, PhaseStart(p, init), Followed(p, init));
            && (Marks(p, rs) <==> After(p, rs).detected)
            && (Marks(p, rs) <==>
                if r.period <= p.basePeriod then k as real == Share(p.stableFactor, p.basePeriod)
                else k as real + 1.0 > Share(p.stableFactor, r.period))
  {
    var init, r := rs[..|rs| - 1], rs[|rs| - 1];
    CountingState(p, init);
    var k := Confirmed(p, rs, PhaseStart(p, init), Followed(p, init));
    ConfirmedNext(p, rs, PhaseStart(p, init), Followed(p, init));
    assert After(p, init).stable >= 0 by { RunsAreCounting(p, init); }
    ReachesTarget(p, k, r.period);
    hide StableEnough, Limit, Share, PhaseStart, Followed, Confirmed;
  }

  /** The detector gives only such readings, so all this holds of the filter on every stream. */
  lemma {:induction false} ReadingsArePlausible(rec: seq<nat>, H: nat)
    ensures AllPlausible(Readings(rec, H))
  {
    hide D.Cell, D.BestBlock;
    if rec != [] {
      ReadingsArePlausible(rec[..|rec| - 1], H);
    }
  }
}
