/** The control of the time step in LULESH, in exact arithmetic. */
module TimeStep {
  // deltatimemultlb and deltatimemultub are `lb` and `ub`.
  datatype Params = Params(stoptime: real, dtfixed: real, dtmax: real, lb: real, ub: real)

  // The limits that one rank's part of the mesh sets.
  datatype Limits = Limits(dtcourant: real, dthydro: real)

  datatype Clock = Clock(time: real, dt: real, cycle: nat)

  /** The step that one rank proposes. */
  function Candidate(l: Limits): real {
    var far := 100000000000000000000.0;
    var g := if l.dtcourant < far then l.dtcourant / 2.0 else far;
    if l.dthydro < g then l.dthydro * 2.0 / 3.0 else g
  }

  /** What the reduction over all ranks returns. */
  ghost predicate Reduced(newdt: real, ranks: seq<Limits>) {
    && (exists i :: 0 <= i < |ranks| && newdt == Candidate(ranks[i]))
    && forall i :: 0 <= i < |ranks| ==> newdt <= Candidate(ranks[i])
  }

  /** Small increases are not made, large ones are capped. */
  function Adapted(p: Params, olddt: real, newdt: real): real
    requires olddt > 0.0
  {
    var ratio := newdt / olddt;
    var dt := if ratio >= 1.0 && ratio < p.lb then olddt
              else if ratio >= 1.0 && ratio > p.ub then olddt * p.ub
              else newdt;
    if dt > p.dtmax then p.dtmax else dt
  }

  predicate IsAdaptive(p: Params, c: Clock) { p.dtfixed <= 0.0 && c.cycle != 0 }

  /** The step before it is fitted to the time that remains. */
  function Wanted(p: Params, c: Clock, newdt: real): real
    requires c.dt > 0.0
  {
    if IsAdaptive(p, c) then Adapted(p, c.dt, newdt) else c.dt
  }

  /** Fits the step to the remaining time, leaving no very small last step. */
  function Fitted(remaining: real, dt: real): real {
    var target := if dt < remaining < 4.0 * dt / 3.0 then 2.0 * dt / 3.0 else remaining;
    if target < dt then target else dt
  }

  function Tick(p: Params, c: Clock, newdt: real): Clock
    requires c.dt > 0.0
  {
    var dt := Fitted(p.stoptime - c.time, Wanted(p, c, newdt));
    Clock(c.time + dt, dt, c.cycle + 1)
  }

  // The fields of the domain that the time step depends on.
  class TimeControl {
    var time: real
    var deltatime: real
    var cycle: nat
    var stoptime: real
    var dtfixed: real
    var dtcourant: real
    var dthydro: real
    var dtmax: real
    var deltatimemultlb: real
    var deltatimemultub: real

    ghost function State(): Clock
      reads this
    {
      Clock(time, deltatime, cycle)
    }

    ghost function Settings(): Params
      reads this
    {
      Params(stoptime, dtfixed, dtmax, deltatimemultlb, deltatimemultub)
    }

    /** One rank's part of the reduction. */
    method ProposeStep() returns (gnewdt: real)
      ensures gnewdt == Candidate(Limits(dtcourant, dthydro))
    {
      gnewdt := 100000000000000000000.0;
      if dtcourant < gnewdt {
        gnewdt := dtcourant / 2.0;
      }
      if dthydro < gnewdt {
        gnewdt := dthydro * 2.0 / 3.0;
      }
    }

    /** Chooses the next step, given what the reduction returned, and advances the time by it. */
    method TimeIncrement(reduced: real)
      requires deltatime > 0.0
      modifies this`time, this`deltatime, this`cycle
      ensures State() == Tick(Settings(), old(State()), reduced)
    {
      hide Adapted, Fitted;
      var targetdt := stoptime - time;
      if dtfixed <= 0.0 && cycle != 0 {
        deltatime := AdaptStep(reduced);
      }
      deltatime := FitStep(targetdt, deltatime);
      time := time + deltatime;
      cycle := cycle + 1;
    }

    /** The main loop, given what the reduction returns in each cycle; `its` is the cap on the cycles. */
    method MainLoop(its: int, reduced: nat -> real)
      requires Sane(Settings()) && deltatime > 0.0 && forall k: nat :: reduced(k) > 0.0
      modifies this`time, this`deltatime, this`cycle
      ensures State() == RunFor(Settings(), old(State()), its, reduced, CyclesLeft(old(State()), its))
      ensures !Goes(Settings(), State(), its) && (old(time) <= stoptime ==> time <= stoptime)
    {
      ghost var p, c := Settings(), State();
      hide Tick, Sane;
      while time < stoptime && cycle < its
        invariant old(cycle) <= cycle <= old(cycle) + CyclesLeft(c, its)
        invariant deltatime > 0.0 && (old(time) <= stoptime ==> time <= stoptime)
        invariant State() == RunFor(p, c, its, reduced, cycle - old(cycle))
        decreases its - cycle
      {
        TickAdvances(p, State(), reduced(cycle));
        NextCycle(p, State(), reduced(cycle));
        TimeIncrement(reduced(cycle));
      }
      EndedStays(p, c, its, reduced, cycle - old(cycle), CyclesLeft(c, its));
    }

    method AdaptStep(reduced: real) returns (newdt: real)
      requires deltatime > 0.0
      ensures newdt == Adapted(Settings(), deltatime, reduced)
    {
      var olddt := deltatime;
      newdt := reduced;
      var ratio := newdt / olddt;
      if ratio >= 1.0 {
        if ratio < deltatimemultlb {
          newdt := olddt;
        } else if ratio > deltatimemultub {
          newdt := olddt * deltatimemultub;
        }
      }
      if newdt > dtmax {
        newdt := dtmax;
      }
    }
  }

  method FitStep(remaining: real, deltatime: real) returns (dt: real)
    ensures dt == Fitted(remaining, deltatime)
  {
    var targetdt := remaining;
    dt := deltatime;
    if targetdt > deltatime && targetdt < 4.0 * deltatime / 3.0 {
      targetdt := 2.0 * deltatime / 3.0;
    }
    if targetdt < deltatime {
      dt := targetdt;
    }
  }

  // ----- one step

  predicate Sane(p: Params) { p.dtmax > 0.0 && p.ub >= 1.0 }

  predicate Positive(l: Limits) { l.dtcourant > 0.0 && l.dthydro > 0.0 }

  lemma CandidateWithin(l: Limits)
    requires Positive(l)
    ensures 0.0 < Candidate(l) <= l.dtcourant && Candidate(l) <= l.dthydro
  {
  }

  const FAR := 100000000000000000000.0

  function Least(x: real, y: real): real { if x <= y then x else y }

  /** The proposal is the lesser of half the Courant limit and two thirds of the hydro limit, except exactly when
      the hydro limit is at least half the Courant limit and less than three quarters of it: the code compares it
      before it takes two thirds, and then proposes half the Courant limit. Limits beyond `FAR` do not count. */
  lemma CandidateIsLeast(l: Limits)
    requires Positive(l)
    ensures var c, h := l.dtcourant, l.dthydro;
            && (c < FAR && h < FAR ==>
                  (Candidate(l) == Least(c / 2.0, 2.0 * h / 3.0) <==> !(c / 2.0 <= h < 3.0 * c / 4.0)))
            && (c / 2.0 <= h < 3.0 * c / 4.0 && c < FAR ==> Candidate(l) == c / 2.0)
            && (c < FAR <= h ==> Candidate(l) == c / 2.0)
            && (h < FAR <= c ==> Candidate(l) == 2.0 * h / 3.0)
            && (FAR <= c && FAR <= h ==> Candidate(l) == FAR)
  {
  }

  /** A pair of limits for which it is not the lesser: 1.0 is proposed, and two thirds of 1.2 are 0.8. */
  lemma HydroLimitIsPassedOver()
    ensures Candidate(Limits(2.0, 1.2)) == 1.0 > Least(2.0 / 2.0, 2.0 * 1.2 / 3.0)
  {
  }

  /** The adapted step, by products: a lesser proposal is taken at once, a growth below `lb` is not made, one
      above `ub` is cut to it, and the largest step caps all. */
  lemma AdaptedByProducts(p: Params, olddt: real, newdt: real)
    requires olddt > 0.0
    ensures Adapted(p, olddt, newdt) == Limited(p.dtmax, olddt, newdt, p.lb * olddt, p.ub * olddt)
  {
    RatioBelow(newdt, olddt, 1.0);
    RatioBelow(newdt, olddt, p.lb);
    RatioBelow(newdt, olddt, p.ub);
    ByRatio(p, olddt, newdt, newdt / olddt, p.lb * olddt, p.ub * olddt);
  }

  function Limited(dtmax: real, olddt: real, newdt: real, low: real, high: real): real {
    if newdt < olddt then Least(newdt, dtmax)
    else if newdt < low then Least(olddt, dtmax)
    else Least(newdt, Least(high, dtmax))
  }

  lemma ByRatio(p: Params, olddt: real, newdt: real, ratio: real, low: real, high: real)
    requires olddt > 0.0 && ratio == newdt / olddt && high == p.ub * olddt
    requires ratio < 1.0 <==> newdt < olddt
    requires ratio < p.lb <==> newdt < low
    requires ratio > p.ub <==> newdt > high
    ensures Adapted(p, olddt, newdt) == Limited(p.dtmax, olddt, newdt, low, high)
  {
  }

  lemma RatioBelow(newdt: real, olddt: real, f: real)
    requires olddt > 0.0
    ensures newdt / olddt < f <==> newdt < f * olddt
    ensures newdt / olddt > f <==> newdt > f * olddt
  {
    var ratio := newdt / olddt;
    assert ratio * olddt == newdt;
    if ratio < f {
      Scale(ratio, f, olddt);
    } else if ratio > f {
      Scale(f, ratio, olddt);
    }
  }

  lemma Scale(x: real, y: real, k: real)
    requires x < y && k > 0.0
    ensures x * k < y * k
  {
    assert (y - x) * k > 0.0;
  }

  lemma AdaptedWithin(p: Params, olddt: real, newdt: real)
    requires Sane(p) && olddt > 0.0 && newdt > 0.0
    ensures 0.0 < Adapted(p, olddt, newdt) <= newdt
    ensures Adapted(p, olddt, newdt) <= p.dtmax && Adapted(p, olddt, newdt) <= p.ub * olddt
    ensures newdt >= olddt && p.dtmax >= olddt ==> Adapted(p, olddt, newdt) >= olddt
    ensures newdt < olddt ==> Adapted(p, olddt, newdt) == if newdt > p.dtmax then p.dtmax else newdt
  {
    var ratio := newdt / olddt;
    assert ratio * olddt == newdt;
    assert ratio >= 1.0 <==> newdt >= olddt;
    assert p.ub * olddt >= olddt;
    if ratio > p.ub {
      assert p.ub * olddt <= ratio * olddt;
    } else {
      assert ratio * olddt <= p.ub * olddt;
    }
  }

  /** Within one step the time advances but never passes the stop time; the time that remains is nothing or
      at least a third of the step; and the step is no longer than wanted. */
  lemma TickAdvances(p: Params, c: Clock, newdt: real)
    requires Sane(p) && c.dt > 0.0 && newdt > 0.0 && c.time < p.stoptime
    ensures var n := Tick(p, c, newdt);
            && c.time < n.time <= p.stoptime && 0.0 < n.dt <= Wanted(p, c, newdt) && n.time == c.time + n.dt
            && (n.time == p.stoptime || p.stoptime - n.time >= n.dt / 3.0)
  {
    AdaptedWithin(p, c.dt, newdt);
  }

  /** The wanted step is taken unless less than four thirds of it remain. If no more than it remains, the step ends
      exactly at the stop time; otherwise it is two thirds of the wanted one, and then the next step ends there,
      whenever it is wanted at least as long. */
  lemma TickFits(p: Params, c: Clock, newdt: real)
    requires c.dt > 0.0 && c.time < p.stoptime && Wanted(p, c, newdt) > 0.0
    ensures var n, w, left := Tick(p, c, newdt), Wanted(p, c, newdt), p.stoptime - c.time;
            && (left <= w ==> n.time == p.stoptime)
            && (w < left < 4.0 * w / 3.0 ==> n.dt == 2.0 * w / 3.0)
            && (4.0 * w / 3.0 <= left ==> n.dt == w)
            && (w < left < 4.0 * w / 3.0 ==>
                  forall next: real :: n.dt > 0.0 && Wanted(p, n, next) >= n.dt ==> Tick(p, n, next).time == p.stoptime)
  {
    hide Wanted;
  }

  /** The longest step that may follow a given one. */
  function Growth(p: Params, c: Clock): real { p.ub * c.dt }

  lemma WantedWithin(p: Params, c: Clock, newdt: real)
    requires Sane(p) && c.dt > 0.0 && newdt > 0.0 && IsAdaptive(p, c)
    ensures var w := Wanted(p, c, newdt); w <= newdt && w <= p.dtmax && w <= Growth(p, c)
  {
    AdaptedWithin(p, c.dt, newdt);
    hide Adapted;
  }

  /** An adaptive step is within the limits of every rank, the largest step and the largest growth. */
  lemma StepIsWithinLimits(p: Params, c: Clock, newdt: real, ranks: seq<Limits>, i: nat)
    requires Sane(p) && c.dt > 0.0 && c.time < p.stoptime && p.dtfixed <= 0.0 && c.cycle != 0 && i < |ranks|
    requires Reduced(newdt, ranks) && forall l :: l in ranks ==> Positive(l)
    ensures var dt := Tick(p, c, newdt).dt;
            dt <= ranks[i].dtcourant && dt <= ranks[i].dthydro && dt <= p.dtmax && dt <= Growth(p, c)
  {
    hide Candidate, Adapted, Tick, Sane, Wanted, Growth;
    var j :| 0 <= j < |ranks| && newdt == Candidate(ranks[j]);
    CandidateWithin(ranks[j]);
    CandidateWithin(ranks[i]);
    TickAdvances(p, c, newdt);
    WantedWithin(p, c, newdt);
  }

  /** The first step and, with a fixed step, every step is wanted as long as the one before. */
  lemma GivenStepIsKept(p: Params, c: Clock, newdt: real)
    requires c.dt > 0.0
    ensures p.dtfixed > 0.0 || c.cycle == 0 ==> Wanted(p, c, newdt) == c.dt
    ensures p.dtfixed <= 0.0 && c.cycle > 0 ==> Wanted(p, c, newdt) == Adapted(p, c.dt, newdt)
  {
    hide Adapted;
  }

  // ----- whole runs

  predicate Goes(p: Params, c: Clock, its: int) { c.time < p.stoptime && c.cycle < its }

  /** How many cycles the cap allows. */
  function CyclesLeft(c: Clock, its: int): nat { if its > c.cycle then its - c.cycle else 0 }

  /** The clock after at most `n` cycles: the loop ends when the stop time or the cap on the cycles is reached. The
      step stays positive in all the runs considered here (see RunsAdvance), so testing it ends none of them. */
  function RunFor(p: Params, c: Clock, its: int, reduced: nat -> real, n: nat): Clock
    requires c.dt > 0.0
  {
    if n == 0 then c
    else
      var before := RunFor(p, c, its, reduced, n - 1);
      if Goes(p, before, its) && before.dt > 0.0 then Tick(p, before, reduced(before.cycle)) else before
  }

  /** Over whole runs the time strictly increases until the loop ends, and never passes the stop time. */
  lemma {:induction false} RunsAdvance(p: Params, c: Clock, its: int, reduced: nat -> real, m: nat, n: nat)
    requires Sane(p) && c.dt > 0.0 && c.time <= p.stoptime && m <= n && forall k: nat :: reduced(k) > 0.0
    ensures var b, e := RunFor(p, c, its, reduced, m), RunFor(p, c, its, reduced, n);
            && b.time <= e.time <= p.stoptime && e.dt > 0.0
            && (m < n && Goes(p, b, its) ==> b.time < e.time && e.cycle > b.cycle)
  {
    hide Tick;
    if n > 0 {
      var before := RunFor(p, c, its, reduced, n - 1);
      RunsAdvance(p, c, its, reduced, if m < n then m else n - 1, n - 1);
      if Goes(p, before, its) {
        TickAdvances(p, before, reduced(before.cycle));
        NextCycle(p, before, reduced(before.cycle));
      }
    }
  }

  lemma {:induction false} EndedStays(p: Params, c: Clock, its: int, reduced: nat -> real, m: nat, n: nat)
    requires c.dt > 0.0 && m <= n && !Goes(p, RunFor(p, c, its, reduced, m), its)
    ensures RunFor(p, c, its, reduced, n) == RunFor(p, c, its, reduced, m)
  {
    if m < n {
      EndedStays(p, c, its, reduced, m, n - 1);
    }
  }

  /** While the loop goes on it has made one cycle each time. */
  lemma {:induction false} CyclesCount(p: Params, c: Clock, its: int, reduced: nat -> real, n: nat)
    requires Sane(p) && c.dt > 0.0 && c.time <= p.stoptime && forall k: nat :: reduced(k) > 0.0
    ensures var e := RunFor(p, c, its, reduced, n);
            && c.cycle <= e.cycle <= c.cycle + n
            && (Goes(p, e, its) ==> e.cycle == c.cycle + n)
  {
    hide Tick, Sane;
    if n > 0 {
      var before := RunFor(p, c, its, reduced, n - 1);
      CyclesCount(p, c, its, reduced, n - 1);
      RunsAdvance(p, c, its, reduced, 0, n - 1);
      NextCycle(p, before, reduced(before.cycle));
    }
  }

  /** A cap that allows `n` cycles makes no difference to them. */
  lemma {:induction false} CapIsLate(p: Params, c: Clock, its: int, other: int, reduced: nat -> real, n: nat)
    requires Sane(p) && c.dt > 0.0 && c.time <= p.stoptime && forall k: nat :: reduced(k) > 0.0
    requires c.cycle + n <= its && c.cycle + n <= other
    ensures RunFor(p, c, its, reduced, n) == RunFor(p, c, other, reduced, n)
  {
    hide Tick, Sane;
    if n > 0 {
      CapIsLate(p, c, its, other, reduced, n - 1);
      CyclesCount(p, c, its, reduced, n - 1);
    }
  }

  /** The clock after at most `n` cycles without a cap. */
  function Uncapped(p: Params, c: Clock, reduced: nat -> real, n: nat): Clock
    requires c.dt > 0.0
  {
    RunFor(p, c, c.cycle + n, reduced, n)
  }

  /** The loop has reached the stop time after some number of cycles. */
  ghost predicate Reaches(p: Params, c: Clock, its: int, reduced: nat -> real)
    requires c.dt > 0.0
  {
    exists n: nat :: RunFor(p, c, its, reduced, n).time == p.stoptime
  }

  /** The capped loop reaches the stop time if and only if the loop without a cap is there after the cycles that
      the cap allows. */
  lemma ReachedIffInTime(p: Params, c: Clock, its: int, reduced: nat -> real)
    requires Sane(p) && c.dt > 0.0 && c.time <= p.stoptime && forall k: nat :: reduced(k) > 0.0
    ensures Reaches(p, c, its, reduced) <==> Uncapped(p, c, reduced, CyclesLeft(c, its)).time == p.stoptime
  {
    hide RunFor, Sane;
    var left := CyclesLeft(c, its);
    LastOfAll(p, c, its, reduced, left);
    if its >= c.cycle {
      CapIsLate(p, c, its, c.cycle + left, reduced, left);
    } else {
      NoCycles(p, c, its, c.cycle, reduced);
    }
    if n: nat :| RunFor(p, c, its, reduced, n).time == p.stoptime {
      if n <= left {
        RunsAdvance(p, c, its, reduced, n, left);
      } else {
        EndedStays(p, c, its, reduced, left, n);
      }
    }
  }

  lemma NoCycles(p: Params, c: Clock, its: int, other: int, reduced: nat -> real)
    requires c.dt > 0.0
    ensures RunFor(p, c, its, reduced, 0) == RunFor(p, c, other, reduced, 0)
  {
  }

  /** After the cycles that the cap allows the loop has ended. */
  lemma LastOfAll(p: Params, c: Clock, its: int, reduced: nat -> real, n: nat)
    requires Sane(p) && c.dt > 0.0 && c.time <= p.stoptime && forall k: nat :: reduced(k) > 0.0
    requires n >= CyclesLeft(c, its)
    ensures !Goes(p, RunFor(p, c, its, reduced, n), its)
  {
    hide RunFor, Sane;
    CyclesCount(p, c, its, reduced, n);
  }

  /** A cap can be too low: no step is longer than the first or the largest one, so too few of them fall short. */
  lemma TooFewCycles(p: Params, c: Clock, its: int, reduced: nat -> real, longest: real)
    requires Sane(p) && c.dt > 0.0 && c.time <= p.stoptime && forall k: nat :: reduced(k) > 0.0
    requires c.dt <= longest && p.dtmax <= longest
    requires CyclesLeft(c, its) as real * longest < p.stoptime - c.time
    ensures !Reaches(p, c, its, reduced)
  {
    hide RunFor, Sane;
    var left := CyclesLeft(c, its);
    ReachedIffInTime(p, c, its, reduced);
    RunsShort(p, c, c.cycle + left, reduced, longest, left);
  }

  lemma {:induction false} RunsShort(p: Params, c: Clock, its: int, reduced: nat -> real, longest: real, n: nat)
    requires Sane(p) && c.dt > 0.0 && c.time <= p.stoptime && forall k: nat :: reduced(k) > 0.0
    requires c.dt <= longest && p.dtmax <= longest
    ensures var e := RunFor(p, c, its, reduced, n);
            e.dt <= longest && e.time <= c.time + n as real * longest
  {
    hide Tick, Sane, Wanted;
    if n > 0 {
      var before := RunFor(p, c, its, reduced, n - 1);
      RunsShort(p, c, its, reduced, longest, n - 1);
      RunsAdvance(p, c, its, reduced, 0, n - 1);
      assert n as real * longest == (n - 1) as real * longest + longest;
      if Goes(p, before, its) {
        TickAdvances(p, before, reduced(before.cycle));
        WantedShort(p, before, reduced(before.cycle), longest);
      }
    }
  }

  lemma WantedShort(p: Params, c: Clock, newdt: real, longest: real)
    requires Sane(p) && 0.0 < c.dt <= longest && newdt > 0.0 && p.dtmax <= longest
    ensures Wanted(p, c, newdt) <= longest
  {
    AdaptedWithin(p, c.dt, newdt);
    hide Adapted;
  }

  /** A run that is cut off: one cycle of length 1 does not lead to a stop time of 10. */
  lemma OneCycleIsTooFew(reduced: nat -> real, n: nat)
    requires forall k: nat :: reduced(k) > 0.0
    ensures RunFor(Params(10.0, -1.0, 1.0, 1.1, 1.2), Clock(0.0, 1.0, 0), 1, reduced, n).time < 10.0
  {
    var p, c := Params(10.0, -1.0, 1.0, 1.1, 1.2), Clock(0.0, 1.0, 0);
    TooFewCycles(p, c, 1, reduced, 1.0);
    RunsAdvance(p, c, 1, reduced, 0, n);
    hide RunFor;
  }

  lemma NextCycle(p: Params, c: Clock, newdt: real)
    requires c.dt > 0.0
    ensures Tick(p, c, newdt).cycle == c.cycle + 1
  {
  }

  /** The step is not short, or it is two thirds of one that was not and the next step is the last. */
  predicate LongEnough(p: Params, c: Clock, least: real) {
    c.dt >= least || (c.dt >= 2.0 * least / 3.0 && p.stoptime - c.time < c.dt)
  }

  lemma WantedLong(p: Params, c: Clock, newdt: real, least: real)
    requires Sane(p) && 0.0 < least <= newdt && least <= p.dtmax && c.dt > 0.0
    ensures Wanted(p, c, newdt) >= c.dt || Wanted(p, c, newdt) >= least
  {
    AdaptedWithin(p, c.dt, newdt);
    if p.dtmax < c.dt <= newdt {
      CapReached(p, c.dt, newdt);
    }
  }

  lemma CapReached(p: Params, olddt: real, newdt: real)
    requires Sane(p) && 0.0 < olddt <= newdt && p.dtmax < olddt
    ensures Adapted(p, olddt, newdt) == p.dtmax
  {
    assert newdt / olddt >= 1.0;
    assert olddt * p.ub >= olddt;
  }

  lemma TickLong(p: Params, c: Clock, newdt: real, least: real)
    requires Sane(p) && 0.0 < least <= newdt && least <= p.dtmax && c.dt > 0.0
    requires c.time < p.stoptime && LongEnough(p, c, least)
    ensures var n := Tick(p, c, newdt);
            n.time == p.stoptime || (LongEnough(p, n, least) && n.time >= c.time + 2.0 * least / 3.0)
  {
    hide Adapted;
    WantedLong(p, c, newdt, least);
    TickAdvances(p, c, newdt);
  }

  /** No run gets stuck: if no rank ever proposes less than some least step, and the cap allows the number of cycles
      that the least step determines, then the loop reaches exactly the stop time within that number. */
  lemma StopTimeIsReached(p: Params, c: Clock, its: int, reduced: nat -> real, least: real, n: nat)
    requires Sane(p) && 0.0 < least <= c.dt && least <= p.dtmax && c.time <= p.stoptime
    requires forall k: nat :: reduced(k) >= least
    requires n as real * (2.0 * least / 3.0) >= p.stoptime - c.time && c.cycle + n <= its
    ensures RunFor(p, c, its, reduced, n).time == p.stoptime
  {
    RunsAdvance(p, c, its, reduced, 0, n);
    RunsLong(p, c, its, reduced, least, n);
  }

  lemma {:induction false} RunsLong(p: Params, c: Clock, its: int, reduced: nat -> real, least: real, n: nat)
    requires Sane(p) && 0.0 < least <= c.dt && least <= p.dtmax && c.time <= p.stoptime
    requires c.cycle + n <= its && forall k: nat :: reduced(k) >= least
    ensures var e := RunFor(p, c, its, reduced, n);
            e.time == p.stoptime || (LongEnough(p, e, least) && e.time >= c.time + n as real * (2.0 * least / 3.0))
  {
    hide Tick;
    if n > 0 {
      var before := RunFor(p, c, its, reduced, n - 1);
      RunsLong(p, c, its, reduced, least, n - 1);
      RunsAdvance(p, c, its, reduced, 0, n - 1);
      CyclesCount(p, c, its, reduced, n - 1);
      if before.time < p.stoptime {
        TickLong(p, before, reduced(before.cycle), least);
        assert n as real * (2.0 * least / 3.0) == (n - 1) as real * (2.0 * least / 3.0) + 2.0 * least / 3.0;
      }
    }
  }
}
