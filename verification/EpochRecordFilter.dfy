/** The record filter: passes every record but the application's own epochs, and adds
    an epoch record after each region entry that the state machine marks. */
module EpochRecordFilter {
  import opened Common
  import opened Records
  import D = DetectorModel
  import opened EpochStateMachine
  import opened PeriodicityDetector

  /** The readings the detector gives while the region entries `rec` arrive. */
  ghost function Readings(rec: seq<nat>, H: nat): (rs: seq<Reading>)
    ensures |rs| == |rec|
  {
    if rec == [] then []
    else Readings(rec[..|rec| - 1], H) + [Reading(D.PeriodOf(rec, H), D.ScoreOf(rec, H))]
  }

  /** The machine after the region entries `rec`. */
  ghost function Machine(p: Params, H: nat, rec: seq<nat>): State {
    After(p, Readings(rec, H))
  }

  /** Whether the last of the region entries `rec` is marked. */
  ghost predicate Marked(p: Params, H: nat, rec: seq<nat>)
    requires rec != []
  {
    Marks(p, Readings(rec, H))
  }

  ghost function EpochsSoFar(p: Params, H: nat, rec: seq<nat>): nat {
    if rec == [] then 0
    else EpochsSoFar(p, H, rec[..|rec| - 1]) + if Marked(p, H, rec) then 1 else 0
  }

  /** The hashes of the region entries among the records `input`. */
  function EntryHashes(input: seq<Record>): seq<nat> {
    if input == [] then []
    else
      var last := input[|input| - 1];
      EntryHashes(input[..|input| - 1]) + if last.event.RegionEntry? then [last.signal] else []
  }

  lemma EntryHashesPush(input: seq<Record>, r: Record)
    ensures EntryHashes(input + [r])
         == if r.event.RegionEntry? then EntryHashes(input) + [r.signal] else EntryHashes(input)
  {
    assert (input + [r])[..|input|] == input;
  }

  /** What the filter answers to one record after the region entries `before`. */
  ghost function FilterOne(p: Params, H: nat, before: seq<nat>, record: Record): seq<Record> {
    if record.event.EpochCount? then []
    else if record.event.RegionEntry? && Marked(p, H, before + [record.signal]) then
      [record, record.(event := EpochCount, signal := EpochsSoFar(p, H, before + [record.signal]))]
    else [record]
  }

  /** Everything the filter answers to the records `input` when it has seen the region entries `before`. */
  ghost function FilterAll(p: Params, H: nat, before: seq<nat>, input: seq<Record>): seq<Record> {
    if input == [] then []
    else
      var init := input[..|input| - 1];
      FilterAll(p, H, before, init) + FilterOne(p, H, before + EntryHashes(init), input[|input| - 1])
  }

  class EditDistEpochRecordFilter {
    const edpd: EditDistPeriodicityDetector
    const params: Params
    var lastPeriod: int
    var periodStable: int
    var periodUnstable: int
    var isPeriodDetected: bool
    var lastEpoch: int
    var epochCount: nat
    ghost var input: seq<Record>   // every record filtered so far

    ghost predicate Valid()
      reads this, edpd, edpd.history, edpd.history.buffer, edpd.table
    {
      && edpd.Valid()
      && edpd.records == EntryHashes(input)
      && MachineState() == Machine(params, edpd.historySize, edpd.records)
      && epochCount == EpochsSoFar(params, edpd.historySize, edpd.records)
    }

    function MachineState(): State
      reads this
    {
      State(lastPeriod, periodStable, periodUnstable, isPeriodDetected, lastEpoch)
    }

    constructor (detector: EditDistPeriodicityDetector, parameters: Params)
      requires detector.Valid() && detector.records == []
      ensures Valid() && input == [] && edpd == detector && params == parameters
    {
      edpd, params := detector, parameters;
      lastPeriod, periodStable, periodUnstable := -1, 0, 0;
      isPeriodDetected, lastEpoch, epochCount := false, -1, 0;
      input := [];
    }

    /** A region entry that the history cannot hold makes the filter throw. */
    method Filter(record: Record) returns (r: Result<seq<Record>>)
      requires Valid()
      modifies this, edpd, edpd.history, edpd.history.buffer, edpd.table
      ensures Valid() && edpd.history.buffer == old(edpd.history.buffer)
      ensures r.Failure? <==> record.event.RegionEntry? && edpd.historySize == 0
      ensures r.Success? ==> input == old(input) + [record]
      ensures r.Success? ==> r.value == FilterOne(params, edpd.historySize, EntryHashes(old(input)), record)
      ensures r.Failure? ==> input == old(input)
    {
      EntryHashesPush(input, record);
      hide Step, Machine, Marked, EpochsSoFar, EntryHashes, EditDistPeriodicityDetector.Valid;
      var result := [];
      if !record.event.EpochCount? {
        result := result + [record];
        if record.event.RegionEntry? {
          var o, mark := Enter(record);
          if o.Fail? {
            return Failure(o.error);
          }
          if mark {
            epochCount := epochCount + 1;
            var epochEvent := record.(event := EpochCount, signal := epochCount);
            result := result + [epochEvent];
          }
        }
      }
      input := input + [record];
      return Success(result);
    }

    /** Feeds a region entry to the detector and the state machine. */
    method Enter(record: Record) returns (o: Outcome, mark: bool)
      requires Valid() && record.event.RegionEntry?
      modifies this`lastPeriod, this`periodStable, this`periodUnstable, this`isPeriodDetected, this`lastEpoch,
               edpd, edpd.history, edpd.history.buffer, edpd.table
      ensures edpd.Valid() && edpd.history.buffer == old(edpd.history.buffer)
      ensures o == if edpd.historySize == 0 then Fail(RuntimeError) else Pass
      ensures o.Fail? ==> Valid()
      ensures o.Pass? ==>
                && edpd.records == old(edpd.records) + [record.signal]
                && MachineState() == Machine(params, edpd.historySize, edpd.records)
                && mark == Marked(params, edpd.historySize, edpd.records)
                && epochCount + (if mark then 1 else 0) == EpochsSoFar(params, edpd.historySize, edpd.records)
    {
      CountStep(params, edpd.historySize, edpd.records, record.signal);
      MachineStep(params, edpd.historySize, edpd.records, record.signal);
      hide Step, Machine, Marked, EpochsSoFar;
      mark := false;
      o := edpd.Update(record);
      if o.Pass? {
        mark := EpochDetected();
      }
    }

    method EpochDetected() returns (mark: bool)
      requires edpd.Valid()
      modifies this`lastPeriod, this`periodStable, this`periodUnstable, this`isPeriodDetected, this`lastEpoch
      ensures (MachineState(), mark)
           == Step(params, old(MachineState()), Reading(edpd.period, edpd.score), edpd.recordCount)
    {
      hide BaseTarget, LongTarget, Limit;
      if !isPeriodDetected {
        if edpd.score >= edpd.period || edpd.period < params.minPeriod {
          lastPeriod := -1;
          periodStable := 0;
        } else if edpd.period == lastPeriod {
          periodStable := periodStable + 1;
        } else {
          lastPeriod := edpd.period;
          periodStable := 0;
        }
        if || (edpd.period <= params.basePeriod && periodStable as real == BaseTarget(params))
           || (edpd.period > params.basePeriod && periodStable >= LongTarget(params, edpd.period)) {
          isPeriodDetected := true;
          lastEpoch := edpd.recordCount;
          periodStable := 0;
          return true;
        }
      } else {
        if edpd.period == lastPeriod {
          periodUnstable := 0;
        } else {
          periodUnstable := periodUnstable + 1;
        }
        if periodUnstable >= Limit(params, lastPeriod) {
          isPeriodDetected := false;
          periodUnstable := 0;
          return false;
        }
        if edpd.period >= lastPeriod && edpd.recordCount - lastEpoch >= edpd.period {
          lastEpoch := edpd.recordCount;
          return true;
        }
      }
      return false;
    }
  }

  // ----- the output of every run

  /** One record's worth of output: the record itself unless it is an epoch, and at most one epoch,
      which carries the running count. */
  lemma OneOutput(p: Params, H: nat, before: seq<nat>, record: Record)
    ensures var out, after := FilterOne(p, H, before, record), before + [record.signal];
            && EraseEpochs(out) == EraseEpochs([record])
            && EpochSignals(out) == if record.event.RegionEntry? && Marked(p, H, after)
                                    then [EpochsSoFar(p, H, after)] else []
  {
    hide Marked, EpochsSoFar;
    var out := FilterOne(p, H, before, record);
    EraseSingle(record);
    if |out| == 2 {
      EraseSingle(out[1]);
      EraseConcat([out[0]], [out[1]]);
      assert out == [out[0]] + [out[1]];
    } else if |out| == 1 {
      assert out == [record];
    }
  }

  /** Apart from epochs the filter is transparent: nothing is lost, added or reordered. */
  lemma {:induction false} OnlyEpochsChange(p: Params, H: nat, before: seq<nat>, input: seq<Record>)
    ensures EraseEpochs(FilterAll(p, H, before, input)) == EraseEpochs(input)
  {
    hide EraseEpochs, FilterOne, EntryHashes;
    if input != [] {
      var init, last := input[..|input| - 1], input[|input| - 1];
      OnlyEpochsChange(p, H, before, init);
      EraseOne(p, H, FilterAll(p, H, before, init), before + EntryHashes(init), init, last);
      assert input == init + [last];
    }
  }

  lemma EraseOne(p: Params, H: nat, out: seq<Record>, before: seq<nat>, init: seq<Record>, last: Record)
    requires EraseEpochs(out) == EraseEpochs(init)
    ensures EraseEpochs(out + FilterOne(p, H, before, last)) == EraseEpochs(init + [last])
  {
    hide EraseEpochs, FilterOne;
    OneOutput(p, H, before, last);
    EraseConcat(out, FilterOne(p, H, before, last));
    EraseConcat(init, [last]);
  }

  /** The signals are 1, 2, 3 up to `k`. */
  ghost predicate CountsTo(signals: seq<nat>, k: nat) {
    |signals| == k && forall i :: 0 <= i < k ==> signals[i] == i + 1
  }

  /** The emitted epochs are numbered 1, 2, 3 and so on, whatever the application's own epochs say. */
  lemma {:induction false} EpochsAreNumbered(p: Params, H: nat, input: seq<Record>)
    ensures CountsTo(EpochSignals(FilterAll(p, H, [], input)), EpochsSoFar(p, H, EntryHashes(input)))
  {
    if input != [] {
      var init, last := input[..|input| - 1], input[|input| - 1];
      EpochsAreNumbered(p, H, init);
      assert [] + EntryHashes(init) == EntryHashes(init);
      NumberOne(p, H, FilterAll(p, H, [], init), EntryHashes(init), last);
    }
  }

  lemma NumberOne(p: Params, H: nat, out: seq<Record>, before: seq<nat>, last: Record)
    requires CountsTo(EpochSignals(out), EpochsSoFar(p, H, before))
    ensures CountsTo(EpochSignals(out + FilterOne(p, H, before, last)),
                     EpochsSoFar(p, H, before + if last.event.RegionEntry? then [last.signal] else []))
  {
    OneOutput(p, H, before, last);
    EraseConcat(out, FilterOne(p, H, before, last));
    CountStep(p, H, before, last.signal);
    hide EpochSignals, FilterOne, EpochsSoFar, Marked;
    if !last.event.RegionEntry? {
      assert before + [] == before;
    }
  }

  /** The record at `i`, if it is an epoch, stands directly behind a region entry of the same time and process. */
  predicate BehindEntry(out: seq<Record>, i: nat)
    requires i < |out|
  {
    out[i].event.EpochCount? ==>
      && i > 0 && out[i - 1].event.RegionEntry?
      && out[i].time == out[i - 1].time && out[i].process == out[i - 1].process
  }

  /** The record at `i`, if it is a region entry, has an epoch behind it exactly when it is marked. */
  ghost predicate EpochIfMarked(p: Params, H: nat, before: seq<nat>, out: seq<Record>, i: nat)
    requires i < |out|
  {
    out[i].event.RegionEntry? ==>
      (i + 1 < |out| && out[i + 1].event.EpochCount? <==> Marked(p, H, before + EntryHashes(out[..i + 1])))
  }

  ghost predicate EpochsStand(p: Params, H: nat, before: seq<nat>, out: seq<Record>) {
    forall i :: 0 <= i < |out| ==> BehindEntry(out, i) && EpochIfMarked(p, H, before, out, i)
  }

  /** Epochs stand directly behind the region entries that cause them, and behind each of those there is one. */
  lemma {:induction false} EpochsFollowEntries(p: Params, H: nat, before: seq<nat>, input: seq<Record>)
    ensures var out := FilterAll(p, H, before, input);
            EpochsStand(p, H, before, out) && EntryHashes(out) == EntryHashes(input)
  {
    hide Marked, FilterOne, EpochsStand, EntryHashes;
    if input == [] {
      NoneStand(p, H, before);
    } else {
      var init, last := input[..|input| - 1], input[|input| - 1];
      EpochsFollowEntries(p, H, before, init);
      EntryHashesPush(init, last);
      EntryHashesPush(FilterAll(p, H, before, init), last);
      assert input == init + [last];
      OneMoreStands(p, H, before, FilterAll(p, H, before, init), last);
    }
  }

  lemma NoneStand(p: Params, H: nat, before: seq<nat>)
    ensures EpochsStand(p, H, before, [])
  {
  }

  lemma OneMoreStands(p: Params, H: nat, before: seq<nat>, out: seq<Record>, last: Record)
    requires EpochsStand(p, H, before, out)
    ensures var more := out + FilterOne(p, H, before + EntryHashes(out), last);
            EpochsStand(p, H, before, more) && EntryHashes(more) == EntryHashes(out + [last])
  {
    var g := FilterOne(p, H, before + EntryHashes(out), last);
    var more := out + g;
    EntryHashesPush(out, last);
    OneAnswer(p, H, before, EntryHashes(out), last);
    hide Marked, EntryHashes, FilterOne;
    forall i | 0 <= i < |more| ensures BehindEntry(more, i) && EpochIfMarked(p, H, before, more, i) {
      if i < |out| {
        assert BehindEntry(out, i) && EpochIfMarked(p, H, before, out, i);
        assert more[..i + 1] == out[..i + 1];
      } else if i == |out| {
        assert more[..i + 1] == out + [last];
      }
    }
    if |g| == 2 {
      assert more == out + [g[0]] + [g[1]];
      EntryHashesPush(out + [last], g[1]);
    } else if |g| == 1 {
      assert more == out + [last];
    } else {
      assert more == out;
    }
  }

  /** The answer to one record: itself first, then at most one epoch. */
  lemma OneAnswer(p: Params, H: nat, before: seq<nat>, entries: seq<nat>, record: Record)
    ensures var g := FilterOne(p, H, before + entries, record);
            && (if record.event.EpochCount? then g == [] else 1 <= |g| <= 2 && g[0] == record)
            && (|g| == 2 <==> record.event.RegionEntry? && Marked(p, H, before + (entries + [record.signal])))
            && (|g| == 2 ==> g[1].event.EpochCount? && g[1].time == record.time && g[1].process == record.process)
  {
    assert before + entries + [record.signal] == before + (entries + [record.signal]);
    hide Marked, EpochsSoFar;
  }

  lemma CountStep(p: Params, H: nat, before: seq<nat>, hash: nat)
    ensures EpochsSoFar(p, H, before + [hash])
         == EpochsSoFar(p, H, before) + if Marked(p, H, before + [hash]) then 1 else 0
  {
    hide Marked;
    assert (before + [hash])[..|before|] == before;
  }

  lemma MachineStep(p: Params, H: nat, before: seq<nat>, hash: nat)
    ensures (Machine(p, H, before + [hash]), Marked(p, H, before + [hash]))
         == Step(p, Machine(p, H, before),
                 Reading(D.PeriodOf(before + [hash], H), D.ScoreOf(before + [hash], H)), |before| + 1)
  {
    var after := before + [hash];
    var r := Reading(D.PeriodOf(after, H), D.ScoreOf(after, H));
    assert after[..|after| - 1] == before;
    var rs := Readings(before, H);
    assert Readings(after, H) == rs + [r];
    assert (rs + [r])[..|rs|] == rs;
  }
}
