/** What one update of the sampler does for one process: dump, filter and check. */
module ProcessRecords {
  import opened Common
  import opened Records
  import L = RecordLogModel
  import M = EpochStateMachine
  import opened RecordLog
  import opened RecordLogRuns
  import opened RecordLogStreams
  import opened EpochRecordFilter
  import opened RecordValidation
  import opened MergedLogs

  /** A filter without any history throws at a region entry. */
  predicate CanFilter(H: nat, records: seq<Record>) {
    H > 0 || forall r :: r in records ==> r.event != RegionEntry
  }

  /** The records of one process as they enter the merged buffer. */
  ghost function Passed(f: EditDistEpochRecordFilter, isFiltered: bool, input: seq<Record>,
                        records: seq<Record>): seq<Record>
    reads f, f.edpd
  {
    if isFiltered then FilterAll(f.params, f.edpd.historySize, EntryHashes(input), records) else records
  }

  /** Takes a process's pending records through its filter and its check, which persist from update to update. */
  method Collect(log: ApplicationRecordLog, filter: EditDistEpochRecordFilter, valid: ValidateRecord, isFiltered: bool)
    returns (r: Result<Process>)
    requires log.Valid() && filter.Valid()
    modifies log.layout`numRecord, log.layout`numRegion, valid
    modifies filter, filter.edpd, filter.edpd.history, filter.edpd.history.buffer, filter.edpd.table
    ensures log.Valid() && log.State() == L.Dump(old(log.State()))
    ensures filter.Valid() && filter.edpd.history.buffer == old(filter.edpd.history.buffer)
    ensures r.Success? <==>
              && (isFiltered ==> CanFilter(filter.edpd.historySize, old(log.State()).records))
              && AllAccepted(old(valid.State()),
                             Passed(filter, isFiltered, old(filter.input), old(log.State()).records))
    ensures r.Success? ==>
              && r.value == Process(Passed(filter, isFiltered, old(filter.input), old(log.State()).records),
                                    old(log.State()).regions)
              && Indexed(r.value)
              && filter.input == old(filter.input) + (if isFiltered then old(log.State()).records else [])
              && AllAccepted(old(valid.State()), r.value.records)
              && valid.State() == CheckedBy(old(valid.State()), r.value.records)
  {
    hide L.WellFormed, L.SignalsCoverRegions, FilterOne, FilterAll, EntryHashes, CheckedBy, AllAccepted;
    ghost var before := filter.input;
    var records, shortRegions := log.DumpAll();
    ghost var dump := Process(records, shortRegions);
    var passed;
    if isFiltered {
      var filtered := FilterRecords(filter, valid, records);
      if filtered.Failure? {
        return Failure(filtered.error);
      }
      passed := filtered.value;
      FilteredIsIndexed(filter.params, filter.edpd.historySize, EntryHashes(before), dump);
    } else {
      var o := CheckRecords(valid, records);
      if o.Fail? {
        return Failure(o.error);
      }
      passed := records;
    }
    return Success(Process(passed, shortRegions));
  }

  /** Filters the records of one dump and checks what comes out. */
  method FilterRecords(filter: EditDistEpochRecordFilter, valid: ValidateRecord, records: seq<Record>)
    returns (r: Result<seq<Record>>)
    requires filter.Valid()
    modifies filter, filter.edpd, filter.edpd.history, filter.edpd.history.buffer, filter.edpd.table, valid
    ensures filter.Valid() && filter.edpd.history.buffer == old(filter.edpd.history.buffer)
    ensures r.Success? <==>
              && CanFilter(filter.edpd.historySize, records)
              && AllAccepted(old(valid.State()),
                             FilterAll(filter.params, filter.edpd.historySize, EntryHashes(old(filter.input)), records))
    ensures r.Success? ==>
              && filter.input == old(filter.input) + records
              && r.value == FilterAll(filter.params, filter.edpd.historySize, EntryHashes(old(filter.input)), records)
              && AllAccepted(old(valid.State()), r.value) && valid.State() == CheckedBy(old(valid.State()), r.value)
  {
    hide FilterOne, FilterAll, EntryHashes, CheckedBy, AllAccepted, EditDistEpochRecordFilter.Valid;
    var passed := [];
    NothingChecked(valid.State());
    NothingFiltered(filter.params, filter.edpd.historySize, EntryHashes(filter.input));
    for k := 0 to |records|
      invariant filter.Valid() && filter.input == old(filter.input) + records[..k]
      invariant filter.edpd.history.buffer == old(filter.edpd.history.buffer)
      invariant CanFilter(filter.edpd.historySize, records[..k])
      invariant passed
             == FilterAll(filter.params, filter.edpd.historySize, EntryHashes(old(filter.input)), records[..k])
      invariant AllAccepted(old(valid.State()), passed) && valid.State() == CheckedBy(old(valid.State()), passed)
    {
      FilterNext(filter.params, filter.edpd.historySize, old(filter.input), records, k);
      var out := filter.Filter(records[k]);
      if out.Failure? {
        return Failure(out.error);
      }
      CheckInParts(old(valid.State()), passed, out.value);
      var o := CheckRecords(valid, out.value);
      if o.Fail? {
        PartRefused(filter.params, filter.edpd.historySize, old(valid.State()), old(filter.input), records, k + 1);
        return Failure(o.error);
      }
      passed := passed + out.value;
      assert records[..k + 1] == records[..k] + [records[k]];
    }
    assert records[..|records|] == records;
    return Success(passed);
  }

  /** Checks records in order, up to the first that is refused. */
  method CheckRecords(valid: ValidateRecord, records: seq<Record>) returns (o: Outcome)
    modifies valid
    ensures o.Pass? <==> AllAccepted(old(valid.State()), records)
    ensures o.Pass? ==> valid.State() == CheckedBy(old(valid.State()), records)
  {
    hide Accepts, Next;
    for k := 0 to |records|
      invariant AllAccepted(old(valid.State()), records[..k])
      invariant valid.State() == CheckedBy(old(valid.State()), records[..k])
    {
      CheckNext(old(valid.State()), records, k);
      o := valid.Check(records[k]);
      if o.Fail? {
        RefusedStays(old(valid.State()), records, k + 1);
        return;
      }
    }
    assert records[..|records|] == records;
    return Pass;
  }

  lemma CheckNext(v: Checker, records: seq<Record>, k: nat)
    requires k < |records|
    ensures CheckedBy(v, records[..k + 1]) == Next(CheckedBy(v, records[..k]), records[k])
    ensures AllAccepted(v, records[..k + 1]) <==>
              AllAccepted(v, records[..k]) && Accepts(CheckedBy(v, records[..k]), records[k])
  {
    hide Accepts, Next;
    assert records[..k + 1][..k] == records[..k];
  }

  lemma RefusedStays(v: Checker, records: seq<Record>, k: nat)
    requires k <= |records| && !AllAccepted(v, records[..k])
    ensures !AllAccepted(v, records)
  {
    CheckInParts(v, records[..k], records[k..]);
    assert records[..k] + records[k..] == records;
  }

  /** When what a part of the records becomes is refused, then so is what all of them become. */
  lemma PartRefused(p: M.Params, H: nat, v: Checker, input: seq<Record>, records: seq<Record>, k: nat)
    requires k <= |records| && !AllAccepted(v, FilterAll(p, H, EntryHashes(input), records[..k]))
    ensures !AllAccepted(v, FilterAll(p, H, EntryHashes(input), records))
  {
    hide FilterAll, EntryHashes, AllAccepted, CheckedBy;
    var before := EntryHashes(input);
    FilterInParts(p, H, before, records[..k], records[k..]);
    assert records[..k] + records[k..] == records;
    CheckInParts(v, FilterAll(p, H, before, records[..k]),
                 FilterAll(p, H, before + EntryHashes(records[..k]), records[k..]));
  }

  lemma FilterNext(p: M.Params, H: nat, input: seq<Record>, records: seq<Record>, k: nat)
    requires k < |records|
    ensures FilterAll(p, H, EntryHashes(input), records[..k + 1])
         == FilterAll(p, H, EntryHashes(input), records[..k])
           + FilterOne(p, H, EntryHashes(input + records[..k]), records[k])
    ensures input + records[..k + 1] == input + records[..k] + [records[k]]
  {
    hide FilterOne;
    FilterInParts(p, H, [], input, records[..k]);
    assert records[..k + 1][..k] == records[..k];
  }

  lemma NothingFiltered(p: M.Params, H: nat, before: seq<nat>)
    ensures FilterAll(p, H, before, []) == []
  {
  }

  lemma NothingChecked(v: Checker)
    ensures AllAccepted(v, []) && CheckedBy(v, []) == v
  {
  }

  // ----- one process in the sampler

  // What the sampler's objects of one process hold: its log, what its filter has seen, and its check.
  datatype View = View(log: L.Log, input: seq<Record>, check: Checker)

  // m_process_s: what the sampler keeps of one process.
  class ProcessState {
    const recordLog: ApplicationRecordLog
    const filter: EditDistEpochRecordFilter
    const valid: ValidateRecord

    ghost predicate Valid()
      reads recordLog, recordLog.layout, recordLog.layout.recordTable, recordLog.layout.regionTable
      reads filter, filter.edpd, filter.edpd.history, filter.edpd.history.buffer, filter.edpd.table
    {
      recordLog.Valid() && filter.Valid()
    }

    ghost function Repr(): set<object>
      reads filter.edpd.history
    {
      {recordLog, recordLog.layout, recordLog.layout.recordTable, recordLog.layout.regionTable, valid,
       filter, filter.edpd, filter.edpd.history, filter.edpd.history.buffer, filter.edpd.table}
    }

    ghost function Now(): View
      requires Valid()
      reads recordLog, recordLog.layout, recordLog.layout.recordTable, recordLog.layout.regionTable, valid
      reads filter, filter.edpd, filter.edpd.history, filter.edpd.history.buffer, filter.edpd.table
    {
      View(recordLog.State(), filter.input, valid.State())
    }

    /** `repr` is what this process is made of. */
    ghost predicate Owns(repr: set<object>)
      reads repr
    {
      filter.edpd.history in repr && Repr() == repr && Valid()
    }

    ghost predicate Holds(repr: set<object>, v: View)
      reads repr
    {
      Owns(repr) && Now() == v
    }

    constructor (log: ApplicationRecordLog, recordFilter: EditDistEpochRecordFilter, check: ValidateRecord)
      requires log.Valid() && recordFilter.Valid()
      ensures Valid() && recordLog == log && filter == recordFilter && valid == check
      ensures Now() == View(log.State(), recordFilter.input, check.State())
    {
      recordLog, filter, valid := log, recordFilter, check;
    }

    /** What one update takes from this process. */
    ghost function Pending(v: View, isFiltered: bool): Process {
      Process(if isFiltered then FilterAll(filter.params, filter.edpd.historySize, EntryHashes(v.input), v.log.records)
              else v.log.records, v.log.regions)
    }

    /** Whether it takes that without an exception. */
    ghost predicate Accepted(v: View, isFiltered: bool) {
      && (isFiltered ==> CanFilter(filter.edpd.historySize, v.log.records))
      && AllAccepted(v.check, Pending(v, isFiltered).records)
    }

    ghost function Taken(v: View, isFiltered: bool): View {
      View(L.Dump(v.log), v.input + (if isFiltered then v.log.records else []),
           CheckedBy(v.check, Pending(v, isFiltered).records))
    }

    method Take(isFiltered: bool, ghost repr: set<object>, ghost v: View) returns (r: Result<Process>)
      requires Holds(repr, v)
      modifies repr
      ensures Owns(repr)
      ensures r.Success? <==> Accepted(v, isFiltered)
      ensures r.Success? ==> r.value == Pending(v, isFiltered) && Indexed(r.value) && Now() == Taken(v, isFiltered)
    {
      hide FilterAll, AllAccepted, CheckedBy, EntryHashes, Indexed;
      r := Collect(recordLog, filter, valid, isFiltered);
    }

    /** All that the process has delivered so far went through this filter and this check. */
    ghost predicate InStep(w: L.Writer, ops: seq<L.Op>, isFiltered: bool, v: View) {
      var sent := Delivered(Dumps(w, ops));
      && v.log == LogAfter(w, ops)
      && v.input == (if isFiltered then sent else [])
      && v.check == CheckedBy(FRESH, if isFiltered then FilterAll(filter.params, filter.edpd.historySize, [], sent)
                                    else sent)
    }

    lemma StartsInStep(w: L.Writer, isFiltered: bool)
      ensures InStep(w, [], isFiltered, View(L.EMPTY, [], FRESH))
    {
    }

    /** The application's own calls change the log alone. */
    lemma CallKeepsStep(w: L.Writer, ops: seq<L.Op>, isFiltered: bool, v: View, op: L.Op)
      requires InStep(w, ops, isFiltered, v) && !op.DumpOp?
      ensures InStep(w, ops + [op], isFiltered, v.(log := L.Step(w, v.log, op)))
    {
      assert (ops + [op])[..|ops|] == ops;
      assert Dumps(w, ops + [op]) == Dumps(w, ops);
    }

    /** However many updates have gone before, the next one takes all that a disciplined application has pending. */
    lemma DisciplinedIsTaken(w: L.Writer, ops: seq<L.Op>, start: int, isFiltered: bool, v: View)
      requires OneAtATime(ops) && Disciplined(ops, start)
      requires InStep(w, ops, isFiltered, v) && (isFiltered ==> filter.edpd.historySize > 0)
      ensures Accepted(v, isFiltered) && InStep(w, ops + [L.DumpOp], isFiltered, Taken(v, isFiltered))
    {
      var H, sent, next := filter.edpd.historySize, Delivered(Dumps(w, ops)), ops + [L.DumpOp];
      DumpDelivers(w, ops);
      DisciplinedDump(ops, start);
      assert EntryHashes([]) == [];
      hide LogAfter, Dumps, Delivered, OneAtATime, Disciplined, FilterAll, AllAccepted, CheckedBy;
      if isFiltered {
        FilteredIsAccepted(w, next, start, filter.params, H);
        FilterInParts(filter.params, H, [], sent, v.log.records);
        assert [] + EntryHashes(sent) == EntryHashes(sent);
        CheckInParts(FRESH, FilterAll(filter.params, H, [], sent), Pending(v, isFiltered).records);
      } else {
        DeliveredIsAccepted(w, next, start);
        CheckInParts(FRESH, sent, v.log.records);
      }
    }

    /** What the sampler's objects of a new process hold after a run in which each dump is an update. */
    ghost function ViewAfter(w: L.Writer, ops: seq<L.Op>, isFiltered: bool): (v: View)
      ensures v.log == LogAfter(w, ops)
    {
      if ops == [] then View(L.EMPTY, [], FRESH)
      else
        var v, last := ViewAfter(w, ops[..|ops| - 1], isFiltered), ops[|ops| - 1];
        if last.DumpOp? then Taken(v, isFiltered) else v.(log := L.Step(w, v.log, last))
    }

    /** In every run of a disciplined application an update at any point, after any number of earlier ones, takes
        all that is pending, and all that was delivered before went through the filter and the check. */
    lemma {:induction false} EveryUpdateIsTaken(w: L.Writer, ops: seq<L.Op>, start: int, isFiltered: bool)
      requires OneAtATime(ops) && Disciplined(ops, start) && (isFiltered ==> filter.edpd.historySize > 0)
      ensures InStep(w, ops, isFiltered, ViewAfter(w, ops, isFiltered))
      ensures forall k :: 0 <= k <= |ops| ==> Accepted(ViewAfter(w, ops[..k], isFiltered), isFiltered)
    {
      hide InStep, Accepted, Taken;
      if ops == [] {
        StartsInStep(w, isFiltered);
      } else {
        var init, last := ops[..|ops| - 1], ops[|ops| - 1];
        EveryUpdateIsTaken(w, init, start, isFiltered);
        assert ops == init + [last];
        if last.DumpOp? {
          DisciplinedIsTaken(w, init, start, isFiltered, ViewAfter(w, init, isFiltered));
        } else {
          CallKeepsStep(w, init, isFiltered, ViewAfter(w, init, isFiltered), last);
        }
      }
      DisciplinedIsTaken(w, ops, start, isFiltered, ViewAfter(w, ops, isFiltered));
      forall k | 0 <= k <= |ops| ensures Accepted(ViewAfter(w, ops[..k], isFiltered), isFiltered) {
        if k < |ops| {
          assert ops[..|ops| - 1][..k] == ops[..k];
        } else {
          assert ops[..k] == ops;
        }
      }
    }
  }

  lemma DumpDelivers(w: L.Writer, ops: seq<L.Op>)
    ensures Delivered(Dumps(w, ops + [L.DumpOp])) == Delivered(Dumps(w, ops)) + LogAfter(w, ops).records
    ensures LogAfter(w, ops + [L.DumpOp]) == L.Dump(LogAfter(w, ops))
  {
    var s, dumps := LogAfter(w, ops), Dumps(w, ops);
    assert (ops + [L.DumpOp])[..|ops|] == ops;
    assert (dumps + [Dumped(s.records, s.regions)])[..|dumps|] == dumps;
  }

  lemma DisciplinedDump(ops: seq<L.Op>, start: int)
    requires OneAtATime(ops) && Disciplined(ops, start)
    ensures OneAtATime(ops + [L.DumpOp]) && Disciplined(ops + [L.DumpOp], start)
  {
    assert (ops + [L.DumpOp])[..|ops|] == ops;
  }
}
