/** The record log object: a table shared with the reader and the writer's private fields. */
module RecordLog {
  import opened Common
  import opened Records
  import opened RecordLogModel

  // m_layout_s
  class Layout {
    var numRecord: nat
    const recordTable: array<Record>
    var numRegion: nat
    const regionTable: array<ShortRegionInfo>

    ghost predicate Valid()
      reads this
    {
      && recordTable.Length == MAX_RECORD && regionTable.Length == MAX_REGION
      && numRecord <= MAX_RECORD && numRegion <= MAX_REGION
    }

    constructor ()
      ensures Valid() && numRecord == 0 && numRegion == 0
      ensures fresh(recordTable) && fresh(regionTable)
    {
      recordTable := new Record[MAX_RECORD](_ => Record(0, 0, RegionEntry, 0));
      regionTable := new ShortRegionInfo[MAX_REGION](_ => ShortRegionInfo(0, 0, 0));
      numRecord, numRegion := 0, 0;
    }
  }

  class ApplicationRecordLog {
    const layout: Layout
    var process: int
    var timeZero: int
    var isSetup: bool
    var enterMap: map<nat, RegionEnter>
    var epochCount: nat
    var enteredRegionHash: nat

    ghost predicate Shape()
      reads this, layout, layout.recordTable, layout.regionTable
    {
      layout.Valid()
    }

    /** The log's contents and the writer's fields. */
    ghost function State(): Log
      reads this, layout, layout.recordTable, layout.regionTable
      requires Shape()
    {
      Log(layout.recordTable[..layout.numRecord], layout.regionTable[..layout.numRegion],
          enterMap, enteredRegionHash, epochCount)
    }

    ghost predicate Valid()
      reads this, layout, layout.recordTable, layout.regionTable
    {
      Shape() && WellFormed(State())
    }

    /** Set up, or about to be set up by the next call. */
    predicate CanLog()
      reads this
    {
      isSetup || (process != -1 && timeZero != 0)
    }

    constructor (shmem: Layout)
      requires shmem.Valid() && shmem.numRecord == 0 && shmem.numRegion == 0
      ensures Valid() && layout == shmem && State() == EMPTY && !isSetup
    {
      layout := shmem;
      process, timeZero, isSetup := -1, 0, false;
      enterMap, epochCount, enteredRegionHash := map[], 0, HASH_INVALID;
    }

    method SetProcess(p: int) returns (o: Outcome)
      requires Valid()
      modifies this`process
      ensures Valid() && State() == old(State())
      ensures o == (if isSetup then Fail(RuntimeError) else Pass) && process == if isSetup then old(process) else p
    {
      if isSetup {
        return Fail(RuntimeError);
      }
      process := p;
      return Pass;
    }

    method SetTimeZero(time: int) returns (o: Outcome)
      requires Valid()
      modifies this`timeZero
      ensures Valid() && State() == old(State())
      ensures o == (if isSetup then Fail(RuntimeError) else Pass) && timeZero == if isSetup then old(timeZero) else time
    {
      if isSetup {
        return Fail(RuntimeError);
      }
      timeZero := time;
      return Pass;
    }

    method CheckSetup() returns (o: Outcome)
      requires Shape()
      modifies this`isSetup
      ensures o == (if old(CanLog()) then Pass else Fail(RuntimeError)) && isSetup == old(CanLog())
      ensures State() == old(State())
    {
      if isSetup {
        return Pass;
      }
      if process == -1 || timeZero == 0 {
        return Fail(RuntimeError);
      }
      isSetup := true;
      return Pass;
    }

    /** The writer notices that the reader has taken the records. */
    method CheckReset()
      requires Shape()
      modifies this`enterMap
      ensures State() == Reset(old(State()))
    {
      if layout.numRecord == 0 {
        if enteredRegionHash in enterMap {
          var entryInfo := enterMap[enteredRegionHash];
          if entryInfo.isShort {
            enterMap := map[enteredRegionHash := entryInfo.(recordIdx := -1, regionIdx := -1)];
          } else {
            enterMap := map[];
          }
        } else {
          enterMap := map[];
        }
      }
    }

    method AppendRecord(record: Record) returns (o: Outcome)
      requires Shape()
      modifies layout`numRecord, layout.recordTable
      ensures Shape()
      ensures o == if |old(State()).records| < MAX_RECORD then Pass else Fail(RuntimeError)
      ensures State() == if o.Pass? then old(State()).(records := old(State()).records + [record]) else old(State())
    {
      if layout.numRecord >= MAX_RECORD {
        return Fail(RuntimeError);
      }
      layout.recordTable[layout.numRecord] := record;
      layout.numRecord := layout.numRecord + 1;
      assert layout.recordTable[..layout.numRecord] == old(layout.recordTable[..layout.numRecord]) + [record];
      return Pass;
    }

    function Stamper(): Writer
      reads this
    {
      Writer(process, timeZero)
    }

    method Enter(hash: nat, time: int) returns (o: Outcome)
      requires Valid()
      modifies this`isSetup, this`enterMap, this`enteredRegionHash, layout`numRecord, layout.recordTable
      ensures var next := Step(Stamper(), old(State()), EnterOp(hash, time));
              && (o.Pass? <==> old(CanLog()) && |next.records| <= MAX_RECORD)
              && (o.Pass? ==> Valid() && State() == next)
      ensures !old(CanLog()) ==> Valid() && State() == old(State())
    {
      o := CheckSetup();
      if o.Fail? {
        return;
      }
      ResetIsLinked(State());
      EnterKeeps(Stamper(), State(), hash, time);
      hide Linked, WellFormed;
      CheckReset();
      if hash in enterMap {
        enterMap := enterMap[hash := enterMap[hash].(enterTime := time)];
      } else {
        enterMap := enterMap[hash := RegionEnter(layout.numRecord, -1, time, false)];
        o := AppendRecord(Stamp(Stamper(), time, RegionEntry, hash));
        if o.Fail? {
          return;
        }
      }
      enteredRegionHash := hash;
    }

    method Epoch(time: int) returns (o: Outcome)
      requires Valid()
      modifies this`isSetup, this`enterMap, this`epochCount, layout`numRecord, layout.recordTable
      ensures var next := Step(Stamper(), old(State()), EpochOp(time));
              && (o.Pass? <==> old(CanLog()) && |next.records| <= MAX_RECORD)
              && (o.Pass? ==> Valid() && State() == next)
      ensures !old(CanLog()) ==> Valid() && State() == old(State())
    {
      o := CheckSetup();
      if o.Fail? {
        return;
      }
      ResetIsLinked(State());
      StepKeeps(Stamper(), State(), EpochOp(time));
      hide Linked, WellFormed;
      CheckReset();
      epochCount := epochCount + 1;
      o := AppendRecord(Stamp(Stamper(), time, EpochCount, epochCount));
    }

    /** Hands everything to the reader; the writer's fields are left alone. */
    method DumpAll() returns (records: seq<Record>, shortRegions: seq<ShortRegionInfo>)
      requires Valid()
      modifies layout`numRecord, layout`numRegion
      ensures Valid() && State() == Step(Stamper(), old(State()), DumpOp)
      ensures records == old(State()).records && shortRegions == old(State()).regions
      ensures |shortRegions| <= |records| <= MAX_RECORD && SignalsCoverRegions(records, |shortRegions|)
    {
      SignalsAreABijection(State());
      CoverBound(State().records, |State().regions|);
      records := layout.recordTable[..layout.numRecord];
      shortRegions := layout.regionTable[..layout.numRegion];
      layout.numRecord := 0;
      layout.numRegion := 0;
    }

    method Exit(hash: nat, time: int) returns (o: Outcome)
      requires Valid()
      modifies this`isSetup, this`enterMap, this`enteredRegionHash, layout, layout.recordTable, layout.regionTable
      ensures var next := Step(Stamper(), old(State()), ExitOp(hash, time));
              && (o.Pass? <==> old(CanLog()) && |next.records| <= MAX_RECORD)
              && (o.Pass? ==> Valid() && State() == next)
      ensures !old(CanLog()) ==> Valid() && State() == old(State())
    {
      hide Linked, WellFormed, ExitShort;
      o := CheckSetup();
      if o.Fail? {
        return;
      }
      ResetIsLinked(State());
      ExitKeeps(Stamper(), State(), hash, time);
      RegionsFit(State());
      CheckReset();
      if hash !in enterMap {
        o := AppendRecord(Stamp(Stamper(), time, RegionExit, hash));
      } else {
        o := Absorb(hash, time);
      }
      if o.Pass? {
        enteredRegionHash := HASH_INVALID;
      }
    }

    /** The exit of a region that has, or now gets, a short region record. */
    method Absorb(hash: nat, time: int) returns (o: Outcome)
      requires Shape() && Linked(State()) && hash in enterMap && layout.numRegion < MAX_REGION
      modifies this`enterMap, layout, layout.recordTable, layout.regionTable
      ensures var next := ExitShort(Stamper(), old(State()), hash, time);
              && (o.Pass? <==> |next.records| <= MAX_RECORD)
              && (o.Pass? ==> Shape() && State().(entered := HASH_INVALID) == next)
    {
      hide Linked, ExitShort, Shortened, Relist, Shorten, Complete;
      ghost var before := State();
      AbsorbStages(Stamper(), before, hash, time);
      o := RelistRegion(hash, time);
      if o.Pass? {
        ShortenRegion(hash);
        CompleteRegion(enterMap[hash].regionIdx, time - enterMap[hash].enterTime);
      }
    }

    method RelistRegion(hash: nat, time: int) returns (o: Outcome)
      requires Shape() && hash in enterMap
      modifies this`enterMap, layout`numRecord, layout.recordTable
      ensures var next := Relist(Stamper(), old(State()), hash, time);
              && (o.Pass? <==> |next.records| <= MAX_RECORD)
              && (o.Pass? ==> Shape() && State() == next)
    {
      o := Pass;
      var info := enterMap[hash];
      if info.recordIdx == -1 {
        enterMap := enterMap[hash := info.(recordIdx := layout.numRecord, isShort := true)];
        o := AppendRecord(Stamp(Stamper(), time, RegionEntry, hash));
      } else {
        enterMap := enterMap[hash := info.(isShort := true)];
      }
    }

    method ShortenRegion(hash: nat)
      requires Shape() && hash in enterMap && 0 <= enterMap[hash].recordIdx < layout.numRecord
      requires layout.numRegion < MAX_REGION
      modifies this`enterMap, layout`numRegion, layout.recordTable, layout.regionTable
      ensures Shape() && State() == Shorten(old(State()), hash)
    {
      var info := enterMap[hash];
      if info.regionIdx == -1 {
        ghost var records, regions := State().records, State().regions;
        var regionIdx := layout.numRegion;
        enterMap := enterMap[hash := info.(regionIdx := regionIdx)];
        layout.numRegion := layout.numRegion + 1;
        layout.regionTable[regionIdx] := ShortRegionInfo(hash, 0, 0);
        var r := layout.recordTable[info.recordIdx].(event := ShortRegion, signal := regionIdx);
        layout.recordTable[info.recordIdx] := r;
        assert State().regions == regions + [ShortRegionInfo(hash, 0, 0)];
        assert State().records == records[info.recordIdx := r];
      }
    }

    method CompleteRegion(j: nat, duration: int)
      requires Shape() && j < layout.numRegion
      modifies layout.regionTable
      ensures Shape() && State() == Complete(old(State()), j, duration)
    {
      ghost var regions := State().regions;
      var region := layout.regionTable[j];
      var r := region.(numComplete := region.numComplete + 1, totalTime := region.totalTime + duration);
      layout.regionTable[j] := r;
      assert State().regions == regions[j := r];
    }
  }

  /** The three stages of an absorbed exit; only the first can add a record. */
  lemma AbsorbStages(w: Writer, s: Log, hash: nat, time: int)
    requires Linked(s) && hash in s.enterMap
    ensures var a := Relist(w, s, hash, time);
            && hash in a.enterMap && 0 <= a.enterMap[hash].recordIdx < |a.records| && a.regions == s.regions
            && var b := Shorten(a, hash);
               && hash in b.enterMap && 0 <= b.enterMap[hash].regionIdx < |b.regions|
               && var c := Complete(b, b.enterMap[hash].regionIdx, time - b.enterMap[hash].enterTime);
                  && c.(entered := HASH_INVALID) == ExitShort(w, s, hash, time)
                  && |c.records| == |a.records|
  {
    assert EntryLinked(s, hash);
    ShortenedIsLinked(w, s, hash, time);
    assert EntryLinked(Shortened(w, s, hash, time), hash);
    hide Linked, EntryLinked;
  }

  lemma RegionsFit(s: Log)
    requires WellFormed(s)
    ensures |s.regions| <= |s.records|
  {
    SignalsAreABijection(s);
    CoverBound(s.records, |s.regions|);
  }
}
