/** The controller's side: one update takes the records of every process into one buffer. */
module ApplicationSampler {
  import opened Common
  import opened Records
  import opened RecordLogModel
  import opened MergedLogs
  import opened ProcessRecords

  /** Takes the pending records of one process; the others are not touched. */
  method TakeNext(procs: seq<ProcessState>, k: nat, isFiltered: bool,
                  ghost reprs: seq<set<object>>, ghost views: seq<View>) returns (r: Result<Process>)
    requires |procs| == |reprs| == |views| && k < |procs|
    requires forall i, j :: 0 <= i < j < |reprs| ==> reprs[i] !! reprs[j]
    requires forall i :: 0 <= i < |procs| ==> procs[i].Holds(reprs[i], Expected(procs, isFiltered, views, k)[i])
    modifies reprs[k]
    ensures forall i :: 0 <= i < |procs| ==> procs[i].Owns(reprs[i])
    ensures r.Success? <==> procs[k].Accepted(views[k], isFiltered)
    ensures r.Success? ==>
              forall i :: 0 <= i < |procs| ==> procs[i].Holds(reprs[i], Expected(procs, isFiltered, views, k + 1)[i])
    ensures r.Success? ==> r.value == procs[k].Pending(views[k], isFiltered) && Indexed(r.value)
  {
    hide Indexed, ProcessState.Valid, ProcessState.Repr, ProcessState.Pending, ProcessState.Accepted,
         ProcessState.Taken,
         ProcessState.Now;
    forall i | 0 <= i < |procs| && i != k ensures reprs[i] !! reprs[k] {
      assert if i < k then reprs[i] !! reprs[k] else reprs[k] !! reprs[i];
    }
    assert Expected(procs, isFiltered, views, k)[k] == views[k];
    r := procs[k].Take(isFiltered, reprs[k], views[k]);
  }

  /** What the processes hold when the first `k` of them have been taken. */
  ghost function Expected(procs: seq<ProcessState>, isFiltered: bool, views: seq<View>, k: nat): (e: seq<View>)
    requires |procs| == |views|
    ensures |e| == |views|
  {
    seq(|views|, i requires 0 <= i < |views| => if i < k then procs[i].Taken(views[i], isFiltered) else views[i])
  }

  /** What one update takes from each process. */
  ghost function Pending(procs: seq<ProcessState>, isFiltered: bool, views: seq<View>): (taken: seq<Process>)
    requires |procs| == |views|
    ensures |taken| == |views|
  {
    seq(|views|, i requires 0 <= i < |views| => procs[i].Pending(views[i], isFiltered))
  }

  class ApplicationSampler {
    const isFiltered: bool
    var recordBuffer: seq<Record>
    var shortRegionBuffer: seq<ShortRegionInfo>

    constructor (filtered: bool)
      ensures isFiltered == filtered && recordBuffer == [] && shortRegionBuffer == []
    {
      isFiltered, recordBuffer, shortRegionBuffer := filtered, [], [];
    }

    /** Takes the pending records of all processes in order, and merges them into the buffers. It fails exactly
        when some process has pending records that its filter or its check refuses. */
    method Update(procs: seq<ProcessState>, ghost reprs: seq<set<object>>, ghost views: seq<View>) returns (o: Outcome)
      requires |procs| == |reprs| == |views|
      requires forall i, j :: 0 <= i < j < |reprs| ==> reprs[i] !! reprs[j]
      requires forall i :: 0 <= i < |procs| ==> procs[i].Holds(reprs[i], views[i])
      modifies this, set i, x | 0 <= i < |reprs| && x in reprs[i] :: x
      ensures forall i :: 0 <= i < |procs| ==> procs[i].Owns(reprs[i])
      ensures o.Pass? <==> forall i :: 0 <= i < |procs| ==> procs[i].Accepted(views[i], isFiltered)
      ensures o.Pass? ==> forall i :: 0 <= i < |procs| ==>
                procs[i].Holds(reprs[i], procs[i].Taken(views[i], isFiltered))
      ensures o.Pass? ==> recordBuffer == MergedRecords(Pending(procs, isFiltered, views))
      ensures o.Pass? ==> shortRegionBuffer == MergedRegions(Pending(procs, isFiltered, views))
      ensures o.Pass? ==> SignalsCoverRegions(recordBuffer, |shortRegionBuffer|)
    {
      hide Indexed, MergedRecords, MergedRegions, SignalsCoverRegions, ProcessState.Owns, ProcessState.Holds,
           ProcessState.Accepted, ProcessState.Pending, ProcessState.Taken;
      NotAmong(procs, reprs, views);
      recordBuffer := [];
      shortRegionBuffer := [];
      ghost var taken := Pending(procs, isFiltered, views);
      NothingMerged();
      for k := 0 to |procs|
        invariant forall i :: 0 <= i < |procs| ==> procs[i].Owns(reprs[i])
        invariant forall i :: 0 <= i < |procs| ==> procs[i].Holds(reprs[i], Expected(procs, isFiltered, views, k)[i])
        invariant forall i :: 0 <= i < k ==> procs[i].Accepted(views[i], isFiltered) && Indexed(taken[i])
        invariant recordBuffer == MergedRecords(taken[..k]) && shortRegionBuffer == MergedRegions(taken[..k])
      {
        var r := TakeNext(procs, k, isFiltered, reprs, views);
        if r.Failure? {
          return Fail(r.error);
        }
        Append(taken, k, r.value.records, r.value.shortRegions);
      }
      assert taken[..|procs|] == taken;
      MergedIsIndexed(taken);
      return Pass;
    }

    lemma NotAmong(procs: seq<ProcessState>, reprs: seq<set<object>>, views: seq<View>)
      requires |procs| == |reprs| == |views| && forall i :: 0 <= i < |procs| ==> procs[i].Holds(reprs[i], views[i])
      ensures forall i :: 0 <= i < |procs| ==> procs[i].Owns(reprs[i]) && this !in reprs[i]
    {
      hide ProcessState.Valid, ProcessState.Now;
    }

    /** Puts the records of process `k` behind those of the earlier ones. */
    method Append(ghost taken: seq<Process>, ghost k: nat, records: seq<Record>, shortRegions: seq<ShortRegionInfo>)
      requires k < |taken| && taken[k] == Process(records, shortRegions) && Indexed(taken[k])
      requires recordBuffer == MergedRecords(taken[..k]) && shortRegionBuffer == MergedRegions(taken[..k])
      modifies this
      ensures recordBuffer == MergedRecords(taken[..k + 1]) && shortRegionBuffer == MergedRegions(taken[..k + 1])
    {
      MergedStep(taken, k);
      hide MergedRecords, MergedRegions, SignalsCoverRegions;
      var recordOffset := |recordBuffer|;
      recordBuffer := recordBuffer + records;
      Reindex(MergedRecords(taken[..k]), recordOffset, records, shortRegions);
      shortRegionBuffer := shortRegionBuffer + shortRegions;
    }

    /** Moves the signals of the short region records from `offset` on, and stops after the last of them. */
    method Reindex(ghost earlier: seq<Record>, offset: nat, records: seq<Record>, shortRegions: seq<ShortRegionInfo>)
      requires recordBuffer == earlier + records && offset == |earlier|
      requires SignalsCoverRegions(records, |shortRegions|)
      modifies this`recordBuffer
      ensures recordBuffer == earlier + Shift(records, |shortRegionBuffer|)
    {
      hide CountShort, SignalsCoverRegions, Buffer, Shift;
      var base := |shortRegionBuffer|;
      ReindexStart(earlier, records, |shortRegions|, base);
      var remain, i := |shortRegions|, 0;
      while remain > 0 && offset + i < |recordBuffer|
        invariant 0 <= i <= |records| && |recordBuffer| == offset + |records|
        invariant 0 <= remain == CountShort(records) - CountShort(records[..i])
        invariant recordBuffer == Buffer(earlier, records, base, i)
      {
        CountNext(records, i);
        ReindexNext(earlier, records, base, i);
        var r := recordBuffer[offset + i];
        if r.event == ShortRegion {
          recordBuffer := recordBuffer[offset + i := r.(signal := r.signal + base)];
          remain := remain - 1;
        }
        i := i + 1;
      }
      ReindexEnd(earlier, records, base, i);
    }

    method GetShortRegion(eventSignal: nat) returns (r: Result<ShortRegionInfo>)
      ensures r == if eventSignal < |shortRegionBuffer| then Success(shortRegionBuffer[eventSignal])
                   else Failure(InvalidArgument)
    {
      if eventSignal >= |shortRegionBuffer| {
        return Failure(InvalidArgument);
      }
      return Success(shortRegionBuffer[eventSignal]);
    }
  }

  lemma NothingMerged()
    ensures MergedRecords([]) == [] && MergedRegions([]) == []
  {
  }
}
