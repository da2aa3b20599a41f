/** One process's record log as a value: what is pending in the shared table, and the
    writer's private map, which it brings up to date only after the reader has cleared the table. */
module RecordLogModel {
  import opened Records

  const MAX_RECORD := 1024
  const MAX_REGION := MAX_RECORD + 1

  // m_region_enter_s; -1 stands for "not in the table"
  datatype RegionEnter = RegionEnter(recordIdx: int, regionIdx: int, enterTime: int, isShort: bool)

  datatype Log = Log(records: seq<Record>, regions: seq<ShortRegionInfo>,
                     enterMap: map<nat, RegionEnter>, entered: nat, epochCount: nat)

  datatype Op = EnterOp(hash: nat, time: int) | ExitOp(hash: nat, time: int) | EpochOp(time: int) | DumpOp

  // What set_process and set_time_zero have fixed.
  datatype Writer = Writer(process: int, timeZero: int)

  function Stamp(w: Writer, time: int, event: Event, signal: nat): Record {
    Record(time - w.timeZero, w.process, event, signal)
  }

  const EMPTY := Log([], [], map[], HASH_INVALID, 0)

  /** What each writer operation does first: forget what the reader has taken away. */
  function Reset(s: Log): Log {
    if s.records != [] then s
    else if s.entered in s.enterMap && s.enterMap[s.entered].isShort then
      s.(enterMap := map[s.entered := s.enterMap[s.entered].(recordIdx := -1, regionIdx := -1)])
    else s.(enterMap := map[])
  }

  function Enter(w: Writer, s0: Log, hash: nat, time: int): Log {
    var s := Reset(s0);
    if hash in s.enterMap then
      s.(enterMap := s.enterMap[hash := s.enterMap[hash].(enterTime := time)], entered := hash)
    else
      s.(enterMap := s.enterMap[hash := RegionEnter(|s.records|, -1, time, false)],
         records := s.records + [Stamp(w, time, RegionEntry, hash)],
         entered := hash)
  }

  /** A region without a record in the table gets one. */
  function Relist(w: Writer, s: Log, hash: nat, time: int): Log
    requires hash in s.enterMap
  {
    var e := s.enterMap[hash];
    if e.recordIdx == -1 then
      s.(enterMap := s.enterMap[hash := e.(recordIdx := |s.records|, isShort := true)],
         records := s.records + [Stamp(w, time, RegionEntry, hash)])
    else s.(enterMap := s.enterMap[hash := e.(isShort := true)])
  }

  /** A region's entry record becomes a short region record. */
  function Shorten(s: Log, hash: nat): Log
    requires hash in s.enterMap && 0 <= s.enterMap[hash].recordIdx < |s.records|
  {
    var e := s.enterMap[hash];
    if e.regionIdx == -1 then
      s.(enterMap := s.enterMap[hash := e.(regionIdx := |s.regions|)],
         regions := s.regions + [ShortRegionInfo(hash, 0, 0)],
         records := s.records[e.recordIdx := s.records[e.recordIdx].(event := ShortRegion, signal := |s.regions|)])
    else s
  }

  /** One more completion of the short region number `j`. */
  function Complete(s: Log, j: nat, duration: int): Log
    requires j < |s.regions|
  {
    var r := s.regions[j];
    s.(regions := s.regions[j := r.(numComplete := r.numComplete + 1, totalTime := r.totalTime + duration)])
  }

  /** The state in which a region of the map has its short region record. */
  function Shortened(w: Writer, s: Log, hash: nat, time: int): Log
    requires Linked(s) && hash in s.enterMap
  {
    assert EntryLinked(s, hash);
    Shorten(Relist(w, s, hash, time), hash)
  }

  /** A region that the reader has already seen entered. */
  function ExitPlain(w: Writer, s: Log, hash: nat, time: int): Log {
    s.(records := s.records + [Stamp(w, time, RegionExit, hash)], entered := HASH_INVALID)
  }

  /** A region entered since the last dump, or short already. */
  function ExitShort(w: Writer, s: Log, hash: nat, time: int): Log
    requires Linked(s) && hash in s.enterMap
  {
    var t := Shortened(w, s, hash, time);
    ShortenedIsLinked(w, s, hash, time);
    assert EntryLinked(t, hash);
    Complete(t, t.enterMap[hash].regionIdx, time - t.enterMap[hash].enterTime).(entered := HASH_INVALID)
  }

  function Exit(w: Writer, s0: Log, hash: nat, time: int): Log
    requires WellFormed(s0)
  {
    var s := Reset(s0);
    ResetIsLinked(s0);
    if hash in s.enterMap then ExitShort(w, s, hash, time) else ExitPlain(w, s, hash, time)
  }

  function Epoch(w: Writer, s0: Log, time: int): Log {
    var s := Reset(s0);
    s.(epochCount := s.epochCount + 1, records := s.records + [Stamp(w, time, EpochCount, s.epochCount + 1)])
  }

  function Dump(s: Log): Log {
    s.(records := [], regions := [])
  }

  function Step(w: Writer, s: Log, op: Op): Log
    requires WellFormed(s)
  {
    match op
    case EnterOp(hash, time) => Enter(w, s, hash, time)
    case ExitOp(hash, time) => Exit(w, s, hash, time)
    case EpochOp(time) => Epoch(w, s, time)
    case DumpOp => Dump(s)
  }

  // ----- how the map, the records and the regions refer to each other

  ghost predicate EntryLinked(s: Log, hash: nat)
    requires hash in s.enterMap
  {
    var e := s.enterMap[hash];
    && -1 <= e.recordIdx < |s.records| && -1 <= e.regionIdx < |s.regions|
    && (e.recordIdx == -1 ==> e.regionIdx == -1 && e.isShort)
    && (e.recordIdx >= 0 && e.regionIdx == -1 ==>
          !e.isShort && s.records[e.recordIdx].event == RegionEntry && s.records[e.recordIdx].signal == hash)
    && (e.regionIdx >= 0 ==>
          && e.isShort && s.records[e.recordIdx].event == ShortRegion && s.records[e.recordIdx].signal == e.regionIdx
          && s.regions[e.regionIdx].hash == hash)
  }

  ghost predicate RegionLinked(s: Log, j: nat)
    requires j < |s.regions|
  {
    s.regions[j].hash in s.enterMap && s.enterMap[s.regions[j].hash].regionIdx == j
  }

  ghost predicate RecordLinked(s: Log, i: nat)
    requires i < |s.records|
  {
    var r := s.records[i];
    && (r.event == RegionEntry ==>
          r.signal in s.enterMap && s.enterMap[r.signal].recordIdx == i && s.enterMap[r.signal].regionIdx == -1)
    && (r.event == ShortRegion ==>
          && r.signal < |s.regions| && s.regions[r.signal].hash in s.enterMap
          && s.enterMap[s.regions[r.signal].hash].recordIdx == i)
  }

  ghost predicate Linked(s: Log) {
    && (forall hash {:trigger EntryLinked(s, hash)} :: hash in s.enterMap ==> EntryLinked(s, hash))
    && (forall j {:trigger RegionLinked(s, j)} :: 0 <= j < |s.regions| ==> RegionLinked(s, j))
    && (forall i {:trigger RecordLinked(s, i)} :: 0 <= i < |s.records| ==> RecordLinked(s, i))
  }

  /** After a dump the map is out of date until the next writer operation. */
  ghost predicate WellFormed(s: Log) {
    if s.records == [] then s.regions == [] else Linked(s)
  }

  lemma ResetIsLinked(s: Log)
    requires WellFormed(s)
    ensures Linked(Reset(s))
    ensures Reset(s).records == s.records && Reset(s).regions == s.regions
  {
  }

  lemma EnterKeeps(w: Writer, s: Log, hash: nat, time: int)
    requires WellFormed(s)
    ensures WellFormed(Enter(w, s, hash, time))
  {
    ResetIsLinked(s);
    var a, b := Reset(s), Enter(w, s, hash, time);
    forall h | h in b.enterMap ensures EntryLinked(b, h) {
      if h in a.enterMap {
        assert EntryLinked(a, h);
      }
    }
    forall j | 0 <= j < |b.regions| ensures RegionLinked(b, j) {
      assert RegionLinked(a, j);
    }
    forall i | 0 <= i < |b.records| ensures RecordLinked(b, i) {
      if i < |a.records| {
        assert RecordLinked(a, i);
      }
    }
  }

  lemma ShortenedIsLinked(w: Writer, s: Log, hash: nat, time: int)
    requires Linked(s) && hash in s.enterMap
    ensures var t := Shortened(w, s, hash, time);
            && Linked(t) && hash in t.enterMap && t.records != []
            && t.enterMap[hash].regionIdx >= 0 && t.enterMap[hash].enterTime == s.enterMap[hash].enterTime
  {
    var t := Shortened(w, s, hash, time);
    assert EntryLinked(s, hash);
    forall h | h in t.enterMap ensures EntryLinked(t, h) {
      assert EntryLinked(s, h);
      if h != hash && s.enterMap[h].recordIdx >= 0 {
        assert RecordLinked(s, s.enterMap[h].recordIdx);
      }
    }
    forall j | 0 <= j < |t.regions| ensures RegionLinked(t, j) {
      if j < |s.regions| {
        assert RegionLinked(s, j);
      }
    }
    forall i | 0 <= i < |t.records| ensures RecordLinked(t, i) {
      if i < |s.records| {
        assert RecordLinked(s, i);
      }
    }
  }

  lemma CompleteIsLinked(s: Log, j: nat, duration: int)
    requires Linked(s) && j < |s.regions|
    ensures Linked(Complete(s, j, duration))
  {
    var t := Complete(s, j, duration);
    forall h | h in t.enterMap ensures EntryLinked(t, h) {
      assert EntryLinked(s, h);
    }
    forall k | 0 <= k < |t.regions| ensures RegionLinked(t, k) {
      assert RegionLinked(s, k);
    }
    forall i | 0 <= i < |t.records| ensures RecordLinked(t, i) {
      assert RecordLinked(s, i);
    }
  }

  lemma AppendOtherIsLinked(s: Log, r: Record)
    requires Linked(s) && r.event != RegionEntry && r.event != ShortRegion
    ensures Linked(s.(records := s.records + [r]))
  {
    var t := s.(records := s.records + [r]);
    forall h | h in t.enterMap ensures EntryLinked(t, h) {
      assert EntryLinked(s, h);
    }
    forall k | 0 <= k < |t.regions| ensures RegionLinked(t, k) {
      assert RegionLinked(s, k);
    }
    forall i | 0 <= i < |t.records| ensures RecordLinked(t, i) {
      if i < |s.records| {
        assert RecordLinked(s, i);
      }
    }
  }

  lemma ForgetEnteredIsLinked(s: Log, entered: nat, epochCount: nat)
    requires Linked(s)
    ensures Linked(s.(entered := entered, epochCount := epochCount))
  {
    var t := s.(entered := entered, epochCount := epochCount);
    forall h | h in t.enterMap ensures EntryLinked(t, h) {
      assert EntryLinked(s, h);
    }
    forall k | 0 <= k < |t.regions| ensures RegionLinked(t, k) {
      assert RegionLinked(s, k);
    }
    forall i | 0 <= i < |t.records| ensures RecordLinked(t, i) {
      assert RecordLinked(s, i);
    }
  }

  lemma ExitPlainIsLinked(w: Writer, s: Log, hash: nat, time: int)
    requires Linked(s)
    ensures Linked(ExitPlain(w, s, hash, time))
  {
    var r := Stamp(w, time, RegionExit, hash);
    AppendOtherIsLinked(s, r);
    hide Linked;
    ForgetEnteredIsLinked(s.(records := s.records + [r]), HASH_INVALID, s.epochCount);
  }

  lemma ExitShortIsLinked(w: Writer, s: Log, hash: nat, time: int)
    requires Linked(s) && hash in s.enterMap
    ensures Linked(ExitShort(w, s, hash, time)) && ExitShort(w, s, hash, time).records != []
  {
    ShortenedIsLinked(w, s, hash, time);
    var t := Shortened(w, s, hash, time);
    assert EntryLinked(t, hash);
    var e := t.enterMap[hash];
    hide Linked, Shortened;
    CompleteIsLinked(t, e.regionIdx, time - e.enterTime);
    ForgetEnteredIsLinked(Complete(t, e.regionIdx, time - e.enterTime), HASH_INVALID, s.epochCount);
  }

  lemma ExitKeeps(w: Writer, s0: Log, hash: nat, time: int)
    requires WellFormed(s0)
    ensures WellFormed(Exit(w, s0, hash, time))
  {
    ResetIsLinked(s0);
    var s := Reset(s0);
    if hash in s.enterMap {
      ExitShortIsLinked(w, s, hash, time);
    } else {
      ExitPlainIsLinked(w, s, hash, time);
    }
    hide Linked, ExitShort;
  }

  /** Every operation keeps the log well formed. */
  lemma StepKeeps(w: Writer, s: Log, op: Op)
    requires WellFormed(s)
    ensures WellFormed(Step(w, s, op))
  {
    match op
    case EnterOp(hash, time) => EnterKeeps(w, s, hash, time);
    case ExitOp(hash, time) => ExitKeeps(w, s, hash, time);
    case EpochOp(time) =>
      ResetIsLinked(s);
      var a := Reset(s);
      var r := Stamp(w, time, EpochCount, a.epochCount + 1);
      AppendOtherIsLinked(a, r);
      ForgetEnteredIsLinked(a.(records := a.records + [r]), a.entered, a.epochCount + 1);
    case DumpOp =>
  }

  // ----- what the reader relies on

  /** The short region records point one to one at the whole region table. */
  ghost predicate SignalsCoverRegions(records: seq<Record>, numRegion: nat) {
    && (forall i :: 0 <= i < |records| && records[i].event == ShortRegion ==> records[i].signal < numRegion)
    && (forall i, k :: 0 <= i < k < |records| && records[i].event == ShortRegion && records[k].event == ShortRegion ==>
          records[i].signal != records[k].signal)
    && (forall j :: 0 <= j < numRegion ==> HasSignal(records, j))
  }

  ghost predicate HasSignal(records: seq<Record>, j: nat) {
    exists i :: 0 <= i < |records| && records[i].event == ShortRegion && records[i].signal == j
  }

  lemma SignalsAreABijection(s: Log)
    requires WellFormed(s)
    ensures SignalsCoverRegions(s.records, |s.regions|)
  {
    if s.records != [] {
      forall i | 0 <= i < |s.records| && s.records[i].event == ShortRegion
        ensures s.records[i].signal < |s.regions| && s.regions[s.records[i].signal].hash in s.enterMap
        ensures s.enterMap[s.regions[s.records[i].signal].hash].recordIdx == i
      {
        assert RecordLinked(s, i);
      }
      forall j | 0 <= j < |s.regions| ensures HasSignal(s.records, j) {
        assert RegionLinked(s, j);
        var e := s.enterMap[s.regions[j].hash];
        assert EntryLinked(s, s.regions[j].hash);
        assert s.records[e.recordIdx].event == ShortRegion && s.records[e.recordIdx].signal == j;
      }
    }
  }

  /** A one-to-one table can hold no more regions than records. */
  lemma {:induction false} CoverBound(records: seq<Record>, n: nat)
    requires forall j :: 0 <= j < n ==> HasSignal(records, j)
    ensures n <= |records|
    decreases n
  {
    if n > 0 {
      assert HasSignal(records, n - 1);
      var i :| 0 <= i < |records| && records[i].event == ShortRegion && records[i].signal == n - 1;
      var rest := records[..i] + records[i + 1..];
      forall j | 0 <= j < n - 1 ensures HasSignal(rest, j) {
        assert HasSignal(records, j);
        var k :| 0 <= k < |records| && records[k].event == ShortRegion && records[k].signal == j;
        var k' := if k < i then k else k - 1;
        assert rest[k'] == records[k];
      }
      CoverBound(rest, n - 1);
    }
  }

  /** No two regions of the table, and no region and open entry, share a hash. */
  lemma PendingHashesDiffer(s: Log)
    requires WellFormed(s)
    ensures forall j, k :: 0 <= j < k < |s.regions| ==> s.regions[j].hash != s.regions[k].hash
    ensures forall i, j :: 0 <= i < |s.records| && s.records[i].event == RegionEntry && 0 <= j < |s.regions| ==>
              s.records[i].signal != s.regions[j].hash
    ensures forall i, k ::
             0 <= i < k < |s.records| && s.records[i].event == RegionEntry && s.records[k].event == RegionEntry ==>
              s.records[i].signal != s.records[k].signal
  {
    if s.records != [] {
      forall j, k | 0 <= j < k < |s.regions| ensures s.regions[j].hash != s.regions[k].hash {
        assert RegionLinked(s, j) && RegionLinked(s, k);
      }
      forall i, j | 0 <= i < |s.records| && s.records[i].event == RegionEntry && 0 <= j < |s.regions|
        ensures s.records[i].signal != s.regions[j].hash
      {
        assert RecordLinked(s, i) && RegionLinked(s, j);
      }
      forall i, k | 0 <= i < k < |s.records| && s.records[i].event == RegionEntry && s.records[k].event == RegionEntry
        ensures s.records[i].signal != s.records[k].signal
      {
        assert RecordLinked(s, i) && RecordLinked(s, k);
      }
    }
  }
}
