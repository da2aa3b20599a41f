/** The shape of the record stream when the application has at most one region open at a time. */
module RecordLogStreams {
  import opened Records
  import opened RecordLogModel
  import opened RecordLogRuns

  predicate Allowed(open: nat, op: Op) {
    match op
    case EnterOp(hash, time) => open == HASH_INVALID && hash != HASH_INVALID
    case ExitOp(hash, time) => open == hash && hash != HASH_INVALID
    case EpochOp(time) => true
    case DumpOp => true
  }

  /** Regions are neither nested nor overlapping, and every exit closes the open region. */
  predicate OneAtATime(ops: seq<Op>) {
    ops == [] || (OneAtATime(ops[..|ops| - 1]) && Allowed(Open(ops[..|ops| - 1]), ops[|ops| - 1]))
  }

  function Delivered(dumps: seq<Dumped>): seq<Record> {
    if dumps == [] then [] else Delivered(dumps[..|dumps| - 1]) + dumps[|dumps| - 1].records
  }

  predicate IsEntry(r: Record) { r.event == RegionEntry }
  predicate IsExit(r: Record) { r.event == RegionExit }

  /** [EXIT] SHORT* [ENTRY] */
  ghost predicate WindowShape(p: seq<Record>) {
    forall i :: 0 <= i < |p| ==>
      && (p[i].event == RegionEntry || p[i].event == RegionExit || p[i].event == ShortRegion)
      && (IsEntry(p[i]) ==> i == |p| - 1)
      && (IsExit(p[i]) ==> i == 0)
  }

  /** Each entry is followed next by the exit of the same region, and each exit has such an entry. */
  ghost predicate Paired(p: seq<Record>) {
    && (forall i :: 0 <= i < |p| - 1 && IsEntry(p[i]) ==> IsExit(p[i + 1]) && p[i + 1].signal == p[i].signal)
    && (forall i :: 0 <= i < |p| && IsExit(p[i]) ==> i > 0 && IsEntry(p[i - 1]) && p[i - 1].signal == p[i].signal)
  }

  predicate EndsInEntry(p: seq<Record>) {
    p != [] && IsEntry(p[|p| - 1])
  }

  /** The next exit of the open region will be absorbed. */
  predicate WillAbsorb(s: Log, open: nat) {
    open in s.enterMap && (s.records == [] ==> s.enterMap[open].isShort)
  }

  /** `sent` is what the reader has received, epochs erased; `open` the open region. */
  ghost predicate Tracks(s: Log, sent: seq<Record>, open: nat) {
    var pending := EraseEpochs(s.records);
    var all := sent + pending;
    && s.entered == open
    && HASH_INVALID !in s.enterMap
    && WindowShape(pending)
    && Paired(all)
    && (EndsInEntry(all) ==> open != HASH_INVALID && all[|all| - 1].signal == open)
    && (EndsInEntry(all) && pending == [] ==> !WillAbsorb(s, open))
    && (!EndsInEntry(all) && open != HASH_INVALID ==> WillAbsorb(s, open))
  }

  lemma TracksInit()
    ensures Tracks(EMPTY, [], HASH_INVALID)
  {
  }

  lemma ErasePush(records: seq<Record>, r: Record)
    ensures EraseEpochs(records + [r]) == EraseEpochs(records) + if IsEpoch(r) then [] else [r]
  {
    assert (records + [r])[..|records|] == records;
  }

  lemma PairedPush(p: seq<Record>, r: Record)
    requires Paired(p)
    requires if EndsInEntry(p) then IsExit(r) && r.signal == p[|p| - 1].signal else !IsExit(r)
    ensures Paired(p + [r])
  {
  }

  lemma ResetKeepsTrack(s: Log, sent: seq<Record>, open: nat)
    requires Tracks(s, sent, open)
    ensures Tracks(Reset(s), sent, open)
  {
    hide WindowShape, Paired;
  }

  /** A pending entry is the last thing the writer did, and its region is in the map. */
  lemma PendingEntry(s: Log, sent: seq<Record>, open: nat) returns (i: nat)
    requires Linked(s) && Tracks(s, sent, open) && EndsInEntry(EraseEpochs(s.records))
    ensures i < |s.records| && IsEntry(s.records[i]) && s.records[i].signal == open
    ensures open in s.enterMap && s.enterMap[open].recordIdx == i && s.enterMap[open].regionIdx == -1
    ensures !s.enterMap[open].isShort
  {
    var pending := EraseEpochs(s.records);
    i := Unerase(s.records, |pending| - 1);
    assert RecordLinked(s, i);
    assert EntryLinked(s, open);
  }

  lemma {:induction false} Unerase(records: seq<Record>, k: nat) returns (i: nat)
    requires k < |EraseEpochs(records)|
    ensures i < |records| && records[i] == EraseEpochs(records)[k] && !IsEpoch(records[i])
    ensures |EraseEpochs(records[..i])| == k
  {
    var init := records[..|records| - 1];
    if k < |EraseEpochs(init)| {
      i := Unerase(init, k);
      assert init[..i] == records[..i];
    } else {
      i := |init|;
    }
  }

  lemma {:induction false} EraseAt(records: seq<Record>, i: nat, r: Record) returns (k: nat)
    requires i < |records| && !IsEpoch(records[i]) && !IsEpoch(r)
    ensures k < |EraseEpochs(records)| && EraseEpochs(records)[k] == records[i]
    ensures EraseEpochs(records[i := r]) == EraseEpochs(records)[k := r]
  {
    var init := records[..|records| - 1];
    if i < |init| {
      k := EraseAt(init, i, r);
      assert records[i := r][..|records| - 1] == init[i := r];
    } else {
      k := |EraseEpochs(init)|;
      assert records[i := r][..|records| - 1] == init;
    }
  }

  /** A region of the map that is not short yet has its entry at the very end. */
  lemma ListedEntryIsLast(s: Log, hash: nat)
    requires Linked(s) && hash in s.enterMap && !s.enterMap[hash].isShort && WindowShape(EraseEpochs(s.records))
    ensures 0 <= s.enterMap[hash].recordIdx < |s.records| && IsEntry(s.records[s.enterMap[hash].recordIdx])
    ensures EndsInEntry(EraseEpochs(s.records))
  {
    assert EntryLinked(s, hash);
    var i := s.enterMap[hash].recordIdx;
    var k := EraseAt(s.records, i, s.records[i]);
  }

  // ----- each operation keeps track

  lemma EnterTracks(w: Writer, s: Log, sent: seq<Record>, hash: nat, time: int)
    requires Linked(s) && Reset(s) == s && Tracks(s, sent, HASH_INVALID) && hash != HASH_INVALID
    ensures Tracks(Enter(w, s, hash, time), sent, hash)
  {
    if hash in s.enterMap {
      assert s.records != [];
      hide WindowShape, Paired, Linked;
    } else {
      NewEntryTracks(s, Enter(w, s, hash, time), sent, Stamp(w, time, RegionEntry, hash));
      hide Linked, Tracks;
    }
  }

  lemma NewEntryTracks(s: Log, t: Log, sent: seq<Record>, r: Record)
    requires Tracks(s, sent, HASH_INVALID) && IsEntry(r) && r.signal != HASH_INVALID
    requires t.records == s.records + [r] && t.entered == r.signal && HASH_INVALID !in t.enterMap
    ensures Tracks(t, sent, r.signal)
  {
    var pending := EraseEpochs(s.records);
    ErasePush(s.records, r);
    PairedPush(sent + pending, r);
    assert sent + (pending + [r]) == (sent + pending) + [r];
    ShapePush(pending, r);
    hide WindowShape, Paired;
  }

  lemma ShapePush(p: seq<Record>, r: Record)
    requires WindowShape(p) && !EndsInEntry(p)
    requires IsEntry(r) || r.event == ShortRegion || (IsExit(r) && p == [])
    ensures WindowShape(p + [r])
  {
  }

  lemma EpochTracks(w: Writer, s: Log, sent: seq<Record>, open: nat, time: int)
    requires Linked(s) && Reset(s) == s && Tracks(s, sent, open)
    ensures Tracks(Epoch(w, s, time), sent, open)
  {
    hide WindowShape, Paired, Linked, EraseEpochs;
    ErasePush(s.records, Stamp(w, time, EpochCount, s.epochCount + 1));
    assert EraseEpochs(s.records) + [] == EraseEpochs(s.records);
  }

  lemma DumpTracks(s: Log, sent: seq<Record>, open: nat)
    requires WellFormed(s) && Tracks(s, sent, open)
    ensures Tracks(Dump(s), sent + EraseEpochs(s.records), open)
  {
    var pending := EraseEpochs(s.records);
    assert (sent + pending) + [] == sent + pending;
    assert WindowShape([]);
    hide WindowShape, Paired;
    if s.records != [] && open in s.enterMap {
      assert EntryLinked(s, open);
      if EndsInEntry(pending) {
        var i := PendingEntry(s, sent, open);
      } else if !s.enterMap[open].isShort {
        ListedEntryIsLast(s, open);
      }
    }
  }

  /** The exit of a region whose entry has been delivered as such. */
  lemma ExitPlainTracks(w: Writer, s: Log, sent: seq<Record>, hash: nat, time: int)
    requires Linked(s) && Reset(s) == s && Tracks(s, sent, hash) && hash != HASH_INVALID && hash !in s.enterMap
    ensures Tracks(ExitPlain(w, s, hash, time), sent, HASH_INVALID)
  {
    var pending := EraseEpochs(s.records);
    var r := Stamp(w, time, RegionExit, hash);
    if EndsInEntry(pending) {
      var i := PendingEntry(s, sent, hash);
    }
    assert EndsInEntry(sent + pending) && sent + [] == sent;
    ErasePush(s.records, r);
    PairedPush(sent + pending, r);
    assert sent + (pending + [r]) == (sent + pending) + [r];
    ShapePush(pending, r);
    hide WindowShape, Paired;
  }

  /** The exit of a region that was entered since the last dump, or was short before it. */
  lemma ExitShortTracks(w: Writer, s: Log, sent: seq<Record>, hash: nat, time: int)
    requires Linked(s) && Reset(s) == s && Tracks(s, sent, hash) && hash != HASH_INVALID && hash in s.enterMap
    ensures Tracks(ExitShort(w, s, hash, time), sent, HASH_INVALID)
  {
    var e, t := s.enterMap[hash], ExitShort(w, s, hash, time);
    assert EntryLinked(s, hash);
    var r := ExitShortRecords(w, s, hash, time);
    hide ExitShort, Linked, EntryLinked, Tracks;
    if e.recordIdx == -1 {
      RelistedTracks(s, t, sent, hash, r);
    } else if e.regionIdx == -1 {
      ListedTracks(s, t, sent, hash, r);
    } else {
      CompletedTracks(s, t, sent, hash);
    }
  }

  /** The entry of the open region becomes a short region record. */
  lemma ListedTracks(s: Log, t: Log, sent: seq<Record>, hash: nat, r: Record)
    requires Linked(s) && Tracks(s, sent, hash) && hash in s.enterMap && !s.enterMap[hash].isShort
    requires 0 <= s.enterMap[hash].recordIdx < |s.records| && r.event == ShortRegion
    requires t.records == s.records[s.enterMap[hash].recordIdx := r] && t.entered == HASH_INVALID
    requires t.enterMap.Keys == s.enterMap.Keys
    ensures Tracks(t, sent, HASH_INVALID)
  {
    var pending := EraseEpochs(s.records);
    ListedEntryIsLast(s, hash);
    var k := EraseAt(s.records, s.enterMap[hash].recordIdx, r);
    assert k == |pending| - 1;
    ReplaceLastEntry(sent, pending, r);
    hide WindowShape, Paired, Linked;
  }

  /** The open region is short already, so the records stay as they are. */
  lemma CompletedTracks(s: Log, t: Log, sent: seq<Record>, hash: nat)
    requires Linked(s) && Tracks(s, sent, hash) && hash in s.enterMap && s.enterMap[hash].regionIdx >= 0
    requires t.records == s.records && t.entered == HASH_INVALID && t.enterMap.Keys == s.enterMap.Keys
    requires s.records != []
    ensures Tracks(t, sent, HASH_INVALID)
  {
    hide WindowShape, Paired;
    if EndsInEntry(EraseEpochs(s.records)) {
      var i := PendingEntry(s, sent, hash);
    }
  }

  lemma RelistedTracks(s: Log, t: Log, sent: seq<Record>, hash: nat, r: Record)
    requires Linked(s) && Reset(s) == s && Tracks(s, sent, hash) && hash in s.enterMap
    requires s.enterMap[hash].recordIdx == -1
    requires r.event == ShortRegion && hash != HASH_INVALID
    requires t.records == s.records + [r] && t.entered == HASH_INVALID && t.enterMap.Keys == s.enterMap.Keys
    ensures Tracks(t, sent, HASH_INVALID)
  {
    var pending := EraseEpochs(s.records);
    if EndsInEntry(pending) {
      var i := PendingEntry(s, sent, hash);
    }
    hide Linked;
    ErasePush(s.records, r);
    PairedPush(sent + pending, r);
    assert sent + (pending + [r]) == (sent + pending) + [r];
    ShapePush(pending, r);
    hide WindowShape, Paired;
  }

  lemma ExitShortRecords(w: Writer, s: Log, hash: nat, time: int) returns (r: Record)
    requires Linked(s) && hash in s.enterMap
    ensures var t, e := ExitShort(w, s, hash, time), s.enterMap[hash];
            && r.event == ShortRegion
            && (e.recordIdx == -1 ==> r == Stamp(w, time, ShortRegion, |s.regions|))
            && (e.recordIdx >= 0 && e.regionIdx == -1 ==>
                  e.recordIdx < |s.records| && r.time == s.records[e.recordIdx].time &&
                    r.process == s.records[e.recordIdx].process
                  && s.records[e.recordIdx].event == RegionEntry)
            && t.entered == HASH_INVALID && t.enterMap.Keys == s.enterMap.Keys
            && t.records == if e.recordIdx == -1 then s.records + [r]
                            else if e.regionIdx == -1 && 0 <= e.recordIdx < |s.records| then s.records[e.recordIdx := r]
                            else s.records
  {
    assert EntryLinked(s, hash);
    var e := s.enterMap[hash];
    hide Linked;
    r := Stamp(w, time, ShortRegion, |s.regions|);
    if e.recordIdx == -1 {
      assert (s.records + [r.(event := RegionEntry, signal := hash)])[|s.records| := r] == s.records + [r];
    } else if e.regionIdx == -1 {
      r := s.records[e.recordIdx].(event := ShortRegion, signal := |s.regions|);
    }
  }

  lemma ReplaceLastEntry(sent: seq<Record>, pending: seq<Record>, r: Record)
    requires EndsInEntry(pending) && r.event == ShortRegion
    requires WindowShape(pending) && Paired(sent + pending)
    ensures var u := pending[|pending| - 1 := r];
            WindowShape(u) && Paired(sent + u) && u != [] && !EndsInEntry(sent + u)
  {
    var u := pending[|pending| - 1 := r];
    var p, q := sent + pending, sent + u;
    assert q == p[|p| - 1 := r];
    forall i | 0 <= i < |q| - 1 && IsEntry(q[i]) ensures IsExit(q[i + 1]) && q[i + 1].signal == q[i].signal {
      assert IsEntry(p[i]) && IsExit(p[i + 1]);
    }
    forall i | 0 <= i < |q| && IsExit(q[i]) ensures i > 0 && IsEntry(q[i - 1]) && q[i - 1].signal == q[i].signal {
      assert IsExit(p[i]) && IsEntry(p[i - 1]);
    }
  }

  lemma StepTracks(w: Writer, s: Log, sent: seq<Record>, open: nat, op: Op)
    requires WellFormed(s) && Tracks(s, sent, open) && Allowed(open, op)
    ensures var t := Step(w, s, op);
            match op
            case EnterOp(hash, time) => Tracks(t, sent, hash)
            case ExitOp(hash, time) => Tracks(t, sent, HASH_INVALID)
            case EpochOp(time) => Tracks(t, sent, open)
            case DumpOp => Tracks(t, sent + EraseEpochs(s.records), open)
  {
    ResetIsLinked(s);
    ResetKeepsTrack(s, sent, open);
    var a := Reset(s);
    assert Reset(a) == a;
    assert forall h: nat, t: int :: Enter(w, a, h, t) == Enter(w, s, h, t);
    hide Tracks, ExitShort, Linked;
    match op
    case EnterOp(hash, time) => EnterTracks(w, a, sent, hash, time);
    case ExitOp(hash, time) =>
      if hash in a.enterMap {
        ExitShortTracks(w, a, sent, hash, time);
      } else {
        ExitPlainTracks(w, a, sent, hash, time);
      }
    case EpochOp(time) => EpochTracks(w, a, sent, open, time);
    case DumpOp => DumpTracks(s, sent, open);
  }

  /** Along every run the stream delivered so far and the pending records fit together. */
  lemma {:induction false} RunsTrack(w: Writer, ops: seq<Op>)
    requires OneAtATime(ops)
    ensures Tracks(LogAfter(w, ops), EraseEpochs(Delivered(Dumps(w, ops))), Open(ops))
  {
    if ops == [] {
      TracksInit();
    } else {
      var init, last := ops[..|ops| - 1], ops[|ops| - 1];
      var s, dumps := LogAfter(w, init), Dumps(w, init);
      RunsTrack(w, init);
      StepTracks(w, s, EraseEpochs(Delivered(dumps)), Open(init), last);
      if last.DumpOp? {
        DeliverOne(dumps, Dumped(s.records, s.regions));
      } else {
        assert dumps + [] == dumps;
      }
      hide Tracks, Step, WellFormed;
    }
  }

  lemma DeliverOne(dumps: seq<Dumped>, d: Dumped)
    ensures EraseEpochs(Delivered(dumps + [d])) == EraseEpochs(Delivered(dumps)) + EraseEpochs(d.records)
  {
    assert (dumps + [d])[..|dumps|] == dumps;
    EraseConcat(Delivered(dumps), d.records);
  }

  /** The shape of one dump: epochs erased it is [EXIT] SHORT* [ENTRY], and no two of its short regions
      and its entry share a hash. */
  ghost predicate DumpShape(d: Dumped) {
    && WindowShape(EraseEpochs(d.records))
    && SignalsCoverRegions(d.records, |d.regions|)
    && (forall j, k :: 0 <= j < k < |d.regions| ==> d.regions[j].hash != d.regions[k].hash)
    && (forall i, j :: 0 <= i < |d.records| && IsEntry(d.records[i]) && 0 <= j < |d.regions| ==>
          d.records[i].signal != d.regions[j].hash)
  }

  /** With at most one region open at a time, every dump has this shape, and in the stream of all dumps
      every entry is followed next by the exit of its region and every exit has such an entry. */
  lemma {:induction false} DumpsAreWellShaped(w: Writer, ops: seq<Op>)
    requires OneAtATime(ops)
    ensures forall d :: d in Dumps(w, ops) ==> DumpShape(d)
    ensures Paired(EraseEpochs(Delivered(Dumps(w, ops))))
  {
    hide DumpShape, Paired, LogAfter, Tracks, WellFormed, EraseEpochs;
    RunsTrack(w, ops);
    DeliveredIsPaired(LogAfter(w, ops), EraseEpochs(Delivered(Dumps(w, ops))), Open(ops));
    if ops != [] {
      var init := ops[..|ops| - 1];
      DumpsAreWellShaped(w, init);
      RunsTrack(w, init);
      StateHasDumpShape(LogAfter(w, init), EraseEpochs(Delivered(Dumps(w, init))), Open(init));
    }
  }

  lemma DeliveredIsPaired(s: Log, sent: seq<Record>, open: nat)
    requires Tracks(s, sent, open)
    ensures Paired(sent)
  {
    PairedPrefix(sent, EraseEpochs(s.records));
  }

  lemma StateHasDumpShape(s: Log, sent: seq<Record>, open: nat)
    requires WellFormed(s) && Tracks(s, sent, open)
    ensures DumpShape(Dumped(s.records, s.regions))
  {
    SignalsAreABijection(s);
    PendingHashesDiffer(s);
    hide WindowShape, Paired, SignalsCoverRegions, WellFormed;
  }

  lemma PairedPrefix(p: seq<Record>, q: seq<Record>)
    requires Paired(p + q)
    ensures Paired(p)
  {
    var r := p + q;
    forall i | 0 <= i < |p| - 1 && IsEntry(p[i]) ensures IsExit(p[i + 1]) && p[i + 1].signal == p[i].signal {
      assert IsEntry(r[i]) && IsExit(r[i + 1]);
    }
    forall i | 0 <= i < |p| && IsExit(p[i]) ensures i > 0 && IsEntry(p[i - 1]) && p[i - 1].signal == p[i].signal {
      assert IsExit(r[i]) && IsEntry(r[i - 1]);
    }
  }
}
