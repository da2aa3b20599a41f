/** Whole runs of a record log: enter, exit, epoch and dump in any order. */
module RecordLogRuns {
  import opened Records
  import opened RecordLogModel

  // What one dump hands to the reader.
  datatype Dumped = Dumped(records: seq<Record>, regions: seq<ShortRegionInfo>)

  function LogAfter(w: Writer, ops: seq<Op>): (s: Log)
    ensures WellFormed(s)
  {
    if ops == [] then EMPTY
    else
      var s := LogAfter(w, ops[..|ops| - 1]);
      StepKeeps(w, s, ops[|ops| - 1]);
      Step(w, s, ops[|ops| - 1])
  }

  function Dumps(w: Writer, ops: seq<Op>): seq<Dumped> {
    if ops == [] then []
    else
      var init := ops[..|ops| - 1];
      var s := LogAfter(w, init);
      Dumps(w, init) + if ops[|ops| - 1].DumpOp? then [Dumped(s.records, s.regions)] else []
  }

  /** Every dump the reader ever receives is indexed one to one and fits its buffers. */
  lemma {:induction false} DumpsAreIndexed(w: Writer, ops: seq<Op>)
    ensures forall d :: d in Dumps(w, ops) ==>
              SignalsCoverRegions(d.records, |d.regions|) && |d.regions| <= |d.records|
  {
    if ops != [] {
      var init := ops[..|ops| - 1];
      DumpsAreIndexed(w, init);
      var s := LogAfter(w, init);
      SignalsAreABijection(s);
      CoverBound(s.records, |s.regions|);
      hide LogAfter, SignalsCoverRegions;
    }
  }

  // ----- what was called

  function ExitCalls(ops: seq<Op>, hash: nat): nat {
    if ops == [] then 0
    else
      var last := ops[|ops| - 1];
      ExitCalls(ops[..|ops| - 1], hash) + if last.ExitOp? && last.hash == hash then 1 else 0
  }

  /** The time of the latest call that entered a region. */
  function LatestEnter(ops: seq<Op>, hash: nat): int {
    if ops == [] then 0
    else
      var last := ops[|ops| - 1];
      if last.EnterOp? && last.hash == hash then last.time else LatestEnter(ops[..|ops| - 1], hash)
  }

  /** The region entered last and not left since, or HASH_INVALID. */
  function Open(ops: seq<Op>): nat {
    if ops == [] then HASH_INVALID
    else
      match ops[|ops| - 1]
      case EnterOp(hash, time) => hash
      case ExitOp(hash, time) => HASH_INVALID
      case EpochOp(time) => Open(ops[..|ops| - 1])
      case DumpOp => Open(ops[..|ops| - 1])
  }

  predicate Enters(op: Op, hash: nat) { op.EnterOp? && op.hash == hash }
  predicate Exits(op: Op, hash: nat) { op.ExitOp? && op.hash == hash }

  /** The calls since the last dump enter the region. */
  predicate EnteredSince(ops: seq<Op>, hash: nat) {
    ops != [] && !ops[|ops| - 1].DumpOp? && (Enters(ops[|ops| - 1], hash) || EnteredSince(ops[..|ops| - 1], hash))
  }

  /** The calls since the last dump enter the region and leave it after that. */
  predicate LeftSince(ops: seq<Op>, hash: nat) {
    ops != [] && !ops[|ops| - 1].DumpOp? &&
    (LeftSince(ops[..|ops| - 1], hash) || (Exits(ops[|ops| - 1], hash) && EnteredSince(ops[..|ops| - 1], hash)))
  }

  /** The region was open at the last dump, as the one entered last, and had been short before it: left and
      entered again between two dumps, or carried over the dump before in the same way. */
  predicate CarriedOver(ops: seq<Op>, hash: nat) {
    ops != [] &&
    var init := ops[..|ops| - 1];
    if ops[|ops| - 1].DumpOp? then Open(init) == hash && (LeftSince(init, hash) || CarriedOver(init, hash))
    else CarriedOver(init, hash)
  }

  /** Whether an exit after the calls `ops` is absorbed by a short region, told from the calls alone. */
  predicate Absorbs(ops: seq<Op>, hash: nat) {
    EnteredSince(ops, hash) || CarriedOver(ops, hash)
  }

  // What is counted: exits with a record of their own, exits absorbed by a short region,
  // and the time that absorbed exits spent since the latest entry of their region.
  datatype Kind = Plain | Absorbed | Time

  function Amount(k: Kind, plain: int, absorbed: int, time: int): int {
    match k
    case Plain => plain
    case Absorbed => absorbed
    case Time => time
  }

  /** The share of one call, made after the calls `before`, in the exits of a region. */
  function CallTally(before: seq<Op>, op: Op, hash: nat, k: Kind): int {
    if !op.ExitOp? || op.hash != hash then 0
    else if Absorbs(before, hash) then Amount(k, 0, 1, op.time - LatestEnter(before, hash))
    else Amount(k, 1, 0, 0)
  }

  /** All exits of a region since the last dump. */
  function WindowTally(ops: seq<Op>, hash: nat, k: Kind): int {
    if ops == [] || ops[|ops| - 1].DumpOp? then 0
    else
      var init := ops[..|ops| - 1];
      WindowTally(init, hash, k) + CallTally(init, ops[|ops| - 1], hash, k)
  }

  /** All exits of a region ever. */
  function CallsTally(ops: seq<Op>, hash: nat, k: Kind): int {
    if ops == [] then 0
    else
      var init := ops[..|ops| - 1];
      CallsTally(init, hash, k) + CallTally(init, ops[|ops| - 1], hash, k)
  }

  // ----- what is in the tables

  function RecordExits(records: seq<Record>, hash: nat): nat {
    if records == [] then 0
    else
      var r := records[|records| - 1];
      RecordExits(records[..|records| - 1], hash) + if r.event == RegionExit && r.signal == hash then 1 else 0
  }

  function RegionShare(r: ShortRegionInfo, hash: nat, k: Kind): int {
    if r.hash == hash then Amount(k, 0, r.numComplete, r.totalTime) else 0
  }

  function RegionTally(regions: seq<ShortRegionInfo>, hash: nat, k: Kind): int {
    if regions == [] then 0
    else RegionTally(regions[..|regions| - 1], hash, k) + RegionShare(regions[|regions| - 1], hash, k)
  }

  /** The exits of a region that a pair of tables accounts for. */
  function TableTally(records: seq<Record>, regions: seq<ShortRegionInfo>, hash: nat, k: Kind): int {
    Amount(k, RecordExits(records, hash), 0, 0) + RegionTally(regions, hash, k)
  }

  function DumpsTally(dumps: seq<Dumped>, hash: nat, k: Kind): int {
    if dumps == [] then 0
    else
      var d := dumps[|dumps| - 1];
      DumpsTally(dumps[..|dumps| - 1], hash, k) + TableTally(d.records, d.regions, hash, k)
  }

  // ----- the tables change by exactly the call's share

  lemma {:induction false} RecordExitsUpdate(records: seq<Record>, i: nat, r: Record, hash: nat)
    requires i < |records| && records[i].event != RegionExit && r.event != RegionExit
    ensures RecordExits(records[i := r], hash) == RecordExits(records, hash)
  {
    var u := records[i := r];
    if i < |records| - 1 {
      assert u[..|u| - 1] == records[..|records| - 1][i := r];
      RecordExitsUpdate(records[..|records| - 1], i, r, hash);
    } else {
      assert u[..|u| - 1] == records[..|records| - 1];
    }
  }

  lemma RecordExitsPush(records: seq<Record>, r: Record, hash: nat)
    ensures RecordExits(records + [r], hash)
         == RecordExits(records, hash) + if r.event == RegionExit && r.signal == hash then 1 else 0
  {
    assert (records + [r])[..|records|] == records;
  }

  lemma RegionTallyPush(regions: seq<ShortRegionInfo>, r: ShortRegionInfo, hash: nat, k: Kind)
    ensures RegionTally(regions + [r], hash, k) == RegionTally(regions, hash, k) + RegionShare(r, hash, k)
  {
    assert (regions + [r])[..|regions|] == regions;
  }

  lemma {:induction false} RegionTallyUpdate(regions: seq<ShortRegionInfo>, j: nat, duration: int, hash: nat, k: Kind)
    requires j < |regions|
    ensures var r := regions[j];
            var u := regions[j := r.(numComplete := r.numComplete + 1, totalTime := r.totalTime + duration)];
            RegionTally(u, hash, k)
              == RegionTally(regions, hash, k) + (if r.hash == hash then Amount(k, 0, 1, duration) else 0)
  {
    var r := regions[j];
    var r' := r.(numComplete := r.numComplete + 1, totalTime := r.totalTime + duration);
    var u := regions[j := r'];
    if j < |regions| - 1 {
      assert u[..|u| - 1] == regions[..|regions| - 1][j := r'];
      RegionTallyUpdate(regions[..|regions| - 1], j, duration, hash, k);
    } else {
      assert u[..|u| - 1] == regions[..|regions| - 1];
    }
  }

  lemma RelistTally(w: Writer, s: Log, h: nat, time: int, hash: nat)
    requires Linked(s) && h in s.enterMap
    ensures RecordExits(Relist(w, s, h, time).records, hash) == RecordExits(s.records, hash)
    ensures Relist(w, s, h, time).regions == s.regions
  {
    hide Linked, RecordExits;
    RecordExitsPush(s.records, Stamp(w, time, RegionEntry, h), hash);
  }

  lemma ShortenTally(s: Log, h: nat, hash: nat, k: Kind)
    requires h in s.enterMap && 0 <= s.enterMap[h].recordIdx < |s.records|
    requires s.enterMap[h].regionIdx == -1 ==> s.records[s.enterMap[h].recordIdx].event == RegionEntry
    ensures RecordExits(Shorten(s, h).records, hash) == RecordExits(s.records, hash)
    ensures RegionTally(Shorten(s, h).regions, hash, k) == RegionTally(s.regions, hash, k)
  {
    hide RecordExits, RegionTally;
    if s.enterMap[h].regionIdx == -1 {
      var i := s.enterMap[h].recordIdx;
      RecordExitsUpdate(s.records, i, s.records[i].(event := ShortRegion, signal := |s.regions|), hash);
      RegionTallyPush(s.regions, ShortRegionInfo(h, 0, 0), hash, k);
    }
  }

  lemma ShortenedTally(w: Writer, s: Log, h: nat, time: int, hash: nat, k: Kind)
    requires Linked(s) && h in s.enterMap
    ensures RecordExits(Shortened(w, s, h, time).records, hash) == RecordExits(s.records, hash)
    ensures RegionTally(Shortened(w, s, h, time).regions, hash, k) == RegionTally(s.regions, hash, k)
  {
    assert EntryLinked(s, h);
    hide Linked, RecordExits, RegionTally, Shorten;
    RelistTally(w, s, h, time, hash);
    ShortenTally(Relist(w, s, h, time), h, hash, k);
  }

  lemma CompleteTally(s: Log, j: nat, duration: int, hash: nat, k: Kind)
    requires j < |s.regions|
    ensures var t := Complete(s, j, duration);
            var share := if s.regions[j].hash == hash then Amount(k, 0, 1, duration) else 0;
            TableTally(t.records, t.regions, hash, k) == TableTally(s.records, s.regions, hash, k) + share
  {
    hide RecordExits, RegionTally;
    RegionTallyUpdate(s.regions, j, duration, hash, k);
  }

  /** An absorbed exit completes the short region that stands for its hash. */
  lemma ExitShortCompletes(w: Writer, s: Log, h: nat, time: int)
    requires Linked(s) && h in s.enterMap
    ensures var t := Shortened(w, s, h, time);
            && h in t.enterMap && 0 <= t.enterMap[h].regionIdx < |t.regions|
            && t.regions[t.enterMap[h].regionIdx].hash == h
            && var u := Complete(t, t.enterMap[h].regionIdx, time - s.enterMap[h].enterTime);
               ExitShort(w, s, h, time).records == u.records && ExitShort(w, s, h, time).regions == u.regions
  {
    ShortenedIsLinked(w, s, h, time);
    assert EntryLinked(Shortened(w, s, h, time), h);
    hide Linked, Shortened;
  }

  lemma ExitShortTally(w: Writer, s: Log, h: nat, time: int, hash: nat, k: Kind)
    requires Linked(s) && h in s.enterMap
    ensures var t := ExitShort(w, s, h, time);
            var share := if h == hash then Amount(k, 0, 1, time - s.enterMap[h].enterTime) else 0;
            TableTally(t.records, t.regions, hash, k) == TableTally(s.records, s.regions, hash, k) + share
  {
    hide Linked, Shortened, RecordExits, RegionTally, ExitShort, Complete, EntryLinked;
    ExitShortCompletes(w, s, h, time);
    var t := Shortened(w, s, h, time);
    ShortenedTally(w, s, h, time, hash, k);
    assert TableTally(t.records, t.regions, hash, k) == TableTally(s.records, s.regions, hash, k);
    hide TableTally;
    CompleteTally(t, t.enterMap[h].regionIdx, time - s.enterMap[h].enterTime, hash, k);
  }

  lemma AppendTally(records: seq<Record>, r: Record, regions: seq<ShortRegionInfo>, hash: nat, k: Kind)
    ensures TableTally(records + [r], regions, hash, k) == TableTally(records, regions, hash, k)
              + (if r.event == RegionExit && r.signal == hash then Amount(k, 1, 0, 0) else 0)
  {
    hide RecordExits, RegionTally;
    RecordExitsPush(records, r, hash);
  }

  /** What one operation adds to the tables. */
  function Share(s: Log, op: Op, hash: nat, k: Kind): int {
    var m := Reset(s).enterMap;
    if !op.ExitOp? || op.hash != hash then 0
    else if hash in m then Amount(k, 0, 1, op.time - m[hash].enterTime)
    else Amount(k, 1, 0, 0)
  }

  /** The record an operation appends, unless it is absorbed. */
  function Appended(w: Writer, s: Log, op: Op): seq<Record> {
    match op
    case EnterOp(h, time) => if h in Reset(s).enterMap then [] else [Stamp(w, time, RegionEntry, h)]
    case ExitOp(h, time) => if h in Reset(s).enterMap then [] else [Stamp(w, time, RegionExit, h)]
    case EpochOp(time) => [Stamp(w, time, EpochCount, s.epochCount + 1)]
    case DumpOp => []
  }

  lemma StepAppends(w: Writer, s: Log, op: Op)
    requires WellFormed(s) && !op.DumpOp? && (op.ExitOp? ==> op.hash !in Reset(s).enterMap)
    ensures Step(w, s, op).records == s.records + Appended(w, s, op)
    ensures Step(w, s, op).regions == s.regions
  {
    ResetIsLinked(s);
    hide Linked;
  }

  lemma StepTally(w: Writer, s: Log, op: Op, hash: nat, k: Kind)
    requires WellFormed(s)
    ensures var t := Step(w, s, op);
            TableTally(t.records, t.regions, hash, k)
              == if op.DumpOp? then 0 else TableTally(s.records, s.regions, hash, k) + Share(s, op, hash, k)
  {
    hide Linked, Step, ExitShort, TableTally, WellFormed, Stamp;
    ResetIsLinked(s);
    StepCases(w, s, op);
    if op.DumpOp? {
      EmptyTally(hash, k);
    } else if op.ExitOp? && op.hash in Reset(s).enterMap {
      ExitShortTally(w, Reset(s), op.hash, op.time, hash, k);
    } else {
      StepAppends(w, s, op);
      AppendedTally(s.records, Appended(w, s, op), s.regions, hash, k);
      AppendedShare(w, s, op, hash, k);
    }
  }

  lemma StepCases(w: Writer, s: Log, op: Op)
    requires WellFormed(s) && Linked(Reset(s))
    ensures op.DumpOp? ==> Step(w, s, op).records == [] && Step(w, s, op).regions == []
    ensures op.ExitOp? && op.hash in Reset(s).enterMap ==> Step(w, s, op) == ExitShort(w, Reset(s), op.hash, op.time)
  {
    hide Linked, ExitShort;
  }

  lemma AppendedShare(w: Writer, s: Log, op: Op, hash: nat, k: Kind)
    requires !op.DumpOp? && (op.ExitOp? ==> op.hash !in Reset(s).enterMap)
    ensures var more := Appended(w, s, op);
            Share(s, op, hash, k)
              == if more != [] && more[0].event == RegionExit && more[0].signal == hash then Amount(k, 1, 0, 0) else 0
  {
  }

  lemma AppendedTally(records: seq<Record>, more: seq<Record>, regions: seq<ShortRegionInfo>, hash: nat, k: Kind)
    requires |more| <= 1
    ensures TableTally(records + more, regions, hash, k) == TableTally(records, regions, hash, k)
              + (if more != [] && more[0].event == RegionExit && more[0].signal == hash then Amount(k, 1, 0, 0) else 0)
  {
    hide TableTally;
    if more == [] {
      assert records + more == records;
    } else {
      assert more == [more[0]];
      AppendTally(records, more[0], regions, hash, k);
    }
  }

  lemma EmptyTally(hash: nat, k: Kind)
    ensures TableTally([], [], hash, k) == 0
  {
  }

  /** The map remembers the latest entry of each of its regions. */
  lemma {:induction false} EnterTimesAreLatest(w: Writer, ops: seq<Op>)
    ensures forall h :: h in LogAfter(w, ops).enterMap ==>
              LogAfter(w, ops).enterMap[h].enterTime == LatestEnter(ops, h)
  {
    if ops != [] {
      var init, last := ops[..|ops| - 1], ops[|ops| - 1];
      EnterTimesAreLatest(w, init);
      var s := LogAfter(w, init);
      ResetIsLinked(s);
      if last.ExitOp? && last.hash in Reset(s).enterMap {
        ShortenedIsLinked(w, Reset(s), last.hash, last.time);
      }
    }
  }

  /** The writer's map, brought up to date, holds a region exactly when the calls say that its exit is absorbed,
      and as a short one exactly when it has been left or carried over. */
  ghost predicate Agrees(s: Log, ops: seq<Op>, h: nat) {
    var m := Reset(s).enterMap;
    && (h in m <==> Absorbs(ops, h))
    && (h in m ==> (m[h].isShort <==> LeftSince(ops, h) || CarriedOver(ops, h)))
  }

  /** In every run, with regions nested, overlapping or not, the writer's own test is told from the calls alone. */
  lemma {:induction false} MapIsFromCalls(w: Writer, ops: seq<Op>)
    ensures LogAfter(w, ops).entered == Open(ops)
    ensures forall h: nat :: Agrees(LogAfter(w, ops), ops, h)
    ensures forall h: nat :: h in Reset(LogAfter(w, ops)).enterMap <==> Absorbs(ops, h)
  {
    hide Step, Absorbs, LeftSince, CarriedOver, Agrees;
    if ops == [] {
      EmptyAgrees();
    } else {
      var init, op := ops[..|ops| - 1], ops[|ops| - 1];
      MapIsFromCalls(w, init);
      assert ops == init + [op];
      StepEntered(w, LogAfter(w, init), op);
      forall h: nat ensures Agrees(LogAfter(w, ops), ops, h) {
        StepAgrees(w, LogAfter(w, init), init, op, h);
      }
    }
    AgreesOnKeys(LogAfter(w, ops), ops);
  }

  lemma EmptyAgrees()
    ensures EMPTY.entered == Open([]) && forall h: nat :: Agrees(EMPTY, [], h)
  {
  }

  lemma AgreesOnKeys(s: Log, ops: seq<Op>)
    requires forall h: nat :: Agrees(s, ops, h)
    ensures forall h: nat :: h in Reset(s).enterMap <==> Absorbs(ops, h)
  {
    hide Absorbs, LeftSince, CarriedOver, Reset;
    forall h: nat ensures h in Reset(s).enterMap <==> Absorbs(ops, h) {
      assert Agrees(s, ops, h);
    }
  }

  lemma StepEntered(w: Writer, s: Log, op: Op)
    requires WellFormed(s)
    ensures Step(w, s, op).entered == match op
                                      case EnterOp(hash, time) => hash
                                      case ExitOp(hash, time) => HASH_INVALID
                                      case EpochOp(time) => s.entered
                                      case DumpOp => s.entered
  {
    ResetIsLinked(s);
    hide Linked;
  }

  /** What the calls after one more call say, in terms of those before. */
  lemma NextCall(ops: seq<Op>, op: Op, h: nat)
    ensures EnteredSince(ops + [op], h) <==> !op.DumpOp? && (Enters(op, h) || EnteredSince(ops, h))
    ensures LeftSince(ops + [op], h) <==> !op.DumpOp? && (LeftSince(ops, h) || (Exits(op, h) && EnteredSince(ops, h)))
    ensures CarriedOver(ops + [op], h)
       <==> if op.DumpOp? then Open(ops) == h && (LeftSince(ops, h) || CarriedOver(ops, h)) else CarriedOver(ops, h)
  {
    assert (ops + [op])[..|ops|] == ops;
  }

  lemma {:induction false} LeftWasEntered(ops: seq<Op>, h: nat)
    ensures LeftSince(ops, h) ==> EnteredSince(ops, h)
  {
    if ops != [] {
      LeftWasEntered(ops[..|ops| - 1], h);
    }
  }

  lemma StepAgrees(w: Writer, s: Log, ops: seq<Op>, op: Op, h: nat)
    requires WellFormed(s) && s.entered == Open(ops) && forall g: nat :: Agrees(s, ops, g)
    ensures Agrees(Step(w, s, op), ops + [op], h)
  {
    assert Agrees(s, ops, h);
    NextCall(ops, op, h);
    LeftWasEntered(ops, h);
    StepMap(w, s, op, h);
    hide Step, LeftSince, CarriedOver, EnteredSince, Open, WellFormed, Reset;
  }

  /** What one operation does to one region of the map, brought up to date before and after. */
  lemma StepMap(w: Writer, s: Log, op: Op, h: nat)
    requires WellFormed(s)
    ensures var m, n := Reset(s).enterMap, Reset(Step(w, s, op)).enterMap;
            match op
            case DumpOp => (h in n <==> h in m && s.entered == h && m[h].isShort) && (h in n ==> n[h].isShort)
            case EnterOp(g, time) => (h in n <==> h in m || h == g) &&
              (h in n ==> n[h].isShort == (h in m && m[h].isShort))
            case ExitOp(g, time) => (h in n <==> h in m) && (h in n ==> n[h].isShort == (h == g || m[h].isShort))
            case EpochOp(time) => n == m
  {
    ResetIsLinked(s);
    if op.ExitOp? && op.hash in Reset(s).enterMap {
      ExitShortMap(w, Reset(s), op.hash, op.time);
      hide ExitShort;
    }
    hide Linked;
  }

  lemma ExitShortMap(w: Writer, s: Log, hash: nat, time: int)
    requires Linked(s) && hash in s.enterMap
    ensures var t := ExitShort(w, s, hash, time);
            && t.records != [] && t.enterMap.Keys == s.enterMap.Keys && t.enterMap[hash].isShort
            && forall g :: g in s.enterMap && g != hash ==> t.enterMap[g] == s.enterMap[g]
  {
    assert EntryLinked(s, hash);
    ShortenedIsLinked(w, s, hash, time);
    hide Linked;
  }

  /** The tables account for exactly the exits since the last dump: one exit record per plain exit, one
      completion per absorbed exit, and for each absorbed exit the time since the latest entry. */
  lemma {:induction false} PendingIsTheWindow(w: Writer, ops: seq<Op>, hash: nat, k: Kind)
    ensures var s := LogAfter(w, ops);
            TableTally(s.records, s.regions, hash, k) == WindowTally(ops, hash, k)
  {
    hide Step, TableTally, CallTally, Share, WellFormed;
    EmptyTally(hash, k);
    if ops != [] {
      var init, last := ops[..|ops| - 1], ops[|ops| - 1];
      PendingIsTheWindow(w, init, hash, k);
      StepTally(w, LogAfter(w, init), last, hash, k);
      ShareIsTheCalls(w, init, last, hash, k);
    }
  }

  lemma ShareIsTheCalls(w: Writer, before: seq<Op>, op: Op, hash: nat, k: Kind)
    ensures Share(LogAfter(w, before), op, hash, k) == CallTally(before, op, hash, k)
  {
    EnterTimesAreLatest(w, before);
    MapIsFromCalls(w, before);
    hide LogAfter, LatestEnter, Absorbs;
  }

  /** Conservation: everything dumped and everything pending together account for every exit call
      and for all the time spent in absorbed ones. */
  lemma {:induction false} NothingIsLost(w: Writer, ops: seq<Op>, hash: nat, k: Kind)
    ensures var s := LogAfter(w, ops);
            var pending := TableTally(s.records, s.regions, hash, k);
            DumpsTally(Dumps(w, ops), hash, k) + pending == CallsTally(ops, hash, k)
  {
    hide LogAfter, TableTally, CallTally, DumpsTally;
    EmptyTally(hash, k);
    PendingIsTheWindow(w, ops, hash, k);
    if ops == [] {
      NoDumps(hash, k);
    } else {
      var init, last := ops[..|ops| - 1], ops[|ops| - 1];
      var s := LogAfter(w, init);
      NothingIsLost(w, init, hash, k);
      PendingIsTheWindow(w, init, hash, k);
      if last.DumpOp? {
        DumpsTallyPush(Dumps(w, init), Dumped(s.records, s.regions), hash, k);
        DumpIsNoCall(init, last, hash, k);
      } else {
        assert Dumps(w, init) + [] == Dumps(w, init);
      }
    }
  }

  lemma NoDumps(hash: nat, k: Kind)
    ensures DumpsTally([], hash, k) == 0
  {
  }

  lemma DumpIsNoCall(before: seq<Op>, op: Op, hash: nat, k: Kind)
    requires !op.ExitOp?
    ensures CallTally(before, op, hash, k) == 0
  {
  }

  lemma DumpsTallyPush(dumps: seq<Dumped>, d: Dumped, hash: nat, k: Kind)
    ensures DumpsTally(dumps + [d], hash, k) == DumpsTally(dumps, hash, k) + TableTally(d.records, d.regions, hash, k)
  {
    hide TableTally;
    assert (dumps + [d])[..|dumps|] == dumps;
  }

  lemma {:induction false} EveryExitIsTallied(ops: seq<Op>, hash: nat)
    ensures ExitCalls(ops, hash) == CallsTally(ops, hash, Plain) + CallsTally(ops, hash, Absorbed)
  {
    if ops != [] {
      EveryExitIsTallied(ops[..|ops| - 1], hash);
    }
  }

  /** For every region, the exit calls are the exit records plus the completions, dumped or pending. */
  lemma ExitsAreConserved(w: Writer, ops: seq<Op>, hash: nat)
    ensures var s, dumps := LogAfter(w, ops), Dumps(w, ops);
            ExitCalls(ops, hash)
              == DumpsTally(dumps, hash, Plain) + TableTally(s.records, s.regions, hash, Plain)
               + DumpsTally(dumps, hash, Absorbed) + TableTally(s.records, s.regions, hash, Absorbed)
  {
    EveryExitIsTallied(ops, hash);
    NothingIsLost(w, ops, hash, Plain);
    NothingIsLost(w, ops, hash, Absorbed);
    hide LogAfter, DumpsTally, TableTally;
  }

  lemma {:induction false} AbsentRegion(regions: seq<ShortRegionInfo>, hash: nat, k: Kind)
    requires forall j :: 0 <= j < |regions| ==> regions[j].hash != hash
    ensures RegionTally(regions, hash, k) == 0
  {
    if regions != [] {
      AbsentRegion(regions[..|regions| - 1], hash, k);
    }
  }

  lemma {:induction false} OnlyRegion(regions: seq<ShortRegionInfo>, j: nat, k: Kind)
    requires j < |regions|
    requires forall i :: 0 <= i < |regions| && i != j ==> regions[i].hash != regions[j].hash
    ensures RegionTally(regions, regions[j].hash, k) == RegionShare(regions[j], regions[j].hash, k)
  {
    var init := regions[..|regions| - 1];
    if j < |init| {
      OnlyRegion(init, j, k);
    } else {
      AbsentRegion(init, regions[j].hash, k);
    }
  }

  /** A pending short region has counted exactly the exits of its region that were absorbed since the
      last dump, and summed exactly their times. */
  lemma RegionIsItsWindow(w: Writer, ops: seq<Op>, j: nat)
    requires j < |LogAfter(w, ops).regions|
    ensures var r := LogAfter(w, ops).regions[j];
            && r.numComplete == WindowTally(ops, r.hash, Absorbed)
            && r.totalTime == WindowTally(ops, r.hash, Time)
  {
    var s := LogAfter(w, ops);
    PendingHashesDiffer(s);
    forall i | 0 <= i < |s.regions| && i != j ensures s.regions[i].hash != s.regions[j].hash {
      assert i < j || j < i;
    }
    PendingIsTheWindow(w, ops, s.regions[j].hash, Absorbed);
    PendingIsTheWindow(w, ops, s.regions[j].hash, Time);
    OnlyRegion(s.regions, j, Absorbed);
    OnlyRegion(s.regions, j, Time);
    hide LogAfter, RecordExits, RegionTally, WindowTally;
  }

  /** With overlapping regions an open short region may lose its place: the region 5 is short and entered again,
      but 6 is entered after it, so the exit of 5 after the dump gets a record of its own. */
  lemma OverlapIsNotAbsorbed()
    ensures var ops := [EnterOp(5, 1), ExitOp(5, 2), EnterOp(5, 3)];
            Absorbs(ops + [DumpOp], 5) && !Absorbs(ops + [EnterOp(6, 4), DumpOp], 5)
  {
    var ops := [EnterOp(5, 1), ExitOp(5, 2), EnterOp(5, 3)];
    var a := [EnterOp(5, 1)];
    var b := a + [ExitOp(5, 2)];
    assert [] + [EnterOp(5, 1)] == a && ops == b + [EnterOp(5, 3)];
    NextCall([], EnterOp(5, 1), 5);
    NextCall(a, ExitOp(5, 2), 5);
    NextCall(b, EnterOp(5, 3), 5);
    NextCall(ops, DumpOp, 5);
    NextCall(ops, EnterOp(6, 4), 5);
    NextCall(ops + [EnterOp(6, 4)], DumpOp, 5);
    assert ops + [EnterOp(6, 4)] + [DumpOp] == ops + [EnterOp(6, 4), DumpOp];
  }
}
