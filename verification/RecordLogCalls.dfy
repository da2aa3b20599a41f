/** The pending records, told record by record from the calls alone. */
module RecordLogCalls {
  import opened Records
  import opened RecordLogModel
  import opened RecordLogRuns

  // What a record stands for: a region that was entered, whether or not it has become short, a region that was
  // left, or an epoch; and the region's hash or the epoch's number.
  datatype Sort = Visit | Leave | Count | NoCall

  datatype Name = Name(sort: Sort, time: int, process: int, key: nat)

  function NameOf(r: Record, regions: seq<ShortRegionInfo>): Name {
    match r.event
    case RegionEntry => Name(Visit, r.time, r.process, r.signal)
    case ShortRegion =>
      if r.signal < |regions| then Name(Visit, r.time, r.process, regions[r.signal].hash)
      else Name(NoCall, r.time, r.process, r.signal)
    case RegionExit => Name(Leave, r.time, r.process, r.signal)
    case EpochCount => Name(Count, r.time, r.process, r.signal)
    case _ => Name(NoCall, r.time, r.process, r.signal)
  }

  function Names(records: seq<Record>, regions: seq<ShortRegionInfo>): (n: seq<Name>)
    ensures |n| == |records|
    ensures forall i :: 0 <= i < |n| ==> n[i] == NameOf(records[i], regions)
  {
    seq(|records|, i requires 0 <= i < |records| => NameOf(records[i], regions))
  }

  // ----- what the calls say

  function EpochCalls(ops: seq<Op>): nat {
    if ops == [] then 0 else EpochCalls(ops[..|ops| - 1]) + if ops[|ops| - 1].EpochOp? then 1 else 0
  }

  /** The calls since the last dump leave the region. */
  predicate ExitedSince(ops: seq<Op>, hash: nat) {
    ops != [] && !ops[|ops| - 1].DumpOp? && (Exits(ops[|ops| - 1], hash) || ExitedSince(ops[..|ops| - 1], hash))
  }

  /** A short region that was carried over the last dump has no record until it is left. */
  predicate Unlisted(ops: seq<Op>, hash: nat) {
    CarriedOver(ops, hash) && !ExitedSince(ops, hash)
  }

  /** The record that a call makes, after the calls `before`. */
  function WrittenFor(w: Writer, before: seq<Op>, op: Op): seq<Name> {
    match op
    case EnterOp(hash, time) =>
      if Absorbs(before, hash) then [] else [Name(Visit, time - w.timeZero, w.process, hash)]
    case ExitOp(hash, time) =>
      if !Absorbs(before, hash) then [Name(Leave, time - w.timeZero, w.process, hash)]
      else if Unlisted(before, hash) then [Name(Visit, time - w.timeZero, w.process, hash)]
      else []
    case EpochOp(time) => [Name(Count, time - w.timeZero, w.process, EpochCalls(before) + 1)]
    case DumpOp => []
  }

  function WindowNames(w: Writer, ops: seq<Op>): seq<Name> {
    if ops == [] || ops[|ops| - 1].DumpOp? then []
    else WindowNames(w, ops[..|ops| - 1]) + WrittenFor(w, ops[..|ops| - 1], ops[|ops| - 1])
  }

  // ----- which regions of the map have no record

  ghost predicate ListedRight(s: Log, ops: seq<Op>, h: nat) {
    h in Reset(s).enterMap ==> (Reset(s).enterMap[h].recordIdx == -1 <==> Unlisted(ops, h))
  }

  lemma {:induction false} RunsAreListed(w: Writer, ops: seq<Op>)
    ensures forall h: nat :: ListedRight(LogAfter(w, ops), ops, h)
    ensures LogAfter(w, ops).epochCount == EpochCalls(ops)
  {
    hide Step, Unlisted, ListedRight;
    if ops == [] {
      EmptyIsListed();
    } else {
      var init, op := ops[..|ops| - 1], ops[|ops| - 1];
      RunsAreListed(w, init);
      assert ops == init + [op];
      StepCount(w, LogAfter(w, init), op);
      forall h: nat ensures ListedRight(LogAfter(w, ops), ops, h) {
        StepIsListed(w, init, op, h);
      }
    }
  }

  lemma EmptyIsListed()
    ensures forall h: nat :: ListedRight(EMPTY, [], h)
  {
  }

  lemma StepCount(w: Writer, s: Log, op: Op)
    requires WellFormed(s)
    ensures Step(w, s, op).epochCount == s.epochCount + if op.EpochOp? then 1 else 0
  {
    ResetIsLinked(s);
    hide Linked;
  }

  lemma StepIsListed(w: Writer, init: seq<Op>, op: Op, h: nat)
    requires ListedRight(LogAfter(w, init), init, h)
    ensures ListedRight(LogAfter(w, init + [op]), init + [op], h)
  {
    var s := LogAfter(w, init);
    assert (init + [op])[..|init|] == init;
    assert LogAfter(w, init + [op]) == Step(w, s, op);
    assert ExitedSince(init + [op], h) <==> !op.DumpOp? && (Exits(op, h) || ExitedSince(init, h));
    NextCall(init, op, h);
    MapIsFromCalls(w, init);
    assert Agrees(s, init, h);
    StepIndex(w, s, op, h);
    hide LogAfter, Step, Reset, EnteredSince, LeftSince, CarriedOver, ExitedSince, Open;
  }

  /** What one operation does to the place of a region's record. */
  lemma StepIndex(w: Writer, s: Log, op: Op, h: nat)
    requires WellFormed(s)
    ensures var m, n := Reset(s).enterMap, Reset(Step(w, s, op)).enterMap;
            match op
            case DumpOp =>
              (h in n <==> h in m && s.entered == h && m[h].isShort) && (h in n ==> n[h].recordIdx == -1)
            case EnterOp(g, time) =>
              && (h in n <==> h in m || h == g)
              && (h in n ==> (n[h].recordIdx == -1 <==> h in m && m[h].recordIdx == -1))
            case ExitOp(g, time) =>
              (h in n <==> h in m) && (h in n ==> (n[h].recordIdx == -1 <==> h != g && m[h].recordIdx == -1))
            case EpochOp(time) => n == m
  {
    ResetIsLinked(s);
    if h in Reset(s).enterMap {
      assert EntryLinked(Reset(s), h);
    }
    if op.ExitOp? && op.hash in Reset(s).enterMap {
      ExitShortIndex(w, Reset(s), op.hash, op.time);
      hide ExitShort;
    }
    hide Linked;
  }

  lemma ExitShortIndex(w: Writer, s: Log, hash: nat, time: int)
    requires Linked(s) && hash in s.enterMap
    ensures var t := ExitShort(w, s, hash, time);
            && t.records != [] && t.enterMap.Keys == s.enterMap.Keys && t.enterMap[hash].recordIdx >= 0
            && forall g :: g in s.enterMap && g != hash ==> t.enterMap[g] == s.enterMap[g]
  {
    assert EntryLinked(s, hash);
    ShortenedIsLinked(w, s, hash, time);
    hide Linked;
  }

  // ----- the names of the pending records

  /** Every short region record names a region of the table. */
  ghost predicate SignalsFit(records: seq<Record>, regions: seq<ShortRegionInfo>) {
    forall i :: 0 <= i < |records| && records[i].event == ShortRegion ==> records[i].signal < |regions|
  }

  lemma LinkedFits(s: Log)
    requires Linked(s)
    ensures SignalsFit(s.records, s.regions)
  {
    forall i | 0 <= i < |s.records| && s.records[i].event == ShortRegion ensures s.records[i].signal < |s.regions| {
      assert RecordLinked(s, i);
    }
  }

  lemma NamesPush(records: seq<Record>, r: Record, regions: seq<ShortRegionInfo>)
    ensures Names(records + [r], regions) == Names(records, regions) + [NameOf(r, regions)]
  {
  }

  lemma RelistNames(w: Writer, s: Log, hash: nat, time: int)
    requires Linked(s) && hash in s.enterMap
    ensures var t := Relist(w, s, hash, time);
            && t.regions == s.regions && SignalsFit(t.records, t.regions)
            && Names(t.records, t.regions) == Names(s.records, s.regions) + (
                 if s.enterMap[hash].recordIdx == -1 then [Name(Visit, time - w.timeZero, w.process, hash)] else [])
  {
    LinkedFits(s);
    NamesPush(s.records, Stamp(w, time, RegionEntry, hash), s.regions);
    hide Linked, Names;
    assert Names(s.records, s.regions) + [] == Names(s.records, s.regions);
  }

  /** When an entry becomes short, its record still stands for the same visit. */
  lemma ShortenNames(s: Log, hash: nat)
    requires SignalsFit(s.records, s.regions)
    requires hash in s.enterMap && 0 <= s.enterMap[hash].recordIdx < |s.records|
    requires s.enterMap[hash].regionIdx == -1 ==>
               var r := s.records[s.enterMap[hash].recordIdx]; r.event == RegionEntry && r.signal == hash
    ensures var t := Shorten(s, hash); Names(t.records, t.regions) == Names(s.records, s.regions)
  {
    var t := Shorten(s, hash);
    forall i | 0 <= i < |s.records|
      ensures Names(t.records, t.regions)[i] == Names(s.records, s.regions)[i]
    {
    }
  }

  lemma CompleteNames(s: Log, j: nat, duration: int)
    requires j < |s.regions|
    ensures var t := Complete(s, j, duration); Names(t.records, t.regions) == Names(s.records, s.regions)
  {
    var t := Complete(s, j, duration);
    forall i | 0 <= i < |s.records|
      ensures Names(t.records, t.regions)[i] == Names(s.records, s.regions)[i]
    {
    }
  }

  lemma ExitShortNames(w: Writer, s: Log, hash: nat, time: int)
    requires Linked(s) && hash in s.enterMap
    ensures var t := ExitShort(w, s, hash, time);
            Names(t.records, t.regions) == Names(s.records, s.regions) + (
              if s.enterMap[hash].recordIdx == -1 then [Name(Visit, time - w.timeZero, w.process, hash)] else [])
  {
    assert EntryLinked(s, hash);
    RelistNames(w, s, hash, time);
    ShortenNames(Relist(w, s, hash, time), hash);
    ExitShortCompletes(w, s, hash, time);
    var t := Shortened(w, s, hash, time);
    CompleteNames(t, t.enterMap[hash].regionIdx, time - s.enterMap[hash].enterTime);
    hide Linked, Names, ExitShort, Complete, Relist, Shorten, SignalsFit;
  }

  /** What one operation adds to the names, in terms of the map. */
  function AddedNames(w: Writer, s: Log, op: Op): seq<Name> {
    var m := Reset(s).enterMap;
    match op
    case EnterOp(hash, time) => if hash in m then [] else [Name(Visit, time - w.timeZero, w.process, hash)]
    case ExitOp(hash, time) =>
      if hash !in m then [Name(Leave, time - w.timeZero, w.process, hash)]
      else if m[hash].recordIdx == -1 then [Name(Visit, time - w.timeZero, w.process, hash)]
      else []
    case EpochOp(time) => [Name(Count, time - w.timeZero, w.process, s.epochCount + 1)]
    case DumpOp => []
  }

  lemma StepNames(w: Writer, s: Log, op: Op)
    requires WellFormed(s)
    ensures var t := Step(w, s, op);
            Names(t.records, t.regions)
              == if op.DumpOp? then [] else Names(s.records, s.regions) + AddedNames(w, s, op)
  {
    ResetIsLinked(s);
    StepCases(w, s, op);
    hide Linked, WellFormed, Step, ExitShort, Names, Reset, Appended;
    if op.ExitOp? && op.hash in Reset(s).enterMap {
      ExitShortNames(w, Reset(s), op.hash, op.time);
    } else if !op.DumpOp? {
      StepAppends(w, s, op);
      AppendedNames(w, s, op);
    }
  }

  lemma AppendedNames(w: Writer, s: Log, op: Op)
    requires !op.DumpOp? && (op.ExitOp? ==> op.hash !in Reset(s).enterMap)
    ensures Names(s.records + Appended(w, s, op), s.regions) == Names(s.records, s.regions) + AddedNames(w, s, op)
  {
    hide Names, Reset;
    if Appended(w, s, op) == [] {
      assert s.records + [] == s.records && Names(s.records, s.regions) + [] == Names(s.records, s.regions);
    } else {
      NamesPush(s.records, Appended(w, s, op)[0], s.regions);
    }
  }

  lemma AddedIsTold(w: Writer, init: seq<Op>, op: Op)
    ensures AddedNames(w, LogAfter(w, init), op) == WrittenFor(w, init, op)
  {
    MapIsFromCalls(w, init);
    RunsAreListed(w, init);
    hide LogAfter, Absorbs, Unlisted, Reset;
    if op.ExitOp? {
      assert ListedRight(LogAfter(w, init), init, op.hash);
    }
  }

  /** In every run, with regions nested, overlapping or not: the pending records are, in order, those that the
      calls since the last dump make, each with the time of its call, the process, and its region or number. */
  lemma {:induction false} PendingIsToldByCalls(w: Writer, ops: seq<Op>)
    ensures Names(LogAfter(w, ops).records, LogAfter(w, ops).regions) == WindowNames(w, ops)
  {
    hide Step, WrittenFor, AddedNames;
    if ops != [] {
      var init, op := ops[..|ops| - 1], ops[|ops| - 1];
      PendingIsToldByCalls(w, init);
      StepNames(w, LogAfter(w, init), op);
      AddedIsTold(w, init, op);
    }
  }

  /** The record of a visit is a short region record exactly when the calls have left the region since they entered
      it, or it was carried over the last dump; otherwise it is still an entry. */
  lemma ShortIsToldByCalls(w: Writer, ops: seq<Op>, i: nat)
    requires i < |LogAfter(w, ops).records|
    ensures var s, n := LogAfter(w, ops), WindowNames(w, ops);
            |n| == |s.records| &&
            (n[i].sort == Visit ==>
               if LeftSince(ops, n[i].key) || CarriedOver(ops, n[i].key)
               then
                 && s.records[i].event == ShortRegion && s.records[i].signal < |s.regions|
                 && s.regions[s.records[i].signal].hash == n[i].key
               else s.records[i].event == RegionEntry && s.records[i].signal == n[i].key)
  {
    var s := LogAfter(w, ops);
    PendingIsToldByCalls(w, ops);
    MapIsFromCalls(w, ops);
    var n := WindowNames(w, ops);
    assert n[i] == NameOf(s.records[i], s.regions);
    hide LogAfter, WindowNames, LeftSince, CarriedOver, Absorbs;
    assert RecordLinked(s, i);
    assert Agrees(s, ops, n[i].key);
    if n[i].sort == Visit {
      assert EntryLinked(s, n[i].key);
    }
  }
}
