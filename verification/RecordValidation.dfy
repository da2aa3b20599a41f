/** The check that the sampler puts every record through, and why no disciplined application ever fails it. */
module RecordValidation {
  import opened Common
  import opened Records
  import opened RecordLogModel
  import opened RecordLogRuns
  import opened RecordLogStreams
  import M = EpochStateMachine
  import opened EpochRecordFilter

  const HASH_MAX := 0xFFFF_FFFF   // UINT32_MAX

  // The single-bit hints, from 1 << 32 to 1 << 40.
  const HINTS: set<nat> := {0x1_0000_0000, 0x2_0000_0000, 0x4_0000_0000, 0x8_0000_0000, 0x10_0000_0000,
                            0x20_0000_0000, 0x40_0000_0000, 0x80_0000_0000, 0x100_0000_0000}

  datatype Checker = Checker(isEmpty: bool, time: int, process: int, epochs: nat, region: nat)

  const FRESH := Checker(true, 0, -1, 0, HASH_INVALID)

  /** The first record fixes the process. */
  function Begun(v: Checker, r: Record): Checker {
    if v.isEmpty then Checker(false, r.time, r.process, 0, HASH_INVALID) else v
  }

  predicate ValidHash(hash: nat) { hash != HASH_INVALID && hash <= HASH_MAX }

  predicate EventFits(v: Checker, r: Record) {
    match r.event
    case Hint => r.signal in HINTS
    case RegionEntry => ValidHash(r.signal) && v.region == HASH_INVALID
    case RegionExit => ValidHash(r.signal) && v.region != HASH_INVALID && r.signal == v.region
    case EpochCount => r.signal == v.epochs + 1
    case _ => true
  }

  predicate Accepts(v0: Checker, r: Record) {
    var v := Begun(v0, r);
    r.process == v.process && v.time <= r.time && EventFits(v, r)
  }

  /** The state after a record, also when it is refused. */
  function Next(v0: Checker, r: Record): Checker {
    var v := Begun(v0, r);
    if r.process != v.process || r.time < v.time then v
    else if !EventFits(v, r) then v.(time := r.time)
    else
      match r.event
      case RegionEntry => v.(time := r.time, region := r.signal)
      case RegionExit => v.(time := r.time, region := HASH_INVALID)
      case EpochCount => v.(time := r.time, epochs := r.signal)
      case _ => v.(time := r.time)
  }

  class ValidateRecord {
    var isEmpty: bool
    var time: int
    var process: int
    var epochCount: nat
    var regionHash: nat

    function State(): Checker
      reads this
    {
      Checker(isEmpty, time, process, epochCount, regionHash)
    }

    constructor ()
      ensures State() == FRESH
    {
      isEmpty, time, process, epochCount, regionHash := true, 0, -1, 0, HASH_INVALID;
    }

    method Check(record: Record) returns (o: Outcome)
      modifies this
      ensures o == if Accepts(old(State()), record) then Pass else Fail(InvalidArgument)
      ensures State() == Next(old(State()), record)
    {
      if isEmpty {
        time, process, epochCount, regionHash := record.time, record.process, 0, HASH_INVALID;
        isEmpty := false;
      }
      if record.process != process {
        return Fail(InvalidArgument);
      }
      if record.time < time {
        return Fail(InvalidArgument);
      }
      time := record.time;
      match record.event {
        case Hint =>
          if record.signal !in HINTS {
            return Fail(InvalidArgument);
          }
        case RegionEntry =>
          if !ValidHash(record.signal) || regionHash != HASH_INVALID {
            return Fail(InvalidArgument);
          }
          regionHash := record.signal;
        case RegionExit =>
          if !ValidHash(record.signal) || regionHash == HASH_INVALID || record.signal != regionHash {
            return Fail(InvalidArgument);
          }
          regionHash := HASH_INVALID;
        case EpochCount =>
          if record.signal != epochCount + 1 {
            return Fail(InvalidArgument);
          }
          epochCount := record.signal;
        case _ =>
      }
      return Pass;
    }
  }

  // ----- whole streams

  function CheckedBy(v: Checker, rs: seq<Record>): Checker {
    if rs == [] then v else Next(CheckedBy(v, rs[..|rs| - 1]), rs[|rs| - 1])
  }

  /** Every record of the stream is accepted in its turn. */
  predicate AllAccepted(v: Checker, rs: seq<Record>) {
    rs == [] || (AllAccepted(v, rs[..|rs| - 1]) && Accepts(CheckedBy(v, rs[..|rs| - 1]), rs[|rs| - 1]))
  }

  /** Checking dump by dump is checking the whole stream. */
  lemma {:induction false} CheckInParts(v: Checker, a: seq<Record>, b: seq<Record>)
    ensures CheckedBy(v, a + b) == CheckedBy(CheckedBy(v, a), b)
    ensures AllAccepted(v, a + b) <==> AllAccepted(v, a) && AllAccepted(CheckedBy(v, a), b)
    decreases |b|
  {
    hide Next, Accepts;
    if b == [] {
      assert a + b == a;
    } else {
      assert (a + b)[..|a + b| - 1] == a + b[..|b| - 1];
      CheckInParts(v, a, b[..|b| - 1]);
    }
  }

  /** A record that this process may have produced at `latest` or earlier. */
  predicate Plausible(process: int, latest: int, r: Record) {
    && r.process == process && r.time <= latest && r.event != Hint
    && (r.event == RegionEntry || r.event == RegionExit ==> ValidHash(r.signal))
  }

  ghost predicate TimesGrow(rs: seq<Record>) {
    forall i :: 0 < i < |rs| ==> rs[i - 1].time <= rs[i].time
  }

  /** What a stream needs to be accepted, apart from its regions. */
  ghost predicate Stamped(process: int, latest: int, rs: seq<Record>) {
    && (forall i :: 0 <= i < |rs| ==> Plausible(process, latest, rs[i]))
    && TimesGrow(rs)
    && CountsTo(EpochSignals(rs), |EpochSignals(rs)|)
  }

  lemma EpochPush(rs: seq<Record>, r: Record)
    ensures EpochSignals(rs + [r]) == EpochSignals(rs) + if IsEpoch(r) then [r.signal] else []
  {
    assert (rs + [r])[..|rs|] == rs;
  }

  lemma StampedInit(process: int, latest: int, rs: seq<Record>, r: Record)
    requires Stamped(process, latest, rs + [r])
    ensures Stamped(process, latest, rs)
    ensures IsEpoch(r) ==> r.signal == |EpochSignals(rs)| + 1
    ensures rs != [] ==> rs[|rs| - 1].time <= r.time
    ensures Plausible(process, latest, r)
  {
    var all := rs + [r];
    EpochPush(rs, r);
    forall i | 0 <= i < |rs| ensures Plausible(process, latest, rs[i]) {
      assert all[i] == rs[i];
    }
    forall i | 0 < i < |rs| ensures rs[i - 1].time <= rs[i].time {
      assert all[i - 1] == rs[i - 1] && all[i] == rs[i];
    }
    forall i | 0 <= i < |EpochSignals(rs)| ensures EpochSignals(rs)[i] == i + 1 {
      assert EpochSignals(all)[i] == EpochSignals(rs)[i];
    }
    assert all[|rs|] == r;
    if IsEpoch(r) {
      assert EpochSignals(all)[|EpochSignals(rs)|] == r.signal;
    }
  }

  /** A stream of plausible records with growing times, numbered epochs and paired regions is accepted. */
  lemma {:induction false} PairedIsAccepted(process: int, latest: int, rs: seq<Record>)
    requires Stamped(process, latest, rs) && Paired(EraseEpochs(rs))
    ensures AllAccepted(FRESH, rs)
    ensures var v, p := CheckedBy(FRESH, rs), EraseEpochs(rs);
            rs != [] ==>
              && !v.isEmpty && v.process == process && v.time == rs[|rs| - 1].time && v.epochs == |EpochSignals(rs)|
              && v.region == (if EndsInEntry(p) then p[|p| - 1].signal else HASH_INVALID)
  {
    hide Stamped, Paired, EraseEpochs, EpochSignals, Accepts, Next;
    if rs != [] {
      var init, r := rs[..|rs| - 1], rs[|rs| - 1];
      assert rs == init + [r];
      StampedInit(process, latest, init, r);
      PairedInit(init, r);
      PairedIsAccepted(process, latest, init);
      EpochPush(init, r);
      NothingYet();
      AcceptNext(process, latest, CheckedBy(FRESH, init), EraseEpochs(init), r, |EpochSignals(init)|, init == []);
    }
  }

  lemma NothingYet()
    ensures EraseEpochs([]) == [] && EpochSignals([]) == []
  {
  }

  /** One accepted record. */
  lemma AcceptNext(process: int, latest: int, v: Checker, p: seq<Record>, r: Record, epochs: nat, first: bool)
    requires Plausible(process, latest, r) && (IsEpoch(r) ==> r.signal == epochs + 1)
    requires first ==> v == FRESH && p == [] && epochs == 0
    requires !first ==>
               && !v.isEmpty && v.process == process && v.time <= r.time && v.epochs == epochs
               && v.region == (if EndsInEntry(p) then p[|p| - 1].signal else HASH_INVALID)
    requires !IsEpoch(r) ==> Follows(p, r)
    ensures Accepts(v, r)
    ensures var n, q := Next(v, r), if IsEpoch(r) then p else p + [r];
            && !n.isEmpty && n.process == process && n.time == r.time &&
               n.epochs == epochs + (if IsEpoch(r) then 1 else 0)
            && n.region == (if EndsInEntry(q) then q[|q| - 1].signal else HASH_INVALID)
  {
  }

  lemma PairedInit(init: seq<Record>, r: Record)
    requires Paired(EraseEpochs(init + [r]))
    ensures Paired(EraseEpochs(init))
    ensures EraseEpochs(init + [r]) == if IsEpoch(r) then EraseEpochs(init) else EraseEpochs(init) + [r]
    ensures !IsEpoch(r) ==> Follows(EraseEpochs(init), r)
  {
    hide EraseEpochs, Paired, Follows;
    var p := EraseEpochs(init);
    ErasePush(init, r);
    if IsEpoch(r) {
      assert p + [] == p;
    } else {
      PairedPrefix(p, [r]);
      PairedLast(p, r);
    }
  }

  /** How the last record of a paired stream fits the ones before it. */
  predicate Follows(p: seq<Record>, r: Record) {
    && (IsEntry(r) ==> !EndsInEntry(p))
    && (IsExit(r) ==> EndsInEntry(p) && p[|p| - 1].signal == r.signal)
    && (EndsInEntry(p) ==> IsExit(r))
  }

  lemma PairedLast(p: seq<Record>, r: Record)
    requires Paired(p + [r])
    ensures Follows(p, r)
  {
    var q := p + [r];
    assert q[|p|] == r;
    if p != [] {
      assert q[|p| - 1] == p[|p| - 1];
    }
  }

  // ----- what the log writes

  function TimeOf(op: Op, latest: int): int {
    match op
    case EnterOp(hash, time) => time
    case ExitOp(hash, time) => time
    case EpochOp(time) => time
    case DumpOp => latest
  }

  /** The time of the latest call. */
  function LatestCall(ops: seq<Op>, start: int): int {
    if ops == [] then start else TimeOf(ops[|ops| - 1], LatestCall(ops[..|ops| - 1], start))
  }

  /** The clock does not run backwards, and region hashes are 32 bits wide. */
  predicate Disciplined(ops: seq<Op>, start: int) {
    ops == [] ||
    var init, last := ops[..|ops| - 1], ops[|ops| - 1];
    && Disciplined(init, start) && LatestCall(init, start) <= TimeOf(last, LatestCall(init, start))
    && (last.EnterOp? || last.ExitOp? ==> ValidHash(last.hash))
  }

  lemma PushStamped(process: int, latest: int, rs: seq<Record>, r: Record)
    requires Stamped(process, latest, rs) && Plausible(process, r.time, r) && latest <= r.time
    requires IsEpoch(r) ==> r.signal == |EpochSignals(rs)| + 1
    ensures Stamped(process, r.time, rs + [r])
    ensures |EpochSignals(rs + [r])| == |EpochSignals(rs)| + if IsEpoch(r) then 1 else 0
  {
    hide EpochSignals;
    EpochPush(rs, r);
  }

  lemma {:induction false} SignalsUpdate(rs: seq<Record>, i: nat, r: Record)
    requires i < |rs| && !IsEpoch(rs[i]) && !IsEpoch(r)
    ensures EpochSignals(rs[i := r]) == EpochSignals(rs)
  {
    var init := rs[..|rs| - 1];
    if i < |init| {
      assert rs[i := r][..|rs| - 1] == init[i := r];
      SignalsUpdate(init, i, r);
    } else {
      assert rs[i := r][..|rs| - 1] == init;
    }
  }

  /** Turning an entry into a short region record keeps its time and its process. */
  lemma ReplaceStamped(process: int, latest: int, rs: seq<Record>, i: nat, r: Record)
    requires Stamped(process, latest, rs) && i < |rs| && rs[i].event == RegionEntry && r.event == ShortRegion
    requires r.time == rs[i].time && r.process == rs[i].process
    ensures Stamped(process, latest, rs[i := r]) && EpochSignals(rs[i := r]) == EpochSignals(rs)
  {
    hide EpochSignals;
    SignalsUpdate(rs, i, r);
    assert Plausible(process, latest, rs[i]);
  }

  lemma LaterStamped(process: int, latest: int, later: int, rs: seq<Record>)
    requires Stamped(process, latest, rs) && latest <= later
    ensures Stamped(process, later, rs)
  {
    hide EpochSignals;
    forall i | 0 <= i < |rs| ensures Plausible(process, later, rs[i]) {
      assert Plausible(process, latest, rs[i]);
    }
  }

  /** Everything written so far, delivered or pending. */
  function Written(w: Writer, ops: seq<Op>): seq<Record> {
    Delivered(Dumps(w, ops)) + LogAfter(w, ops).records
  }

  lemma {:induction false} RunsAreStamped(w: Writer, ops: seq<Op>, start: int)
    requires Disciplined(ops, start)
    ensures Stamped(w.process, LatestCall(ops, start) - w.timeZero, Written(w, ops))
    ensures |EpochSignals(Written(w, ops))| == LogAfter(w, ops).epochCount
  {
    hide LogAfter, Dumps, Written, Stamped, Step, EpochSignals, Delivered, Disciplined, LatestCall, TimeOf;
    if ops == [] {
      NothingWritten(w, LatestCall(ops, start) - w.timeZero);
    } else {
      var init, last := ops[..|ops| - 1], ops[|ops| - 1];
      assert ops == init + [last];
      DisciplinedNext(init, last, start);
      RunsAreStamped(w, init, start);
      WrittenNext(w, init, last);
      WrittenIs(w, init);
      StepStamped(w, LogAfter(w, init), Delivered(Dumps(w, init)), last, LatestCall(init, start));
    }
  }

  lemma DisciplinedNext(init: seq<Op>, last: Op, start: int)
    requires Disciplined(init + [last], start)
    ensures Disciplined(init, start) && LatestCall(init + [last], start) == TimeOf(last, LatestCall(init, start))
    ensures LatestCall(init, start) <= TimeOf(last, LatestCall(init, start))
    ensures last.EnterOp? || last.ExitOp? ==> ValidHash(last.hash)
  {
    assert (init + [last])[..|init|] == init;
  }

  lemma NothingWritten(w: Writer, latest: int)
    ensures Stamped(w.process, latest, Written(w, [])) && |EpochSignals(Written(w, []))| == LogAfter(w, []).epochCount
  {
  }

  lemma WrittenIs(w: Writer, ops: seq<Op>)
    ensures Written(w, ops) == Delivered(Dumps(w, ops)) + LogAfter(w, ops).records
  {
  }

  lemma WrittenNext(w: Writer, init: seq<Op>, last: Op)
    ensures Written(w, init + [last])
         == if last.DumpOp? then Written(w, init)
           else Delivered(Dumps(w, init)) + Step(w, LogAfter(w, init), last).records
    ensures LogAfter(w, init + [last]) == Step(w, LogAfter(w, init), last)
  {
    hide Step;
    var s, dumps := LogAfter(w, init), Dumps(w, init);
    assert (init + [last])[..|init|] == init;
    if last.DumpOp? {
      assert Dumps(w, init + [last]) == dumps + [Dumped(s.records, s.regions)];
      assert (dumps + [Dumped(s.records, s.regions)])[..|dumps|] == dumps;
      DumpEmpties(w, s);
    } else {
      assert dumps + [] == dumps;
    }
  }

  lemma DumpEmpties(w: Writer, s: Log)
    requires WellFormed(s)
    ensures Step(w, s, DumpOp).records == []
  {
  }

  lemma StepStamped(w: Writer, s: Log, sent: seq<Record>, op: Op, latest: int)
    requires WellFormed(s) && Stamped(w.process, latest - w.timeZero, sent + s.records)
    requires |EpochSignals(sent + s.records)| == s.epochCount
    requires latest <= TimeOf(op, latest) && (op.EnterOp? || op.ExitOp? ==> ValidHash(op.hash))
    ensures var all := if op.DumpOp? then sent + s.records else sent + Step(w, s, op).records;
            && Stamped(w.process, TimeOf(op, latest) - w.timeZero, all)
            && |EpochSignals(all)| == Step(w, s, op).epochCount
  {
    var now := TimeOf(op, latest) - w.timeZero;
    LaterStamped(w.process, latest - w.timeZero, now, sent + s.records);
    ResetIsLinked(s);
    hide Stamped, Linked, EpochSignals;
    if op.DumpOp? {
    } else if op.ExitOp? && op.hash in Reset(s).enterMap {
      ExitShortStamped(w, Reset(s), sent, op.hash, op.time, now);
    } else {
      StepAppends(w, s, op);
      AppendStamped(w, s, sent, op, now);
    }
  }

  lemma AppendStamped(w: Writer, s: Log, sent: seq<Record>, op: Op, now: int)
    requires Stamped(w.process, now, sent + s.records) && |EpochSignals(sent + s.records)| == s.epochCount
    requires !op.DumpOp? && now == TimeOf(op, 0) - w.timeZero && (op.EnterOp? || op.ExitOp? ==> ValidHash(op.hash))
    ensures Stamped(w.process, now, sent + (s.records + Appended(w, s, op)))
    ensures |EpochSignals(sent + (s.records + Appended(w, s, op)))| == s.epochCount + if op.EpochOp? then 1 else 0
  {
    hide Stamped, EpochSignals;
    var more := Appended(w, s, op);
    if more == [] {
      assert s.records + more == s.records;
    } else {
      assert sent + (s.records + more) == (sent + s.records) + [more[0]];
      PushStamped(w.process, now, sent + s.records, more[0]);
    }
  }

  lemma ExitShortStamped(w: Writer, s: Log, sent: seq<Record>, hash: nat, time: int, now: int)
    requires Linked(s) && hash in s.enterMap && now == time - w.timeZero
    requires Stamped(w.process, now, sent + s.records)
    ensures var t := ExitShort(w, s, hash, time);
            Stamped(w.process, now, sent + t.records) &&
              EpochSignals(sent + t.records) == EpochSignals(sent + s.records)
  {
    assert EntryLinked(s, hash);
    var e, t := s.enterMap[hash], ExitShort(w, s, hash, time);
    var r := ExitShortRecords(w, s, hash, time);
    hide Stamped, ExitShort, Linked, EntryLinked, EpochSignals;
    if e.recordIdx == -1 {
      assert sent + (s.records + [r]) == (sent + s.records) + [r];
      PushStamped(w.process, now, sent + s.records, r);
      EpochPush(sent + s.records, r);
      assert EpochSignals(sent + s.records) + [] == EpochSignals(sent + s.records);
    } else if e.regionIdx == -1 {
      var i := |sent| + e.recordIdx;
      assert (sent + s.records)[i] == s.records[e.recordIdx];
      assert sent + s.records[e.recordIdx := r] == (sent + s.records)[i := r];
      ReplaceStamped(w.process, now, sent + s.records, i, r);
    }
  }

  lemma {:induction false} PrefixStamped(process: int, latest: int, p: seq<Record>, q: seq<Record>)
    requires Stamped(process, latest, p + q)
    ensures Stamped(process, latest, p)
    decreases |q|
  {
    hide Stamped;
    if q == [] {
      assert p + q == p;
    } else {
      var init, r := q[..|q| - 1], q[|q| - 1];
      assert p + q == (p + init) + [r];
      StampedInit(process, latest, p + init, r);
      PrefixStamped(process, latest, p, init);
    }
  }

  // ----- what the filter makes of it

  /** Filtering adds only epochs, each at the time of the entry it follows. */
  lemma {:induction false} FilteredIsStamped(p: M.Params, H: nat, process: int, latest: int, rs: seq<Record>)
    requires Stamped(process, latest, rs)
    ensures var f := FilterAll(p, H, [], rs);
            && (forall i :: 0 <= i < |f| ==> Plausible(process, if rs == [] then latest else rs[|rs| - 1].time, f[i]))
            && TimesGrow(f)
  {
    hide FilterOne, EpochSignals, EntryHashes;
    if rs != [] {
      var init, r := rs[..|rs| - 1], rs[|rs| - 1];
      assert rs == init + [r];
      StampedInit(process, latest, init, r);
      FilteredIsStamped(p, H, process, latest, init);
      OneIsStamped(p, H, [] + EntryHashes(init), process, latest, r);
      var f, g := FilterAll(p, H, [], init), FilterOne(p, H, [] + EntryHashes(init), r);
      JoinGrows(process, f, g, r.time);
    }
  }

  lemma OneIsStamped(p: M.Params, H: nat, before: seq<nat>, process: int, latest: int, r: Record)
    requires Plausible(process, latest, r)
    ensures var g := FilterOne(p, H, before, r);
            forall i :: 0 <= i < |g| ==> g[i].time == r.time && Plausible(process, r.time, g[i])
  {
    hide Marked, EpochsSoFar;
  }

  lemma JoinGrows(process: int, f: seq<Record>, g: seq<Record>, time: int)
    requires TimesGrow(f) && forall i :: 0 <= i < |f| ==> f[i].time <= time && Plausible(process, f[i].time, f[i])
    requires forall i :: 0 <= i < |g| ==> g[i].time == time && Plausible(process, time, g[i])
    ensures TimesGrow(f + g) && forall i :: 0 <= i < |f + g| ==> Plausible(process, time, (f + g)[i])
  {
  }

  // ----- no disciplined application is refused

  /** If at most one region is open at a time, the clock does not run backwards and hashes are 32 bits wide,
      then the sampler's check accepts every record of every dump, in the order of delivery. */
  lemma DeliveredIsAccepted(w: Writer, ops: seq<Op>, start: int)
    requires OneAtATime(ops) && Disciplined(ops, start)
    ensures AllAccepted(FRESH, Delivered(Dumps(w, ops)))
  {
    hide LogAfter, Dumps, Delivered, Stamped, AllAccepted, EraseEpochs, Paired;
    var latest := LatestCall(ops, start) - w.timeZero;
    RunsAreStamped(w, ops, start);
    PrefixStamped(w.process, latest, Delivered(Dumps(w, ops)), LogAfter(w, ops).records);
    DumpsAreWellShaped(w, ops);
    PairedIsAccepted(w.process, latest, Delivered(Dumps(w, ops)));
  }

  /** The same holds behind the epoch filter, whatever epochs it erases and adds. */
  lemma FilteredIsAccepted(w: Writer, ops: seq<Op>, start: int, p: M.Params, H: nat)
    requires OneAtATime(ops) && Disciplined(ops, start)
    ensures AllAccepted(FRESH, FilterAll(p, H, [], Delivered(Dumps(w, ops))))
  {
    hide LogAfter, Dumps, Delivered, AllAccepted, EraseEpochs, Paired, FilterAll, EpochSignals;
    var latest, rs := LatestCall(ops, start) - w.timeZero, Delivered(Dumps(w, ops));
    RunsAreStamped(w, ops, start);
    PrefixStamped(w.process, latest, rs, LogAfter(w, ops).records);
    DumpsAreWellShaped(w, ops);
    FilteredIsStamped(p, H, w.process, latest, rs);
    OnlyEpochsChange(p, H, [], rs);
    EpochsAreNumbered(p, H, rs);
    PairedIsAccepted(w.process, if rs == [] then latest else rs[|rs| - 1].time, FilterAll(p, H, [], rs));
  }

  /** Filtering dump by dump is filtering the whole stream. */
  lemma {:induction false} FilterInParts(p: M.Params, H: nat, before: seq<nat>, a: seq<Record>, b: seq<Record>)
    ensures FilterAll(p, H, before, a + b) == FilterAll(p, H, before, a) + FilterAll(p, H, before + EntryHashes(a), b)
    ensures EntryHashes(a + b) == EntryHashes(a) + EntryHashes(b)
    decreases |b|
  {
    hide FilterOne;
    if b == [] {
      assert a + b == a;
    } else {
      var init, r := b[..|b| - 1], b[|b| - 1];
      assert (a + b)[..|a + b| - 1] == a + init;
      FilterInParts(p, H, before, a, init);
      assert before + EntryHashes(a) + EntryHashes(init) == before + (EntryHashes(a) + EntryHashes(init));
    }
  }
}
