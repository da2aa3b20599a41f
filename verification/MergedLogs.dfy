/** The merge of what every process has logged into one record buffer and one short region buffer. */
module MergedLogs {
  import opened Records
  import opened RecordLogModel
  import opened EpochStateMachine
  import opened EpochRecordFilter

  // One process in one update: its dumped records, filtered if a filter is set, and its short regions.
  datatype Process = Process(records: seq<Record>, shortRegions: seq<ShortRegionInfo>)

  ghost predicate Indexed(p: Process) {
    SignalsCoverRegions(p.records, |p.shortRegions|)
  }

  function ShiftOne(r: Record, base: nat): Record {
    if r.event == ShortRegion then r.(signal := r.signal + base) else r
  }

  function Shift(records: seq<Record>, base: nat): (s: seq<Record>)
    ensures |s| == |records|
    ensures forall i :: 0 <= i < |s| ==> s[i] == ShiftOne(records[i], base)
  {
    seq(|records|, i requires 0 <= i < |records| => ShiftOne(records[i], base))
  }

  function MergedRegions(procs: seq<Process>): seq<ShortRegionInfo> {
    if procs == [] then [] else MergedRegions(procs[..|procs| - 1]) + procs[|procs| - 1].shortRegions
  }

  function MergedRecords(procs: seq<Process>): seq<Record> {
    if procs == [] then []
    else
      var init := procs[..|procs| - 1];
      MergedRecords(init) + Shift(procs[|procs| - 1].records, |MergedRegions(init)|)
  }

  function CountShort(records: seq<Record>): nat {
    if records == [] then 0
    else CountShort(records[..|records| - 1]) + if records[|records| - 1].event == ShortRegion then 1 else 0
  }

  lemma CountPush(records: seq<Record>, r: Record)
    ensures CountShort(records + [r]) == CountShort(records) + if r.event == ShortRegion then 1 else 0
  {
    assert (records + [r])[..|records|] == records;
  }

  lemma {:induction false} CountConcat(a: seq<Record>, b: seq<Record>)
    ensures CountShort(a + b) == CountShort(a) + CountShort(b)
  {
    if b == [] {
      assert a + b == a;
    } else {
      CountConcat(a, b[..|b| - 1]);
      assert (a + b)[..|a + b| - 1] == a + b[..|b| - 1];
    }
  }

  lemma {:induction false} NoneCounted(records: seq<Record>)
    ensures CountShort(records) == 0 <==> forall i :: 0 <= i < |records| ==> records[i].event != ShortRegion
  {
    if records != [] {
      NoneCounted(records[..|records| - 1]);
    }
  }

  /** A table indexed one to one has as many short region records as regions. */
  lemma {:induction false} CoverCounts(records: seq<Record>, n: nat)
    requires SignalsCoverRegions(records, n)
    ensures CountShort(records) == n
    decreases n
  {
    hide CountShort;
    if n == 0 {
      NoneCounted(records);
    } else {
      assert HasSignal(records, n - 1);
      var i :| 0 <= i < |records| && records[i].event == ShortRegion && records[i].signal == n - 1;
      WithoutLast(records, n, i);
      CoverCounts(records[..i] + records[i + 1..], n - 1);
      CountWithout(records, i);
    }
  }

  lemma CountWithout(records: seq<Record>, i: nat)
    requires i < |records| && records[i].event == ShortRegion
    ensures CountShort(records) == CountShort(records[..i] + records[i + 1..]) + 1
  {
    hide CountShort;
    var a, b := records[..i], records[i + 1..];
    CountConcat(a, b);
    CountConcat(a + [records[i]], b);
    CountPush(a, records[i]);
    assert a + [records[i]] + b == records;
  }

  lemma CountNext(records: seq<Record>, k: nat)
    requires k < |records|
    ensures CountShort(records[..k + 1]) == CountShort(records[..k]) + if records[k].event == ShortRegion then 1 else 0
    ensures CountShort(records[..k + 1]) <= CountShort(records)
  {
    hide CountShort;
    assert records[..k + 1] == records[..k] + [records[k]];
    CountPush(records[..k], records[k]);
    CountConcat(records[..k + 1], records[k + 1..]);
    assert records[..k + 1] + records[k + 1..] == records;
  }

  lemma NoneLeft(records: seq<Record>, k: nat)
    requires k <= |records| && CountShort(records[..k]) == CountShort(records)
    ensures forall x :: k <= x < |records| ==> records[x].event != ShortRegion
  {
    hide CountShort;
    var rest := records[k..];
    CountConcat(records[..k], rest);
    assert records[..k] + rest == records;
    NoneCounted(rest);
    forall x | k <= x < |records| ensures records[x].event != ShortRegion {
      assert rest[x - k] == records[x];
    }
  }

  lemma WithoutLast(records: seq<Record>, n: nat, i: nat)
    requires SignalsCoverRegions(records, n) && n > 0
    requires i < |records| && records[i].event == ShortRegion && records[i].signal == n - 1
    ensures SignalsCoverRegions(records[..i] + records[i + 1..], n - 1)
  {
    var rest := records[..i] + records[i + 1..];
    forall k | 0 <= k < |rest| && rest[k].event == ShortRegion ensures rest[k].signal < n - 1 {
      var k' := if k < i then k else k + 1;
      assert rest[k] == records[k'];
    }
    forall k, l | 0 <= k < l < |rest| && rest[k].event == ShortRegion && rest[l].event == ShortRegion
      ensures rest[k].signal != rest[l].signal
    {
      var k', l' := if k < i then k else k + 1, if l < i then l else l + 1;
      assert rest[k] == records[k'] && rest[l] == records[l'];
    }
    forall j | 0 <= j < n - 1 ensures HasSignal(rest, j) {
      assert HasSignal(records, j);
      var k :| 0 <= k < |records| && records[k].event == ShortRegion && records[k].signal == j;
      var k' := if k < i then k else k - 1;
      assert rest[k'] == records[k];
    }
  }

  lemma MergedStep(procs: seq<Process>, k: nat)
    requires k < |procs|
    ensures MergedRegions(procs[..k + 1]) == MergedRegions(procs[..k]) + procs[k].shortRegions
    ensures MergedRecords(procs[..k + 1])
         == MergedRecords(procs[..k]) + Shift(procs[k].records, |MergedRegions(procs[..k])|)
  {
    assert procs[..k + 1][..k] == procs[..k];
  }

  /** The whole buffer when the signals of the first `i` new records have been moved. */
  ghost function Buffer(earlier: seq<Record>, records: seq<Record>, base: nat, i: nat): (s: seq<Record>)
    requires i <= |records|
    ensures |s| == |earlier| + |records|
  {
    earlier + Partly(records, base, i)
  }

  /** The records with the signals of the first `i` moved. */
  ghost function Partly(records: seq<Record>, base: nat, i: nat): (s: seq<Record>)
    requires i <= |records|
    ensures |s| == |records|
  {
    Shift(records[..i], base) + records[i..]
  }

  lemma PartlyNext(records: seq<Record>, base: nat, i: nat)
    requires i < |records|
    ensures Partly(records, base, i)[i] == records[i]
    ensures Partly(records, base, i + 1) == Partly(records, base, i)[i := ShiftOne(records[i], base)]
  {
  }

  lemma PartlyEnds(records: seq<Record>, base: nat, i: nat)
    requires i <= |records|
    ensures i == 0 ==> Partly(records, base, i) == records
    ensures (forall x :: i <= x < |records| ==> records[x].event != ShortRegion) ==>
              Partly(records, base, i) == Shift(records, base)
  {
  }

  lemma ReindexStart(earlier: seq<Record>, records: seq<Record>, n: nat, base: nat)
    requires SignalsCoverRegions(records, n)
    ensures n == CountShort(records) - CountShort(records[..0])
    ensures Buffer(earlier, records, base, 0) == earlier + records
  {
    CoverCounts(records, n);
    NoneCounted([]);
    PartlyEnds(records, base, 0);
    assert records[..0] == [];
    hide CountShort, SignalsCoverRegions, Partly, Shift;
  }

  lemma ReindexNext(earlier: seq<Record>, records: seq<Record>, base: nat, i: nat)
    requires i < |records|
    ensures var buffer, next := Buffer(earlier, records, base, i), Buffer(earlier, records, base, i + 1);
            var r := records[i];
            && |buffer| == |earlier| + |records| && buffer[|earlier| + i] == r
            && next == if r.event == ShortRegion then buffer[|earlier| + i := r.(signal := r.signal + base)] else buffer
  {
    PartlyNext(records, base, i);
    UpdateTail(earlier, Partly(records, base, i), i, ShiftOne(records[i], base));
    hide Partly, Shift;
  }

  lemma ReindexEnd(earlier: seq<Record>, records: seq<Record>, base: nat, i: nat)
    requires i <= |records| && (i == |records| || CountShort(records[..i]) == CountShort(records))
    ensures Buffer(earlier, records, base, i) == earlier + Shift(records, base)
  {
    assert records[..|records|] == records;
    NoneLeft(records, i);
    PartlyEnds(records, base, i);
  }

  lemma UpdateTail(p: seq<Record>, q: seq<Record>, i: nat, r: Record)
    requires i < |q|
    ensures (p + q)[|p| + i] == q[i] && (p + q)[|p| + i := r] == p + q[i := r]
    ensures r == q[i] ==> q[i := r] == q
  {
  }

  // ----- what the merged buffers mean

  lemma CoverConcat(a: seq<Record>, n: nat, b: seq<Record>, m: nat)
    requires SignalsCoverRegions(a, n) && SignalsCoverRegions(b, m)
    ensures SignalsCoverRegions(a + Shift(b, n), n + m)
  {
    var c := a + Shift(b, n);
    forall j | 0 <= j < n + m ensures HasSignal(c, j) {
      if j < n {
        assert HasSignal(a, j);
        var i :| 0 <= i < |a| && a[i].event == ShortRegion && a[i].signal == j;
        assert c[i] == a[i];
      } else {
        assert HasSignal(b, j - n);
        var i :| 0 <= i < |b| && b[i].event == ShortRegion && b[i].signal == j - n;
        assert c[|a| + i] == ShiftOne(b[i], n);
      }
    }
  }

  /** The merged signals cover the merged short region buffer exactly once. */
  lemma {:induction false} MergedIsIndexed(procs: seq<Process>)
    requires forall p :: p in procs ==> Indexed(p)
    ensures SignalsCoverRegions(MergedRecords(procs), |MergedRegions(procs)|)
  {
    if procs != [] {
      var init, last := procs[..|procs| - 1], procs[|procs| - 1];
      MergedIsIndexed(init);
      assert Indexed(last);
      CoverConcat(MergedRecords(init), |MergedRegions(init)|, last.records, |last.shortRegions|);
      hide SignalsCoverRegions;
    }
  }

  /** Where the records of process `i` start in the merged buffer. */
  function Start(procs: seq<Process>, i: nat): nat
    requires i <= |procs|
  {
    |MergedRecords(procs[..i])|
  }

  /** Each short region record of the merged buffer selects its own process's region; all other records
      are passed on unchanged. */
  lemma {:induction false} MergedSelects(procs: seq<Process>, i: nat, k: nat)
    requires forall p :: p in procs ==> Indexed(p)
    requires i < |procs| && k < |procs[i].records|
    ensures Start(procs, i) + k < |MergedRecords(procs)|
    ensures var r, merged := procs[i].records[k], MergedRecords(procs)[Start(procs, i) + k];
            if r.event == ShortRegion then
              && r.signal < |procs[i].shortRegions|
              && merged == r.(signal := merged.signal)
              && merged.signal < |MergedRegions(procs)|
              && MergedRegions(procs)[merged.signal] == procs[i].shortRegions[r.signal]
            else merged == r
    decreases |procs|
  {
    var init, last := procs[..|procs| - 1], procs[|procs| - 1];
    assert Indexed(procs[i]);
    if i < |init| {
      MergedSelects(init, i, k);
      assert init[..i] == procs[..i];
    } else {
      assert procs[..i] == init;
    }
  }

  // ----- filtering keeps the index

  function ShortSignals(records: seq<Record>): seq<nat> {
    if records == [] then []
    else
      var r := records[|records| - 1];
      ShortSignals(records[..|records| - 1]) + if r.event == ShortRegion then [r.signal] else []
  }

  ghost predicate IsPermutation(s: seq<nat>, n: nat) {
    && (forall i :: 0 <= i < |s| ==> s[i] < n)
    && (forall i, k :: 0 <= i < k < |s| ==> s[i] != s[k])
    && (forall j :: 0 <= j < n ==> j in s)
  }

  lemma {:induction false} SignalsAt(records: seq<Record>, i: nat) returns (k: nat)
    requires i < |records| && records[i].event == ShortRegion
    ensures k < |ShortSignals(records)| && ShortSignals(records)[k] == records[i].signal
    ensures k == |ShortSignals(records[..i])|
  {
    var init := records[..|records| - 1];
    if i < |init| {
      k := SignalsAt(init, i);
      assert init[..i] == records[..i];
    } else {
      k := |ShortSignals(init)|;
    }
  }

  lemma {:induction false} RecordAt(records: seq<Record>, k: nat) returns (i: nat)
    requires k < |ShortSignals(records)|
    ensures i < |records| && records[i].event == ShortRegion && records[i].signal == ShortSignals(records)[k]
    ensures k == |ShortSignals(records[..i])|
  {
    var init := records[..|records| - 1];
    if k < |ShortSignals(init)| {
      i := RecordAt(init, k);
      assert init[..i] == records[..i];
    } else {
      i := |init|;
    }
  }

  lemma {:induction false} SignalsPrefix(records: seq<Record>, i: nat, k: nat)
    requires i < k <= |records| && records[i].event == ShortRegion
    ensures |ShortSignals(records[..i])| < |ShortSignals(records[..k])|
    decreases k
  {
    assert records[..k][..k - 1] == records[..k - 1];
    if i < k - 1 {
      SignalsPrefix(records, i, k - 1);
    }
  }

  lemma CoverIsPermutation(records: seq<Record>, n: nat)
    ensures SignalsCoverRegions(records, n) <==> IsPermutation(ShortSignals(records), n)
  {
    var s := ShortSignals(records);
    if SignalsCoverRegions(records, n) {
      forall k | 0 <= k < |s| ensures s[k] < n {
        var i := RecordAt(records, k);
      }
      forall k, l | 0 <= k < l < |s| ensures s[k] != s[l] {
        var i := RecordAt(records, k);
        var j := RecordAt(records, l);
        assert i != j;
      }
      forall j | 0 <= j < n ensures j in s {
        assert HasSignal(records, j);
        var i :| 0 <= i < |records| && records[i].event == ShortRegion && records[i].signal == j;
        var k := SignalsAt(records, i);
      }
    }
    if IsPermutation(s, n) {
      forall i | 0 <= i < |records| && records[i].event == ShortRegion ensures records[i].signal < n {
        var k := SignalsAt(records, i);
      }
      forall i, j | 0 <= i < j < |records| && records[i].event == ShortRegion && records[j].event == ShortRegion
        ensures records[i].signal != records[j].signal
      {
        var k := SignalsAt(records, i);
        var l := SignalsAt(records, j);
        SignalsPrefix(records, i, j);
      }
      forall j | 0 <= j < n ensures HasSignal(records, j) {
        assert j in s;
        var k :| 0 <= k < |s| && s[k] == j;
        var i := RecordAt(records, k);
      }
    }
  }

  lemma {:induction false} SignalsErased(records: seq<Record>)
    ensures ShortSignals(EraseEpochs(records)) == ShortSignals(records)
  {
    if records != [] {
      var init, r := records[..|records| - 1], records[|records| - 1];
      SignalsErased(init);
      if !IsEpoch(r) {
        assert (EraseEpochs(init) + [r])[..|EraseEpochs(init)|] == EraseEpochs(init);
      } else {
        assert EraseEpochs(records) == EraseEpochs(init);
      }
    }
  }

  /** A filtered dump is still indexed one to one. */
  lemma FilteredIsIndexed(p: Params, H: nat, before: seq<nat>, d: Process)
    requires Indexed(d)
    ensures Indexed(d.(records := FilterAll(p, H, before, d.records)))
  {
    var filtered := FilterAll(p, H, before, d.records);
    OnlyEpochsChange(p, H, before, d.records);
    SignalsErased(filtered);
    SignalsErased(d.records);
    CoverIsPermutation(filtered, |d.shortRegions|);
    CoverIsPermutation(d.records, |d.shortRegions|);
    hide SignalsCoverRegions, IsPermutation, FilterAll;
  }
}
