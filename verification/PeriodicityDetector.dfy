/** The detector object: a history of region hashes and a flat three-dimensional
    table whose every index is taken modulo the history size. */
module PeriodicityDetector {
  import opened Arithmetic
  import opened Common
  import opened Words
  import opened EditDistance
  import opened CircularBuffers
  import opened Records
  import opened DetectorModel

  newtype uint32 = x: int | 0 <= x < 0x1_0000_0000

  // The largest history size whose cube is an int.
  const MAX_HISTORY := 1290

  /** The offset of a cell in the flat table. */
  function Didx(H: nat, ii: nat, jj: nat, mm: nat): (k: nat)
    requires H > 0
    ensures k < H * H * H
  {
    DidxInRange(H, ii % H, jj % H, mm % H);
    (ii % H) * H * H + (jj % H) * H + mm % H
  }

  lemma DidxInRange(H: nat, a: nat, b: nat, c: nat)
    requires a < H && b < H && c < H
    ensures 0 <= a * H * H + b * H + c < H * H * H
  {
    MulStep(b, H, H);
    MulStep(a, H, H * H);
    MulAssoc(a, H, H);
    MulAssoc(H, H, H);
    MulNonNegative(a, H * H);
    MulNonNegative(b, H);
  }

  /** Two index values that fall into the same row of the ring. */
  ghost predicate Same(H: nat, x: nat, y: nat)
    requires H > 0
  {
    x % H == y % H
  }

  lemma NearbyDiffer(H: nat)
    requires H > 0
    ensures forall x: nat, y: nat :: Same(H, x, y) ==> x == y || x >= y + H || y >= x + H
  {
    forall x: nat, y: nat | Same(H, x, y)
      ensures x == y || x >= y + H || y >= x + H
    {
      DivisionIdentity(x, H);
      DivisionIdentity(y, H);
      assert x - y == (x / H - y / H) * H by { assert (x / H - y / H) * H == (x / H) * H - (y / H) * H; }
      SmallMultiple(x / H - y / H, H);
    }
  }

  lemma DidxInjective(H: nat, ii: nat, jj: nat, mm: nat, a: nat, b: nat, c: nat)
    requires H > 0 && Didx(H, ii, jj, mm) == Didx(H, a, b, c)
    ensures Same(H, ii, a) && Same(H, jj, b) && Same(H, mm, c)
  {
    FlatInjective(H, ii % H, jj % H, mm % H, a % H, b % H, c % H);
  }

  lemma FlatInjective(H: nat, i: nat, j: nat, m: nat, a: nat, b: nat, c: nat)
    requires i < H && j < H && m < H && a < H && b < H && c < H
    requires i * H * H + j * H + m == a * H * H + b * H + c
    ensures i == a && j == b && m == c
  {
    MulNonNegative(i, H);
    MulNonNegative(a, H);
    RowInjective(H, i * H, j, m, a * H, b, c);
    SplitUnique(H, i, j, a, b);
  }

  lemma RowInjective(H: nat, x: nat, j: nat, m: nat, y: nat, b: nat, c: nat)
    requires m < H && c < H && x * H + j * H + m == y * H + b * H + c
    ensures x + j == y + b && m == c
  {
    MulDistribute(x, j, H);
    MulDistribute(y, b, H);
    SplitUnique(H, x + j, m, y + b, c);
  }

  lemma CubeIsNat(size: nat)
    ensures size * size * size >= 0
  {
    MulNonNegative(size, size);
    MulNonNegative(size * size, size);
  }

  class EditDistPeriodicityDetector {
    const history: CircularBuffer<nat>
    const historySize: nat
    var period: int
    var score: int
    var recordCount: nat
    const table: array<uint32>
    ghost var records: seq<nat>   // the hash of every region entry received

    // ----- the table

    ghost function At(ii: nat, jj: nat, mm: nat): uint32
      reads table
      requires TableShape()
    {
      table[Didx(historySize, ii, jj, mm)]
    }

    /** The value round `n` stored for row `ii` of block start `mm` is in place. */
    ghost predicate Holds(rec: seq<nat>, n: nat, ii: nat, mm: nat)
      reads table
      requires TableShape() && ii <= mm <= n <= |rec|
    {
      At(ii, n - mm, mm) as int == Cell(rec, historySize, ii, n - mm, mm)
    }

    ghost predicate TableShape()
      reads table
    {
      historySize > 0 && table.Length == historySize * historySize * historySize
    }

    /** Round |rec| reads block start `mm` and row `ii`: both are still inside the history,
        and no block starts before record 1. */
    ghost predicate Live(rec: seq<nat>, ii: nat, mm: nat) {
      1 <= mm && |rec| < mm + historySize && |rec| < ii + historySize && ii <= mm
    }

    /** Every row that round |rec| can read of the columns of round |rec| - 1. */
    ghost predicate OldColumns(rec: seq<nat>, from: nat, to: nat)
      reads table
      requires TableShape() && to <= |rec|
    {
      forall mm: nat, ii: nat :: from <= mm < to && Live(rec, ii, mm) ==> Holds(rec, |rec| - 1, ii, mm)
    }

    /** Every row that round |rec| can read of its own columns below block start `to`. */
    ghost predicate NewColumns(rec: seq<nat>, to: nat)
      reads table
      requires TableShape() && to <= |rec|
    {
      forall mm: nat, ii: nat :: mm < to && Live(rec, ii, mm) ==> Holds(rec, |rec|, ii, mm)
    }

    /** Row 0 of the columns of round |rec|, while row 0 can still be read. */
    ghost predicate TopRow(rec: seq<nat>, from: nat, to: nat)
      reads table
      requires TableShape() && to <= |rec|
    {
      forall mm: nat :: from <= mm < to && Live(rec, 0, mm) ==> Holds(rec, |rec|, 0, mm)
    }

    /** Rows below `to` of column `mm` of round |rec|. */
    ghost predicate PartColumn(rec: seq<nat>, mm: nat, to: nat)
      reads table
      requires TableShape() && mm < |rec|
    {
      forall ii: nat :: ii < to && Live(rec, ii, mm) ==> Holds(rec, |rec|, ii, mm)
    }

    method Dset(ii: nat, jj: nat, mm: nat, val: uint32)
      requires TableShape()
      modifies table
      ensures At(ii, jj, mm) == val
      ensures forall a: nat, b: nat, c: nat ::
                At(a, b, c) == old(At(a, b, c)) ||
                (Same(historySize, ii, a) && Same(historySize, jj, b) && Same(historySize, mm, c))
    {
      var k := Didx(historySize, ii, jj, mm);
      table[k] := val;
      forall a: nat, b: nat, c: nat
        ensures At(a, b, c) == old(At(a, b, c)) ||
                (Same(historySize, ii, a) && Same(historySize, jj, b) && Same(historySize, mm, c))
      {
        if Didx(historySize, a, b, c) == k {
          DidxInjective(historySize, ii, jj, mm, a, b, c);
        }
      }
    }

    function Dget(ii: nat, jj: nat, mm: nat): uint32
      reads this, table
      requires TableShape()
    {
      if recordCount - ii < historySize && jj < historySize && recordCount - mm < historySize
      then table[Didx(historySize, ii, jj, mm)]
      else INFINITE as uint32
    }

    // ----- the object

    ghost predicate Valid()
      reads this, history, history.buffer, table
    {
      && history.Valid() && history.maxSize == historySize
      && historySize <= MAX_HISTORY
      && table.Length == historySize * historySize * historySize
      && history.sinceClear == records && recordCount == |records|
      && (historySize == 0 ==> records == [])
      && period == PeriodOf(records, historySize)
      && score == ScoreOf(records, historySize)
      && (historySize > 0 ==> NewColumns(records, |records|))
    }

    constructor (size: nat)
      requires size <= MAX_HISTORY
      ensures Valid() && historySize == size && records == []
      ensures fresh(history) && fresh(history.buffer) && fresh(table)
    {
      CubeIsNat(size);
      history := new CircularBuffer(size);
      historySize := size;
      period, score, recordCount := -1, -1, 0;
      table := new uint32[size * size * size](_ => 0);
      records := [];
    }

    /** Feeds one record; only region entries count. */
    method Update(record: Record) returns (o: Outcome)
      requires Valid()
      modifies this, history, history.buffer, table
      ensures Valid() && history.buffer == old(history.buffer)
      ensures o == if record.event.RegionEntry? && historySize == 0 then Fail(RuntimeError) else Pass
      ensures records == if record.event.RegionEntry? && o.Pass? then old(records) + [record.signal] else old(records)
      ensures ReportsTheBest()
    {
      o := Pass;
      if record.event.RegionEntry? {
        o := history.Insert(record.signal);
        if o.Pass? {
          recordCount := recordCount + 1;
          ghost var before := records;
          records := records + [record.signal];
          CarryColumns(before, records);
          CalcPeriod();
        }
      }
      ValidReports();
    }

    /** What is reported, without reference to the table. */
    ghost predicate ReportsTheBest()
      reads this
    {
      if |records| < 2 then period == score == -1 else exists b :: IsReport(records, historySize, b, score, period)
    }

    lemma ValidReports()
      requires Valid()
      ensures ReportsTheBest()
    {
      hide NewColumns, IsReport;
      if |records| >= 2 {
        ReportsBest(records, historySize);
      }
    }

    /** What the last round stored is what this round expects to find. */
    lemma CarryColumns(before: seq<nat>, rec: seq<nat>)
      requires TableShape() && before <= rec && |rec| == |before| + 1
      requires NewColumns(before, |before|)
      ensures OldColumns(rec, 0, |before|)
    {
      forall mm: nat, ii: nat | mm < |before| && Live(rec, ii, mm)
        ensures Holds(rec, |before|, ii, mm)
      {
        assert Live(before, ii, mm);
        assert Holds(before, |before|, ii, mm);
        CellPrefix(before, rec, historySize, ii, |before| - mm, mm);
      }
    }

    ghost predicate Ready()
      reads this, history, history.buffer, table
    {
      && history.Valid() && history.maxSize == historySize
      && 0 < historySize <= MAX_HISTORY && TableShape()
      && history.sinceClear == records && recordCount == |records| >= 2
    }

    /** The block of length 0 that starts at the newest record costs nothing. */
    method SetBaseRow()
      requires Ready() && OldColumns(records, 0, |records| - 1)
      modifies table
      ensures OldColumns(records, 0, |records|)
    {
      NearbyDiffer(historySize);
      hide Same, Cell, Didx;
      ghost var rec := records;
      var newest := recordCount - 1;
      for ii := Max(0, recordCount - historySize) to recordCount
        invariant OldColumns(rec, 0, newest)
        invariant forall i: nat :: i < ii && Live(rec, i, newest) ==> Holds(rec, newest, i, newest)
      {
        Dset(ii, 0, newest, 0);
        BaseRow(rec, historySize, ii, newest);
      }
    }

    /** Against no records at all, every record of a block has to be inserted. */
    method SetTopRow()
      requires Ready() && OldColumns(records, 0, |records|)
      modifies table
      ensures OldColumns(records, 0, |records|) && TopRow(records, 0, |records|)
    {
      NearbyDiffer(historySize);
      hide Same, Cell, Didx;
      ghost var rec := records;
      for mm := Max(0, recordCount - historySize) to recordCount
        invariant OldColumns(rec, 0, |rec|) && TopRow(rec, 0, mm)
      {
        Dset(0, recordCount - mm, mm, (recordCount - mm) as uint32);
        TopRowCell(rec, historySize, recordCount - mm, mm);
      }
    }

    /** Each guarded read returns the value last written for that very cell, although
        other cells share its place in the table over time. */
    lemma DgetReads(ii: nat, jj: nat, mm: nat)
      requires Ready() && ii <= mm && 1 <= mm && mm + jj <= |records|
      requires Live(records, ii, mm) ==> Holds(records, mm + jj, ii, mm)
      requires jj + mm == recordCount || jj + mm == recordCount - 1
      ensures Dget(ii, jj, mm) as int == Read(records, historySize, ii, jj, mm, |records|) <= INFINITE
    {
      hide Cell, Didx;
      if Live(records, ii, mm) && jj < historySize {
        CellAtMostLength(records, historySize, ii, jj, mm);
      }
    }

    /** The history holds the newest records. */
    lemma HistoryAt(i: nat)
      requires Ready() && i < |history.Contents()|
      ensures |history.Contents()| == Min(|records|, historySize)
      ensures history.Contents()[i] == records[|records| - |history.Contents()| + i]
    {
    }

    /** Extends every block by the newest record. */
    method FillColumns(newest: nat)
      requires Ready() && OldColumns(records, 0, |records|) && TopRow(records, 0, |records|)
      requires newest == records[|records| - 1]
      modifies table
      ensures NewColumns(records, |records|)
    {
      hide Cell, Didx;
      for mm := Max(1, recordCount - historySize) to recordCount
        invariant OldColumns(records, mm, |records|) && TopRow(records, mm, |records|)
        invariant NewColumns(records, mm)
      {
        FillColumn(mm, newest);
      }
    }

    /** Extends the block that starts at `mm`, against every row that can still be read. */
    method FillColumn(mm: nat, newest: nat)
      requires Ready() && 1 <= mm < |records| && recordCount <= mm + historySize && newest == records[|records| - 1]
      requires OldColumns(records, mm, |records|) && TopRow(records, mm, |records|) && NewColumns(records, mm)
      modifies table
      ensures OldColumns(records, mm + 1, |records|) && TopRow(records, mm + 1, |records|)
      ensures NewColumns(records, mm + 1)
    {
      NearbyDiffer(historySize);
      hide Same, Cell, Didx;
      ghost var rec := records;
      for ii := Max(1, recordCount - historySize) to mm + 1
        invariant OldColumns(rec, mm, |rec|) && TopRow(rec, mm + 1, |rec|)
        invariant NewColumns(rec, mm) && PartColumn(rec, mm, ii)
      {
        FillCell(ii, mm, newest);
      }
    }

    /** The penalty for pairing the newest record with record `ii` - 1. */
    method Compare(ii: nat, newest: nat) returns (term: uint32)
      requires Ready() && 1 <= ii < |records| && newest == records[|records| - 1]
      ensures term as int == Penalty(records, historySize, ii, |records|)
    {
      var numInHistory := history.Size();
      HistoryAt(0);
      // 1 for the newest record
      var entryAge := recordCount - (ii - 1);
      term := 2;
      if entryAge <= numInHistory {
        var compared := history.Value(numInHistory - entryAge);
        HistoryAt(numInHistory - entryAge);
        if compared.value == newest {
          term := 0;
        }
      }
    }

    /** The least of the three moves into a cell. */
    method FillCell(ii: nat, mm: nat, newest: nat)
      requires Ready() && 1 <= ii <= mm < |records| && newest == records[|records| - 1]
      requires Max(1, recordCount - historySize) <= ii && recordCount <= mm + historySize
      requires OldColumns(records, mm, |records|)
      requires PartColumn(records, mm, ii)
      modifies table
      ensures At(ii, recordCount - mm, mm) as int == Cell(records, historySize, ii, recordCount - mm, mm)
      ensures forall a: nat, b: nat, c: nat ::
                At(a, b, c) == old(At(a, b, c)) ||
                (Same(historySize, ii, a) && Same(historySize, recordCount - mm, b) && Same(historySize, mm, c))
    {
      var value := CellValue(ii, mm, newest);
      hide Same, Didx, Cell;
      Dset(ii, recordCount - mm, mm, value);
    }

    lemma NewRead(ii: nat, mm: nat, to: nat)
      requires Ready() && ii < to && ii <= mm && 1 <= mm < |records| && PartColumn(records, mm, to)
      ensures Dget(ii, recordCount - mm, mm) as int
           == Read(records, historySize, ii, recordCount - mm, mm, recordCount) <= INFINITE
    {
      hide Cell, Didx, Same;
      DgetReads(ii, recordCount - mm, mm);
    }

    lemma OldRead(ii: nat, mm: nat)
      requires Ready() && ii <= mm && 1 <= mm < |records| && OldColumns(records, mm, |records|)
      ensures Dget(ii, recordCount - mm - 1, mm) as int
           == Read(records, historySize, ii, recordCount - mm - 1, mm, recordCount) <= INFINITE
    {
      hide Cell, Didx, Same;
      DgetReads(ii, recordCount - mm - 1, mm);
    }

    lemma ReadsForCell(ii: nat, mm: nat)
      requires Ready() && 1 <= ii <= mm < |records|
      requires OldColumns(records, mm, |records|) && PartColumn(records, mm, ii)
      ensures var jj, n := recordCount - mm, recordCount;
              && Dget(ii - 1, jj, mm) as int == Read(records, historySize, ii - 1, jj, mm, n) <= INFINITE
              && Dget(ii, jj - 1, mm) as int == Read(records, historySize, ii, jj - 1, mm, n) <= INFINITE
              && Dget(ii - 1, jj - 1, mm) as int == Read(records, historySize, ii - 1, jj - 1, mm, n) <= INFINITE
    {
      hide Read, Cell, Dget, Live, Didx, OldColumns, PartColumn;
      NewRead(ii - 1, mm, ii);
      OldRead(ii, mm);
      OldRead(ii - 1, mm);
    }

    method CellValue(ii: nat, mm: nat, newest: nat) returns (value: uint32)
      requires Ready() && 1 <= ii <= mm < |records| && newest == records[|records| - 1]
      requires Max(1, recordCount - historySize) <= ii && recordCount <= mm + historySize
      requires OldColumns(records, mm, |records|)
      requires PartColumn(records, mm, ii)
      ensures value as int == Cell(records, historySize, ii, recordCount - mm, mm)
    {
      var term := Compare(ii, newest);
      var jj := recordCount - mm;
      ReadsForCell(ii, mm);
      CellIs(records, historySize, ii, jj, mm);
      hide Read, Cell, Penalty, Dget, Live, Didx, OldColumns, PartColumn;
      value := Min32(Min32(Dget(ii - 1, jj, mm) + 1, Dget(ii, jj - 1, mm) + 1), Dget(ii - 1, jj - 1, mm) + term);
    }

    lemma BlockRead(mm: nat)
      requires Ready() && NewColumns(records, |records|) && 1 <= mm < recordCount
      ensures Dget(mm, recordCount - mm, mm) as int == BlockScore(records, historySize, recordCount - mm)
    {
      hide Cell, Didx, Same;
      DgetReads(mm, recordCount - mm, mm);
    }

    /** Scans the block starts in the later half of the records. */
    method ChooseBlock() returns (bestm: nat, bestval: uint32)
      requires Ready() && NewColumns(records, |records|)
      ensures bestm < |records| && |records| - bestm == BestBlock(records, historySize)
      ensures bestval as int == BlockScore(records, historySize, |records| - bestm)
    {
      hide Cell, Didx, Same, Read, BlockScore, Dget, NewColumns, BestFrom;
      // (int)(n / 2.0 + 0.5)
      var mm := Max((recordCount + 1) / 2, recordCount - historySize);
      bestm := mm;
      BlockRead(mm);
      bestval := Dget(mm, recordCount - mm, mm);
      mm := mm + 1;
      while mm < recordCount
        invariant bestm < mm <= recordCount
        invariant bestval as int == BlockScore(records, historySize, recordCount - bestm)
        invariant BestFrom(records, historySize, recordCount - bestm, recordCount - mm + 1)
               == BestBlock(records, historySize)
      {
        BlockRead(mm);
        BestFromStep(records, historySize, recordCount - bestm, recordCount - mm + 1);
        var val := Dget(mm, recordCount - mm, mm);
        if val < bestval {
          bestval := val;
          bestm := mm;
        }
        mm := mm + 1;
      }
      BestFromStep(records, historySize, recordCount - bestm, recordCount - mm + 1);
    }

    /** The length of the shortest block that the history repeats from `sliceStart` on. */
    method FindSmallestRepeatingPattern(sliceStart: nat) returns (result: nat)
      requires history.Valid() && sliceStart <= |history.Contents()|
      ensures result == if sliceStart == |history.Contents()| then 1
                        else LeastRepeat(history.Contents()[sliceStart..])
    {
      var size := history.Size();
      if size == sliceStart {
        return 1;
      }
      var slice := history.MakeSlice(sliceStart, size);
      var recs := slice.value;
      assert recs == history.Contents()[sliceStart..];
      result := |recs|;
      var perfectMatch := false;
      var divMax := |recs| / 2 + 1;
      var div := 1;
      while !perfectMatch && div < divMax
        invariant 1 <= div <= divMax
        invariant if perfectMatch then IsLeastRepeat(recs, result) else result == |recs|
        invariant !perfectMatch ==> forall e :: 0 < e < div ==> !IsPowerOf(recs, e)
        decreases !perfectMatch, divMax - div
      {
        if |recs| % div == 0 {
          perfectMatch := GroupsEqual(recs, div);
          if perfectMatch {
            result := div;
          }
        }
        div := div + 1;
      }
      if !perfectMatch {
        NoProperDivisor(recs, divMax);
      }
      LeastRepeatUnique(recs, result, LeastRepeat(recs));
    }

    method CalcPeriod()
      requires history.Valid() && history.maxSize == historySize
      requires 0 < historySize <= MAX_HISTORY && TableShape()
      requires history.sinceClear == records && recordCount == |records| >= 1
      requires OldColumns(records, 0, |records| - 1)
      requires |records| == 1 ==> period == -1 && score == -1
      modifies this`period, this`score, table
      ensures Valid()
    {
      if recordCount < 2 {
        return;
      }
      hide Cell, Didx, Same, BlockScore, BestBlock, Period;
      var newest := Newest();
      UpdateTable(newest);
      var bestm, bestval := ChooseBlock();
      score := bestval as int;
      SetPeriod(bestm);
    }

    method UpdateTable(newest: nat)
      requires Ready() && OldColumns(records, 0, |records| - 1) && newest == records[|records| - 1]
      modifies table
      ensures NewColumns(records, |records|)
    {
      hide Cell, Didx, Same, OldColumns, NewColumns, TopRow;
      SetBaseRow();
      SetTopRow();
      FillColumns(newest);
    }

    method SetPeriod(bestm: nat)
      requires Ready() && bestm < |records| && |records| - bestm == BestBlock(records, historySize)
      modifies this`period
      ensures period == Period(records, historySize)
    {
      hide Cell, Didx, Same, LeastRepeat, BestBlock;
      var numInHistory := history.Size();
      var bestmReverseIndex := recordCount - bestm;
      HistoryTail(bestmReverseIndex);
      period := FindSmallestRepeatingPattern(numInHistory - bestmReverseIndex);
    }

    method Newest() returns (newest: nat)
      requires Ready()
      ensures newest == records[|records| - 1]
    {
      var numInHistory := history.Size();
      HistoryAt(0);
      HistoryAt(numInHistory - 1);
      var r := history.Value(numInHistory - 1);
      newest := r.value;
    }

    lemma HistoryTail(k: nat)
      requires Ready() && k <= Min(|records|, historySize)
      ensures |history.Contents()| == Min(|records|, historySize)
      ensures history.Contents()[|history.Contents()| - k..] == records[|records| - k..]
    {
    }
  }

  /** Whether all consecutive groups of `div` records are equal. */
  method GroupsEqual(recs: seq<nat>, div: nat) returns (perfectMatch: bool)
    requires 0 < div <= |recs| && |recs| % div == 0
    ensures perfectMatch <==> IsPowerOf(recs, div)
  {
    perfectMatch := true;
    var groupMax := |recs| / div;
    DivisionIdentity(|recs|, div);
    var group := 1;
    assert RepeatsUpTo(recs, div, 1) by { OneGroup(recs, div); }
    hide RepeatsUpTo, IsPowerOf;
    while perfectMatch && group < groupMax
      invariant 1 <= group
      invariant perfectMatch ==> group <= groupMax && RepeatsUpTo(recs, div, group)
      invariant !perfectMatch ==> !IsPowerOf(recs, div)
      decreases perfectMatch, groupMax - group
    {
      GroupBounds(group, groupMax, div);
      NextGroup(recs, div, group);
      if recs[div * (group - 1)..div * group] != recs[div * group..div * (group + 1)] {
        perfectMatch := false;
      }
      group := group + 1;
    }
    AllGroups(recs, div);
  }

  /** The first `groups` groups of `div` records repeat the first one. */
  ghost predicate RepeatsUpTo(w: seq<nat>, div: nat, groups: nat)
    requires 0 < div
  {
    groups * div <= |w| && forall i: nat :: i < groups * div ==> w[i] == w[i % div]
  }

  lemma OneGroup(w: seq<nat>, div: nat)
    requires 0 < div <= |w|
    ensures RepeatsUpTo(w, div, 1)
  {
    forall i: nat | i < 1 * div ensures w[i] == w[i % div] {
      ModUnique(i, div, 0, i);
    }
  }

  lemma AllGroups(w: seq<nat>, div: nat)
    requires 0 < div <= |w| && |w| % div == 0
    ensures RepeatsUpTo(w, div, |w| / div) <==> IsPowerOf(w, div)
  {
    DivisionIdentity(|w|, div);
  }

  lemma NextGroup(w: seq<nat>, div: nat, g: nat)
    requires 0 < div <= |w| && |w| % div == 0 && 1 <= g < |w| / div
    requires 0 <= div * (g - 1) <= div * g <= div * (g + 1) <= |w|
    requires RepeatsUpTo(w, div, g)
    ensures w[div * (g - 1)..div * g] == w[div * g..div * (g + 1)] ==> RepeatsUpTo(w, div, g + 1)
    ensures w[div * (g - 1)..div * g] != w[div * g..div * (g + 1)] ==> !IsPowerOf(w, div)
  {
    var lo, mid, hi := div * (g - 1), div * g, div * (g + 1);
    assert mid == lo + div && hi == mid + div && lo == (g - 1) * div && mid == g * div && hi == (g + 1) * div;
    GroupResidues(div, lo, g - 1);
    GroupResidues(div, mid, g);
    NextGroupAt(w, div, g, lo, mid, hi);
  }

  lemma GroupResidues(div: nat, lo: nat, g: nat)
    requires 0 < div && lo == g * div
    ensures forall i :: lo <= i < lo + div ==> i % div == i - lo
  {
    forall i | lo <= i < lo + div ensures i % div == i - lo {
      ModUnique(i, div, g, i - lo);
    }
  }

  lemma NextGroupAt(w: seq<nat>, div: nat, g: nat, lo: nat, mid: nat, hi: nat)
    requires 0 < div && mid == lo + div && hi == mid + div <= |w| && g * div == mid && (g + 1) * div == hi
    requires RepeatsUpTo(w, div, g)
    requires forall i :: lo <= i < mid ==> i % div == i - lo
    requires forall i :: mid <= i < hi ==> i % div == i - mid
    ensures w[lo..mid] == w[mid..hi] ==> RepeatsUpTo(w, div, g + 1)
    ensures w[lo..mid] != w[mid..hi] ==> !IsPowerOf(w, div)
  {
    var a, b := w[lo..mid], w[mid..hi];
    forall k | 0 <= k < div ensures a[k] == w[k] && b[k] == w[mid + k] {
      var i := lo + k;
      assert i % div == k && w[i] == w[i % div];
    }
    if a == b {
      forall i: nat | i < hi ensures w[i] == w[i % div] {
        if i >= mid {
          var k := i - mid;
          assert w[i] == b[k] == a[k] == w[k] && i % div == k;
        }
      }
    } else if IsPowerOf(w, div) {
      forall k | 0 <= k < div ensures a[k] == b[k] {
        var i := mid + k;
        assert i % div == k && w[i] == w[i % div];
      }
    }
  }

  lemma NoProperDivisor(w: seq<nat>, bound: nat)
    requires w != [] && bound == |w| / 2 + 1
    requires forall e :: 0 < e < bound ==> !IsPowerOf(w, e)
    ensures IsLeastRepeat(w, |w|)
  {
    WholeIsPower(w);
    forall e | 0 < e < |w| ensures !IsPowerOf(w, e) {
      if bound <= e {
        ModUnique(|w|, e, 1, |w| - e);
      }
    }
  }

  lemma GroupBounds(group: nat, groupMax: nat, div: nat)
    requires 1 <= group < groupMax
    ensures 0 <= div * (group - 1) <= div * group <= div * (group + 1) <= groupMax * div
    ensures div * group == div * (group - 1) + div && div * (group + 1) == div * group + div
  {
  }

  lemma BestFromStep(rec: seq<nat>, H: nat, best: nat, L: nat)
    requires L <= best <= |rec| && 1 <= best
    ensures BestFrom(rec, H, best, L)
         == if L <= 1 then best
            else if BlockScore(rec, H, L - 1) < BlockScore(rec, H, best) then BestFrom(rec, H, L - 1, L - 1)
            else BestFrom(rec, H, best, L - 1)
  {
    hide BlockScore;
  }

  function Min32(x: uint32, y: uint32): uint32 {
    if x <= y then x else y
  }

  lemma CellIs(rec: seq<nat>, H: nat, ii: nat, jj: nat, mm: nat)
    requires 1 <= ii <= mm && 1 <= jj && mm + jj <= |rec|
    ensures Cell(rec, H, ii, jj, mm)
         == Min(Min(Read(rec, H, ii - 1, jj, mm, mm + jj) + 1, Read(rec, H, ii, jj - 1, mm, mm + jj) + 1),
                Read(rec, H, ii - 1, jj - 1, mm, mm + jj) + Penalty(rec, H, ii, mm + jj))
  {
  }

  lemma BaseRow(rec: seq<nat>, H: nat, ii: nat, mm: nat)
    requires ii <= mm <= |rec|
    ensures Cell(rec, H, ii, 0, mm) == 0
  {
  }

  lemma TopRowCell(rec: seq<nat>, H: nat, jj: nat, mm: nat)
    requires mm + jj <= |rec|
    ensures Cell(rec, H, 0, jj, mm) == jj
  {
  }
}
