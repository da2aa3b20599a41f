/** What the detector computes, as functions of the records received so far.

    `rec` holds the hashes of all region entries ever received, `H` is the size of
    the history buffer. Cell (ii, jj, mm) of the table compares the block
    `rec[mm..mm + jj]` with the records before position `ii`; it is computed in
    the round in which record number `mm + jj` arrives. */
module DetectorModel {
  import opened Arithmetic
  import opened Words
  import opened EditDistance

  // std::numeric_limits<uint32_t>::max() / 2
  const INFINITE := 0x7FFF_FFFF

  /** The value stored for a cell, in round `mm + jj`. */
  function Cell(rec: seq<nat>, H: nat, ii: nat, jj: nat, mm: nat): nat
    requires ii <= mm && mm + jj <= |rec|
    decreases ii + jj, 0
  {
    if jj == 0 then 0
    else if ii == 0 then jj
    else
      Min(Min(Read(rec, H, ii - 1, jj, mm, mm + jj) + 1,
              Read(rec, H, ii, jj - 1, mm, mm + jj) + 1),
          Read(rec, H, ii - 1, jj - 1, mm, mm + jj) + Penalty(rec, H, ii, mm + jj))
  }

  /** The value read for a cell in round `n`: infinite once its records have left the history. */
  function Read(rec: seq<nat>, H: nat, ii: nat, jj: nat, mm: nat, n: nat): nat
    requires ii <= mm && mm + jj <= |rec|
    decreases ii + jj, 1
  {
    if n - ii < H && jj < H && n - mm < H then Cell(rec, H, ii, jj, mm) else INFINITE
  }

  /** The cost of pairing record `ii - 1` with the newest record, number `n - 1`. */
  function Penalty(rec: seq<nat>, H: nat, ii: nat, n: nat): nat
    requires 1 <= ii <= n <= |rec|
  {
    if n - (ii - 1) <= Min(n, H) && rec[ii - 1] == rec[n - 1] then 0 else 2
  }

  /** Cells depend only on the records of the rounds up to their own. */
  lemma {:induction false} CellPrefix(rec: seq<nat>, more: seq<nat>, H: nat, ii: nat, jj: nat, mm: nat)
    requires ii <= mm && mm + jj <= |rec| && rec <= more
    ensures Cell(rec, H, ii, jj, mm) == Cell(more, H, ii, jj, mm)
    decreases ii + jj, 0
  {
    if jj > 0 && ii > 0 {
      ReadPrefix(rec, more, H, ii - 1, jj, mm, mm + jj);
      ReadPrefix(rec, more, H, ii, jj - 1, mm, mm + jj);
      ReadPrefix(rec, more, H, ii - 1, jj - 1, mm, mm + jj);
      assert rec[ii - 1] == more[ii - 1] && rec[mm + jj - 1] == more[mm + jj - 1];
    }
  }

  lemma {:induction false} ReadPrefix(rec: seq<nat>, more: seq<nat>, H: nat, ii: nat, jj: nat, mm: nat, n: nat)
    requires ii <= mm && mm + jj <= |rec| && rec <= more
    ensures Read(rec, H, ii, jj, mm, n) == Read(more, H, ii, jj, mm, n)
    decreases ii + jj, 1
  {
    hide Cell;
    CellPrefix(rec, more, H, ii, jj, mm);
  }

  // ----- what a cell means

  /** A cell that can still be read is at most the length of its block. */
  lemma {:induction false} CellAtMostLength(rec: seq<nat>, H: nat, ii: nat, jj: nat, mm: nat)
    requires ii <= mm && mm + jj <= |rec| && mm + jj - ii < H && jj < H
    ensures Cell(rec, H, ii, jj, mm) <= jj
    decreases jj
  {
    if jj > 0 && ii > 0 {
      CellAtMostLength(rec, H, ii, jj - 1, mm);
    }
  }

  function Block(rec: seq<nat>, mm: nat, jj: nat): seq<nat>
    requires mm + jj <= |rec|
  {
    rec[mm..mm + jj]
  }

  /** Dropping the last record of each side of a comparison. */
  lemma BlockInit(rec: seq<nat>, mm: nat, jj: nat)
    requires 1 <= jj && mm + jj <= |rec|
    ensures Block(rec, mm, jj)[..jj - 1] == Block(rec, mm, jj - 1)
    ensures Block(rec, mm, jj)[jj - 1] == rec[mm + jj - 1]
  {
  }

  /** No cell is below the true distance from its block to the best suffix of the earlier records,
      however much of the history has been lost. */
  lemma {:induction false} CellAtLeastDistance(rec: seq<nat>, H: nat, ii: nat, jj: nat, mm: nat) returns (s: nat)
    requires ii <= mm && mm + jj <= |rec| && jj <= INFINITE
    ensures s <= ii && Distance(rec[s..ii], Block(rec, mm, jj)) <= Cell(rec, H, ii, jj, mm)
    decreases ii + jj, 1
  {
    if jj == 0 || ii == 0 {
      s := ii;
      assert rec[s..ii] == [];
      DistanceFromNothing(Block(rec, mm, jj));
    } else {
      s := CellAtLeastDistanceStep(rec, H, ii, jj, mm);
    }
  }

  lemma {:induction false} CellAtLeastDistanceStep(rec: seq<nat>, H: nat, ii: nat, jj: nat, mm: nat) returns (s: nat)
    requires 1 <= ii <= mm && 1 <= jj <= INFINITE && mm + jj <= |rec|
    ensures s <= ii && Distance(rec[s..ii], Block(rec, mm, jj)) <= Cell(rec, H, ii, jj, mm)
    decreases ii + jj, 0
  {
    hide Cell, Distance;
    var move := CellOrigin(rec, H, ii, jj, mm);
    match move
    case Up =>
      s := CellAtLeastDistance(rec, H, ii - 1, jj, mm);
      assert rec[s..ii][..ii - s - 1] == rec[s..ii - 1];
      DistanceSteps(rec[s..ii], Block(rec, mm, jj));
    case Left =>
      s := CellAtLeastDistance(rec, H, ii, jj - 1, mm);
      BlockInit(rec, mm, jj);
      DistanceSteps(rec[s..ii], Block(rec, mm, jj));
    case Diagonal =>
      s := CellAtLeastDistance(rec, H, ii - 1, jj - 1, mm);
      BlockInit(rec, mm, jj);
      assert rec[s..ii][..ii - s - 1] == rec[s..ii - 1];
      DistanceSteps(rec[s..ii], Block(rec, mm, jj));
    case Lost =>
      s := ii;
      assert rec[s..ii] == [];
      DistanceFromNothing(Block(rec, mm, jj));
  }

  datatype Move = Up | Left | Diagonal | Lost

  /** The predecessor a cell takes its value from; `Lost` when none could be read. */
  lemma CellOrigin(rec: seq<nat>, H: nat, ii: nat, jj: nat, mm: nat) returns (move: Move)
    requires 1 <= ii <= mm && 1 <= jj && mm + jj <= |rec|
    ensures var c, n := Cell(rec, H, ii, jj, mm), mm + jj;
            match move
            case Up => c == Cell(rec, H, ii - 1, jj, mm) + 1 && InHistory(H, ii - 1, mm, n)
            case Left => c == Cell(rec, H, ii, jj - 1, mm) + 1 && InHistory(H, ii, mm, n)
            case Diagonal =>
              c == Cell(rec, H, ii - 1, jj - 1, mm) + Penalty(rec, H, ii, n) && InHistory(H, ii - 1, mm, n)
            case Lost => c >= INFINITE
  {
    var c, n := Cell(rec, H, ii, jj, mm), mm + jj;
    if c >= INFINITE {
      move := Lost;
    } else if c == Read(rec, H, ii - 1, jj, mm, n) + 1 {
      move := Up;
    } else if c == Read(rec, H, ii, jj - 1, mm, n) + 1 {
      move := Left;
    } else {
      move := Diagonal;
    }
  }

  lemma DistanceSteps(a: seq<nat>, b: seq<nat>)
    ensures a != [] ==> Distance(a, b) <= Distance(a[..|a| - 1], b) + 1
    ensures b != [] ==> Distance(a, b) <= Distance(a, b[..|b| - 1]) + 1
    ensures a != [] && b != [] ==>
              Distance(a, b) <= Distance(a[..|a| - 1], b[..|b| - 1]) + if a[|a| - 1] == b[|b| - 1] then 0 else 2
  {
  }

  /** A cell is at most the distance to every suffix that was in the history as long as the block was compared
      with it. */
  lemma {:induction false} CellAtMostDistance(rec: seq<nat>, H: nat, ii: nat, jj: nat, mm: nat, s: nat)
    requires s <= ii <= mm && mm + jj <= |rec| && mm + jj < s + H
    ensures Cell(rec, H, ii, jj, mm) <= Distance(rec[s..ii], Block(rec, mm, jj))
    decreases ii + jj, 1
  {
    if jj == 0 || s == ii {
      assert rec[s..ii] == [] || jj == 0;
      CellAtMostLength(rec, H, ii, jj, mm);
      DistanceFromNothing(Block(rec, mm, jj));
    } else {
      SuffixStep(rec, H, ii, jj, mm, s);
    }
  }

  lemma {:induction false} SuffixStep(rec: seq<nat>, H: nat, ii: nat, jj: nat, mm: nat, s: nat)
    requires s < ii <= mm && 1 <= jj && mm + jj <= |rec| && mm + jj < s + H
    ensures Cell(rec, H, ii, jj, mm) <= Distance(rec[s..ii], Block(rec, mm, jj))
    decreases ii + jj, 0
  {
    hide Cell, Distance;
    CellAtMostDistance(rec, H, ii - 1, jj, mm, s);
    CellAtMostDistance(rec, H, ii, jj - 1, mm, s);
    CellAtMostDistance(rec, H, ii - 1, jj - 1, mm, s);
    CellStep(rec, H, ii, jj, mm);
    BlockInit(rec, mm, jj);
    DistanceOrigin(rec[s..ii], Block(rec, mm, jj));
    assert rec[s..ii][..ii - s - 1] == rec[s..ii - 1];
  }

  lemma DistanceFromNothing(b: seq<nat>)
    ensures Distance([], b) == |b|
  {
  }

  /** The three moves into a cell, while the row before it is still in the history. */
  lemma CellStep(rec: seq<nat>, H: nat, ii: nat, jj: nat, mm: nat)
    requires 1 <= ii <= mm && 1 <= jj && mm + jj <= |rec| && InHistory(H, ii - 1, mm, mm + jj)
    ensures Cell(rec, H, ii, jj, mm) <= Cell(rec, H, ii - 1, jj, mm) + 1
    ensures Cell(rec, H, ii, jj, mm) <= Cell(rec, H, ii, jj - 1, mm) + 1
    ensures Cell(rec, H, ii, jj, mm)
         <= Cell(rec, H, ii - 1, jj - 1, mm) + if rec[ii - 1] == rec[mm + jj - 1] then 0 else 2
  {
  }

  lemma DistanceOrigin(a: seq<nat>, b: seq<nat>)
    requires a != [] && b != []
    ensures var d := Distance(a, b);
            || d == Distance(a[..|a| - 1], b) + 1
            || d == Distance(a, b[..|b| - 1]) + 1
            || d == Distance(a[..|a| - 1], b[..|b| - 1]) + if a[|a| - 1] == b[|b| - 1] then 0 else 2
  {
  }

  /** Until the history buffer fills up, a cell is exactly the least distance between its block and
      a suffix of the records before `ii`. */
  lemma CellIsLeastSuffixDistance(rec: seq<nat>, H: nat, ii: nat, jj: nat, mm: nat)
    requires ii <= mm && mm + jj <= |rec| && mm + jj < H && jj <= INFINITE
    ensures exists s :: 0 <= s <= ii && Cell(rec, H, ii, jj, mm) == Distance(rec[s..ii], Block(rec, mm, jj))
    ensures forall s :: 0 <= s <= ii ==> Cell(rec, H, ii, jj, mm) <= Distance(rec[s..ii], Block(rec, mm, jj))
  {
    forall s | 0 <= s <= ii
      ensures Cell(rec, H, ii, jj, mm) <= Distance(rec[s..ii], Block(rec, mm, jj))
    {
      CellAtMostDistance(rec, H, ii, jj, mm, s);
    }
    var s := CellAtLeastDistance(rec, H, ii, jj, mm);
    assert Cell(rec, H, ii, jj, mm) == Distance(rec[s..ii], Block(rec, mm, jj));
  }

  // ----- what a cell means, whatever has been lost

  /** In round `n` the row `ii` and the block start `mm` are still in the history. */
  predicate InHistory(H: nat, ii: nat, mm: nat, n: nat) {
    n - ii < H && n - mm < H
  }

  /** The script turns the records before `ii`, from some record on, into the block, and each step starts from a
      row that is still in the history in the round of the record that the step compares. Only the row of no
      records at all needs no history. */
  ghost predicate Survives(rec: seq<nat>, H: nat, script: seq<Edit>, ii: nat, jj: nat, mm: nat)
    requires ii <= mm && mm + jj <= |rec|
    decreases |script|
  {
    if script == [] then jj == 0
    else
      var rest, n := script[..|script| - 1], mm + jj;
      match script[|script| - 1]
      case Keep =>
        && ii > 0 && jj > 0 && rec[ii - 1] == rec[n - 1]
        && InHistory(H, ii - 1, mm, n) && Survives(rec, H, rest, ii - 1, jj - 1, mm)
      case Insert => jj > 0 && (ii == 0 || InHistory(H, ii, mm, n)) && Survives(rec, H, rest, ii, jj - 1, mm)
      case Delete => ii > 0 && jj > 0 && InHistory(H, ii - 1, mm, n) && Survives(rec, H, rest, ii - 1, jj, mm)
  }

  /** Such a script is an edit script from a suffix of the earlier records to the block. */
  lemma {:induction false} SurvivorTransforms(rec: seq<nat>, H: nat, script: seq<Edit>, ii: nat, jj: nat, mm: nat)
    returns (s: nat)
    requires ii <= mm && mm + jj <= |rec| && Survives(rec, H, script, ii, jj, mm)
    ensures s <= ii && Transforms(script, rec[s..ii], Block(rec, mm, jj))
    decreases |script|
  {
    if script == [] {
      s := ii;
    } else {
      var rest := script[..|script| - 1];
      if jj > 0 {
        BlockInit(rec, mm, jj);
      }
      match script[|script| - 1]
      case Keep =>
        s := SurvivorTransforms(rec, H, rest, ii - 1, jj - 1, mm);
        assert rec[s..ii][..ii - s - 1] == rec[s..ii - 1];
      case Insert =>
        s := SurvivorTransforms(rec, H, rest, ii, jj - 1, mm);
      case Delete =>
        s := SurvivorTransforms(rec, H, rest, ii - 1, jj, mm);
        assert rec[s..ii][..ii - s - 1] == rec[s..ii - 1];
    }
  }

  lemma {:induction false} CellAtMostScript(rec: seq<nat>, H: nat, script: seq<Edit>, ii: nat, jj: nat, mm: nat)
    requires ii <= mm && mm + jj <= |rec| && Survives(rec, H, script, ii, jj, mm)
    ensures Cell(rec, H, ii, jj, mm) <= Cost(script)
    decreases |script|
  {
    if script != [] {
      var rest, n := script[..|script| - 1], mm + jj;
      match script[|script| - 1]
      case Keep =>
        CellAtMostScript(rec, H, rest, ii - 1, jj - 1, mm);
        CellStep(rec, H, ii, jj, mm);
      case Insert =>
        CellAtMostScript(rec, H, rest, ii, jj - 1, mm);
        InsertStep(rec, H, ii, jj, mm);
      case Delete =>
        CellAtMostScript(rec, H, rest, ii - 1, jj, mm);
        CellStep(rec, H, ii, jj, mm);
    }
  }

  lemma InsertStep(rec: seq<nat>, H: nat, ii: nat, jj: nat, mm: nat)
    requires ii <= mm && 1 <= jj && mm + jj <= |rec| && (ii == 0 || InHistory(H, ii, mm, mm + jj))
    ensures Cell(rec, H, ii, jj, mm) <= Cell(rec, H, ii, jj - 1, mm) + 1
  {
  }

  /** A script of exactly the cost that a cell holds. */
  lemma {:induction false} ScriptOfCell(rec: seq<nat>, H: nat, ii: nat, jj: nat, mm: nat) returns (script: seq<Edit>)
    requires ii <= mm && mm + jj <= |rec| && Cell(rec, H, ii, jj, mm) < INFINITE
    ensures Survives(rec, H, script, ii, jj, mm) && Cost(script) == Cell(rec, H, ii, jj, mm)
    decreases ii + jj
  {
    if jj == 0 {
      script := [];
    } else if ii == 0 {
      var rest := ScriptOfCell(rec, H, ii, jj - 1, mm);
      script := Append(rest, Insert);
    } else {
      var move := CellOrigin(rec, H, ii, jj, mm);
      hide Cell;
      match move
      case Up =>
        var rest := ScriptOfCell(rec, H, ii - 1, jj, mm);
        script := Append(rest, Delete);
      case Left =>
        var rest := ScriptOfCell(rec, H, ii, jj - 1, mm);
        script := Append(rest, Insert);
      case Diagonal =>
        var rest := ScriptOfCell(rec, H, ii - 1, jj - 1, mm);
        if Penalty(rec, H, ii, mm + jj) == 0 {
          script := Append(rest, Keep);
        } else {
          var inserted := Append(rest, Insert);
          script := Append(inserted, Delete);
        }
      case Lost =>
    }
  }

  /** `c` is the least cost of all scripts that survive. */
  ghost predicate IsLeastCost(rec: seq<nat>, H: nat, ii: nat, jj: nat, mm: nat, c: int)
    requires ii <= mm && mm + jj <= |rec|
  {
    && (exists script :: Survives(rec, H, script, ii, jj, mm) && Cost(script) == c)
    && forall script :: Survives(rec, H, script, ii, jj, mm) ==> c <= Cost(script)
  }

  /** However much of the history has been lost, a finite cell is exactly the least cost of the edit scripts that
      survive, and an infinite one means that none costs less. */
  lemma CellIsLeastCost(rec: seq<nat>, H: nat, ii: nat, jj: nat, mm: nat)
    requires ii <= mm && mm + jj <= |rec|
    ensures Cell(rec, H, ii, jj, mm) < INFINITE ==> IsLeastCost(rec, H, ii, jj, mm, Cell(rec, H, ii, jj, mm))
    ensures Cell(rec, H, ii, jj, mm) >= INFINITE ==>
              forall script :: Survives(rec, H, script, ii, jj, mm) ==> Cost(script) >= INFINITE
  {
    hide Cell, Survives, Cost;
    forall script | Survives(rec, H, script, ii, jj, mm) ensures Cell(rec, H, ii, jj, mm) <= Cost(script) {
      CellAtMostScript(rec, H, script, ii, jj, mm);
    }
    if Cell(rec, H, ii, jj, mm) < INFINITE {
      var script := ScriptOfCell(rec, H, ii, jj, mm);
    }
  }

  // ----- when a cell is zero

  /** A cell is zero exactly when its block repeats the records just before `ii` and none of the cells on
      the diagonal has left the history. */
  lemma {:induction false} CellZero(rec: seq<nat>, H: nat, ii: nat, jj: nat, mm: nat)
    requires jj <= ii <= mm && mm + jj <= |rec|
    ensures Cell(rec, H, ii, jj, mm) == 0 <==>
            jj == 0 || (mm + jj - ii + 1 < H && jj <= H && rec[ii - jj..ii] == Block(rec, mm, jj))
    decreases jj
  {
    if jj > 0 {
      var n := mm + jj;
      CellZero(rec, H, ii - 1, jj - 1, mm);
      var a, b := rec[ii - jj..ii], Block(rec, mm, jj);
      BlockInit(rec, mm, jj);
      assert a[..jj - 1] == rec[ii - jj..ii - 1];
      assert a == a[..jj - 1] + [rec[ii - 1]] && b == b[..jj - 1] + [rec[n - 1]];
      assert a == b <==> a[..jj - 1] == b[..jj - 1] && a[jj - 1] == b[jj - 1];
    }
  }

  // ----- the chosen block, the score and the period

  /** The value compared for a block of length `L` in the last round. */
  function BlockScore(rec: seq<nat>, H: nat, L: nat): nat
    requires 1 <= L <= |rec|
  {
    Read(rec, H, |rec| - L, L, |rec| - L, |rec|)
  }

  /** Block lengths are tried from here down to 1. */
  function LongestBlock(n: nat, H: nat): (L: nat)
  {
    Min(n / 2, H)
  }

  /** The first length, going down from `L`, with the least score. */
  function BestFrom(rec: seq<nat>, H: nat, best: nat, L: nat): (b: nat)
    requires L <= best <= |rec| && 1 <= best
    ensures 1 <= b <= best
    decreases L
  {
    if L <= 1 then best
    else if BlockScore(rec, H, L - 1) < BlockScore(rec, H, best) then BestFrom(rec, H, L - 1, L - 1)
    else BestFrom(rec, H, best, L - 1)
  }

  function BestBlock(rec: seq<nat>, H: nat): (b: nat)
    requires |rec| >= 2 && H >= 1
    ensures 1 <= b <= LongestBlock(|rec|, H)
  {
    var L := LongestBlock(|rec|, H);
    BestFrom(rec, H, L, L)
  }

  function Score(rec: seq<nat>, H: nat): int
    requires H >= 1
  {
    if |rec| < 2 then -1 else BlockScore(rec, H, BestBlock(rec, H))
  }

  ghost function Period(rec: seq<nat>, H: nat): int
    requires H >= 1
  {
    if |rec| < 2 then -1 else LeastRepeat(rec[|rec| - BestBlock(rec, H)..])
  }

  // With no history at all every region entry is refused, so nothing is ever computed.
  ghost function PeriodOf(rec: seq<nat>, H: nat): int {
    if H == 0 then -1 else Period(rec, H)
  }

  function ScoreOf(rec: seq<nat>, H: nat): int {
    if H == 0 then -1 else Score(rec, H)
  }

  /** `b` has the least score of all lengths up to `top`, and is the largest with that score. */
  ghost predicate IsBest(rec: seq<nat>, H: nat, b: nat, top: nat) {
    && 1 <= b <= top <= |rec|
    && (forall l :: 1 <= l <= top ==> BlockScore(rec, H, b) <= BlockScore(rec, H, l))
    && (forall l :: b < l <= top ==> BlockScore(rec, H, b) < BlockScore(rec, H, l))
  }

  lemma {:induction false} BestFromIsBest(rec: seq<nat>, H: nat, best: nat, L: nat, top: nat)
    requires 1 <= L <= best <= top <= |rec|
    requires forall l :: L <= l <= top ==> BlockScore(rec, H, best) <= BlockScore(rec, H, l)
    requires forall l :: best < l <= top ==> BlockScore(rec, H, best) < BlockScore(rec, H, l)
    ensures IsBest(rec, H, BestFrom(rec, H, best, L), top)
    decreases L
  {
    hide BlockScore;
    if L > 1 {
      if BlockScore(rec, H, L - 1) < BlockScore(rec, H, best) {
        BestFromIsBest(rec, H, L - 1, L - 1, top);
      } else {
        BestFromIsBest(rec, H, best, L - 1, top);
      }
    }
  }

  /** The scan over block starts chooses the longest block with the least score. */
  lemma BestBlockIsBest(rec: seq<nat>, H: nat)
    requires |rec| >= 2 && H >= 1
    ensures IsBest(rec, H, BestBlock(rec, H), LongestBlock(|rec|, H))
  {
    var L := LongestBlock(|rec|, H);
    BestFromIsBest(rec, H, L, L, L);
  }

  // ----- what is reported

  /** What the comparison of the newest `L` records with the ones before them costs. */
  ghost predicate IsBlockCost(rec: seq<nat>, H: nat, L: nat, c: int)
    requires L <= |rec|
  {
    if L < H then IsLeastCost(rec, H, |rec| - L, L, |rec| - L, c) else c == INFINITE
  }

  /** The score is the least cost of a block, the chosen block the longest of that cost, and the period the least
      repeat within it. */
  ghost predicate IsReport(rec: seq<nat>, H: nat, b: nat, score: int, period: int) {
    && 1 <= b <= H && 2 * b <= |rec| && IsBlockCost(rec, H, b, score)
    && (forall L: nat, c :: 1 <= L <= H && 2 * L <= |rec| && IsBlockCost(rec, H, L, c) ==>
          score <= c && (L > b ==> score < c))
    && period >= 0 && IsLeastRepeat(rec[|rec| - b..], period)
  }

  lemma ScoreIsCost(rec: seq<nat>, H: nat, L: nat, c: int)
    requires 1 <= L <= |rec| && L <= H <= INFINITE
    ensures IsBlockCost(rec, H, L, c) <==> c == BlockScore(rec, H, L)
  {
    if L < H {
      CellAtMostLength(rec, H, |rec| - L, L, |rec| - L);
      CellIsLeastCost(rec, H, |rec| - L, L, |rec| - L);
    }
    hide Cell, Survives, Cost;
  }

  /** From the second record on, and whatever has been lost, score and period are those of the best block. */
  lemma ReportsBest(rec: seq<nat>, H: nat)
    requires |rec| >= 2 && 1 <= H <= INFINITE
    ensures IsReport(rec, H, BestBlock(rec, H), Score(rec, H), Period(rec, H))
  {
    hide BlockScore, IsBlockCost, LeastRepeat;
    var b := BestBlock(rec, H);
    BestBlockIsBest(rec, H);
    hide BestBlock;
    ScoreIsCost(rec, H, b, BlockScore(rec, H, b));
    forall L: nat, c | 1 <= L <= H && 2 * L <= |rec| && IsBlockCost(rec, H, L, c)
      ensures c == BlockScore(rec, H, L)
    {
      ScoreIsCost(rec, H, L, c);
    }
  }

  /** There is only one such report. */
  lemma ReportIsUnique(rec: seq<nat>, H: nat, b: nat, score: int, period: int)
    requires |rec| >= 2 && 1 <= H <= INFINITE && IsReport(rec, H, b, score, period)
    ensures b == BestBlock(rec, H) && score == Score(rec, H) && period == Period(rec, H)
  {
    hide BlockScore, IsBlockCost, LeastRepeat;
    ReportsBest(rec, H);
    hide BestBlock, Score;
    var w := rec[|rec| - b..];
    if b == BestBlock(rec, H) {
      LeastRepeatUnique(w, period, Period(rec, H));
    }
  }

  lemma BlockScoreZero(rec: seq<nat>, H: nat, L: nat)
    requires 1 <= L && 2 * L <= |rec|
    ensures BlockScore(rec, H, L) == 0 <==> VisibleSquare(rec, H, L)
  {
    CellZero(rec, H, |rec| - L, L, |rec| - L);
  }

  /** The records just received repeat the ones before them, in a block short enough to be seen. */
  ghost predicate VisibleSquare(rec: seq<nat>, H: nat, L: nat) {
    L + 2 <= H && SquareAtEnd(rec, L)
  }

  /** From the second record on the score is 0 or 1; it is 0 exactly when, over all records ever received,
      some visible block has just been repeated, and then the longest such block is chosen. */
  lemma ScoreIsZeroOrOne(rec: seq<nat>, H: nat)
    requires |rec| >= 2 && H >= 2
    ensures Score(rec, H) == 0 || Score(rec, H) == 1
    ensures Score(rec, H) == 0 <==> exists L: nat :: VisibleSquare(rec, H, L)
    ensures Score(rec, H) == 0 ==>
              var b := BestBlock(rec, H);
              VisibleSquare(rec, H, b) && forall L: nat :: VisibleSquare(rec, H, L) ==> L <= b
  {
    hide BlockScore, Cell;
    var b, top := BestBlock(rec, H), LongestBlock(|rec|, H);
    BestBlockIsBest(rec, H);
    OneRecordBlock(rec, H);
    assert BlockScore(rec, H, b) <= BlockScore(rec, H, 1);
    BlockScoreZero(rec, H, b);
    forall L: nat | VisibleSquare(rec, H, L)
      ensures Score(rec, H) == 0 && L <= b
    {
      BlockScoreZero(rec, H, L);
      assert 1 <= L <= top;
      assert BlockScore(rec, H, b) <= BlockScore(rec, H, L);
    }
  }

  lemma OneRecordBlock(rec: seq<nat>, H: nat)
    requires |rec| >= 2 && H >= 2
    ensures BlockScore(rec, H, 1) <= 1
  {
    CellAtMostLength(rec, H, |rec| - 1, 1, |rec| - 1);
  }

  /** Once the visible past follows a primitive pattern of length p, every update reports
      score 0 and period p, whichever multiple of p the chosen block is. */
  lemma PeriodicStreamPeriod(rec: seq<nat>, H: nat, u: seq<nat>, off: nat)
    requires Primitive(u) && |u| + 2 <= H && 2 * |u| <= |rec|
    requires ReadsFrom(rec, |rec| - Min(|rec|, 2 * (H - 2)), u, off)
    ensures Score(rec, H) == 0 && Period(rec, H) == |u|
    ensures BestBlock(rec, H) % |u| == 0
  {
    assert u != [];
    hide Score, BestBlock, LeastRepeat, Primitive, ReadsFrom, VisibleSquare, SquareAtEnd, Reads;
    var from := |rec| - Min(|rec|, 2 * (H - 2));
    ModUnique(|u|, |u|, 1, 0);
    ReadsLess(rec, u, off, from, |rec| - 2 * |u|);
    MultipleIsSquare(rec, u, off, |u|);
    SquareIsVisible(rec, H, |u|);
    ScoreIsZeroOrOne(rec, H);
    assert VisibleSquare(rec, H, |u|);
    var b := BestBlock(rec, H);
    SquareIsVisible(rec, H, b);
    ReadsLess(rec, u, off, from, |rec| - 2 * b);
    ReadsLess(rec, u, off, from, |rec| - b);
    SquareLength(rec, u, off, b);
    var w := rec[|rec| - b..];
    TailReads(rec, u, off, b);
    LeastRepeatOfStretch(w, u, |rec| - b + off, LeastRepeat(w));
  }

  lemma SquareIsVisible(rec: seq<nat>, H: nat, L: nat)
    ensures VisibleSquare(rec, H, L) <==> L + 2 <= H && SquareAtEnd(rec, L)
    ensures SquareAtEnd(rec, L) ==> 1 <= L && 2 * L <= |rec|
  {
  }

  lemma ReadsLess(rec: seq<nat>, u: seq<nat>, off: nat, from: nat, lo: nat)
    requires u != [] && ReadsFrom(rec, from, u, off) && from <= lo <= |rec|
    ensures ReadsFrom(rec, lo, u, off)
  {
  }

  lemma TailReads(rec: seq<nat>, u: seq<nat>, off: nat, b: nat)
    requires u != [] && b <= |rec| && ReadsFrom(rec, |rec| - b, u, off)
    ensures Reads(rec[|rec| - b..], u, |rec| - b + off)
  {
    hide At;
    var w := rec[|rec| - b..];
    forall i | 0 <= i < |w| ensures w[i] == At(u, |rec| - b + off + i) {
      assert w[i] == rec[|rec| - b + i];
    }
  }
}
