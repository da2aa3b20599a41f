/** Exactly which record streams pass the check of the sampler. */
module AcceptedStreams {
  import opened Records
  import opened EpochRecordFilter
  import opened RecordLogStreams
  import opened RecordValidation

  function Pow2(k: nat): nat { if k == 0 then 1 else 2 * Pow2(k - 1) }

  /** One bit out of the hint bits 32 to 40. */
  predicate IsHintBit(signal: nat) {
    exists k: nat :: 32 <= k <= 40 && signal == Pow2(k)
  }

  /** The region entries and exits alone. */
  function Crossings(rs: seq<Record>): seq<Record> {
    if rs == [] then []
    else
      var r := rs[|rs| - 1];
      Crossings(rs[..|rs| - 1]) + if IsEntry(r) || IsExit(r) then [r] else []
  }

  /** Entry, exit, entry, exit and so on, each exit from the region just entered. */
  ghost predicate Alternates(q: seq<Record>) {
    forall i :: 0 <= i < |q| ==> InTurn(q, i)
  }

  predicate InTurn(q: seq<Record>, i: nat)
    requires i < |q|
  {
    if i % 2 == 0 then IsEntry(q[i]) else IsExit(q[i]) && q[i].signal == q[i - 1].signal
  }

  /** What one record has to be on its own. */
  predicate SignalFits(r: Record) {
    && (r.event.Hint? ==> IsHintBit(r.signal))
    && (IsEntry(r) || IsExit(r) ==> 1 <= r.signal < Pow2(32))
  }

  ghost predicate Conforms(rs: seq<Record>) {
    && (forall i :: 0 <= i < |rs| ==> rs[i].process == rs[0].process && SignalFits(rs[i]))
    && TimesGrow(rs)
    && CountsTo(EpochSignals(rs), |EpochSignals(rs)|)
    && Alternates(Crossings(rs))
  }

  /** The region that is open after a sequence of crossings. */
  function OpenAfter(q: seq<Record>): nat {
    if |q| % 2 == 1 then q[|q| - 1].signal else HASH_INVALID
  }

  lemma Powers()
    ensures Pow2(32) == 0x1_0000_0000 && Pow2(33) == 0x2_0000_0000 && Pow2(34) == 0x4_0000_0000
    ensures Pow2(35) == 0x8_0000_0000 && Pow2(36) == 0x10_0000_0000 && Pow2(37) == 0x20_0000_0000
    ensures Pow2(38) == 0x40_0000_0000 && Pow2(39) == 0x80_0000_0000 && Pow2(40) == 0x100_0000_0000
  {
    assert Pow2(8) == 256;
    assert Pow2(16) == 65536;
    assert Pow2(24) == 0x100_0000;
    assert Pow2(32) == 0x1_0000_0000;
  }

  /** The nine hints of the check are the powers of two from 2 ^ 32 to 2 ^ 40. */
  lemma HintsAreBits(signal: nat)
    ensures signal in HINTS <==> IsHintBit(signal)
  {
    Powers();
    hide Pow2;
  }

  /** What a record that follows the stream has to be. */
  predicate FitsBehind(init: seq<Record>, r: Record) {
    && (init != [] ==> r.process == init[0].process && init[|init| - 1].time <= r.time)
    && SignalFits(r)
    && (IsEpoch(r) ==> r.signal == |EpochSignals(init)| + 1)
    && (IsEntry(r) ==> |Crossings(init)| % 2 == 0)
    && (IsExit(r) ==> |Crossings(init)| % 2 == 1 && r.signal == OpenAfter(Crossings(init)))
  }

  lemma CrossingsPush(init: seq<Record>, r: Record)
    ensures Crossings(init + [r]) == Crossings(init) + if IsEntry(r) || IsExit(r) then [r] else []
  {
    assert (init + [r])[..|init|] == init;
  }

  lemma AlternatesPush(q: seq<Record>, r: Record)
    ensures Alternates(q + [r]) <==>
            Alternates(q) && if |q| % 2 == 0 then IsEntry(r) else IsExit(r) && r.signal == q[|q| - 1].signal
  {
    var more := q + [r];
    forall i | 0 <= i < |q| ensures InTurn(more, i) <==> InTurn(q, i) {
      assert more[i] == q[i];
    }
    if Alternates(more) {
      forall i | 0 <= i < |q| ensures InTurn(q, i) {
        assert InTurn(more, i);
      }
      assert InTurn(more, |q|);
    }
  }

  lemma CountsPush(a: seq<nat>, s: nat)
    ensures CountsTo(a + [s], |a + [s]|) <==> CountsTo(a, |a|) && s == |a| + 1
  {
    var more := a + [s];
    if CountsTo(more, |more|) {
      forall i | 0 <= i < |a| ensures a[i] == i + 1 {
        assert more[i] == a[i];
      }
      assert more[|a|] == s;
    }
  }

  lemma GrowsPush(init: seq<Record>, r: Record)
    ensures TimesGrow(init + [r]) <==> TimesGrow(init) && (init != [] ==> init[|init| - 1].time <= r.time)
  {
    var more := init + [r];
    if TimesGrow(more) {
      forall i | 0 < i < |init| ensures init[i - 1].time <= init[i].time {
        assert more[i - 1] == init[i - 1] && more[i] == init[i];
      }
      if init != [] {
        assert more[|init| - 1] == init[|init| - 1] && more[|init|] == r;
      }
    }
  }

  lemma ConformsPush(init: seq<Record>, r: Record)
    ensures Conforms(init + [r]) <==> Conforms(init) && FitsBehind(init, r)
  {
    hide SignalFits, TimesGrow, CountsTo, Alternates, EpochSignals, Crossings;
    EpochPush(init, r);
    CrossingsPush(init, r);
    GrowsPush(init, r);
    if IsEpoch(r) {
      CountsPush(EpochSignals(init), r.signal);
    }
    if IsEntry(r) || IsExit(r) {
      AlternatesPush(Crossings(init), r);
    }
    assert EpochSignals(init) + [] == EpochSignals(init) && Crossings(init) + [] == Crossings(init);
    EachPush(init, r);
  }

  ghost predicate EachFits(rs: seq<Record>) {
    forall i :: 0 <= i < |rs| ==> rs[i].process == rs[0].process && SignalFits(rs[i])
  }

  lemma EachPush(init: seq<Record>, r: Record)
    ensures EachFits(init + [r]) <==>
            EachFits(init) && SignalFits(r) && (init != [] ==> r.process == init[0].process)
  {
    hide SignalFits;
    var more := init + [r];
    assert more[|init|] == r;
    if EachFits(more) {
      forall i | 0 <= i < |init| ensures init[i].process == init[0].process && SignalFits(init[i]) {
        assert more[i] == init[i] && more[0] == init[0];
      }
    }
  }

  /** The state of the check behind a stream that it has accepted. */
  ghost predicate Reflects(v: Checker, rs: seq<Record>) {
    if rs == [] then v == FRESH
    else v == Checker(false, rs[|rs| - 1].time, rs[0].process, |EpochSignals(rs)|, OpenAfter(Crossings(rs)))
  }

  lemma NextReflects(v: Checker, init: seq<Record>, r: Record)
    requires Conforms(init) && Reflects(v, init)
    ensures Accepts(v, r) <==> FitsBehind(init, r)
    ensures Accepts(v, r) ==> Reflects(Next(v, r), init + [r])
  {
    hide TimesGrow, CountsTo, HINTS, IsHintBit, Pow2, EpochSignals, Crossings;
    OpenIsNoHash(init);
    HintsAreBits(r.signal);
    Powers();
    EpochPush(init, r);
    CrossingsPush(init, r);
    NothingCrossed();
  }

  lemma NothingCrossed()
    ensures Crossings([]) == [] && EpochSignals([]) == []
  {
  }

  /** A region is open exactly behind an odd number of crossings. */
  lemma OpenIsNoHash(rs: seq<Record>)
    requires Conforms(rs)
    ensures OpenAfter(Crossings(rs)) == HASH_INVALID <==> |Crossings(rs)| % 2 == 0
  {
    hide TimesGrow, CountsTo, EpochSignals, IsHintBit;
    CrossingsFit(rs);
    var q := Crossings(rs);
    if |q| % 2 == 1 {
      assert q[|q| - 1] in q;
    }
  }

  lemma {:induction false} CrossingsFit(rs: seq<Record>)
    requires EachFits(rs)
    ensures forall q :: q in Crossings(rs) ==> SignalFits(q) && (IsEntry(q) || IsExit(q))
  {
    hide SignalFits;
    if rs != [] {
      var init := rs[..|rs| - 1];
      assert rs == init + [rs[|rs| - 1]];
      EachPush(init, rs[|rs| - 1]);
      CrossingsFit(init);
    }
  }

  /** The check accepts a stream from the start if and only if all records are of one process, times never decrease,
      hints are single hint bits, hashes are valid, the epochs are numbered from 1, and entries and exits
      alternate, each exit leaving the region just entered. */
  lemma {:induction false} AcceptedIffConforms(rs: seq<Record>)
    ensures AllAccepted(FRESH, rs) <==> Conforms(rs)
    ensures Conforms(rs) ==> Reflects(CheckedBy(FRESH, rs), rs)
  {
    if rs == [] {
      NothingCrossed();
    } else {
      var init, r := rs[..|rs| - 1], rs[|rs| - 1];
      AcceptedIffConforms(init);
      assert rs == init + [r];
      hide Conforms, Reflects, FitsBehind, Accepts, Next;
      ConformsPush(init, r);
      if Conforms(init) {
        NextReflects(CheckedBy(FRESH, init), init, r);
      }
    }
  }

  /** A refused record opens and closes nothing and counts nothing; it has moved the time if its process and its
      time were right. */
  lemma RefusedChangesTimeOnly(v: Checker, r: Record)
    requires !v.isEmpty && !Accepts(v, r)
    ensures Next(v, r) == v.(time := if r.process == v.process && v.time <= r.time then r.time else v.time)
  {
  }
}
