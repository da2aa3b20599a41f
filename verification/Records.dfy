/** Application events as they travel from the record log to the controller. */
module Records {

  // event_e; the kinds the modelled code never looks at share one constructor
  datatype Event = RegionEntry | RegionExit | EpochCount | Hint | ShortRegion | Other(code: nat)

  // record_s; times are whole clock ticks, signals are unsigned
  datatype Record = Record(time: int, process: int, event: Event, signal: nat)

  // short_region_s
  datatype ShortRegionInfo = ShortRegionInfo(hash: nat, numComplete: nat, totalTime: int)

  // GEOPM_REGION_HASH_INVALID
  const HASH_INVALID: nat := 0

  predicate IsEpoch(r: Record) {
    r.event.EpochCount?
  }

  function EraseEpochs(rs: seq<Record>): seq<Record> {
    if rs == [] then []
    else EraseEpochs(rs[..|rs| - 1]) + if IsEpoch(rs[|rs| - 1]) then [] else [rs[|rs| - 1]]
  }

  function EpochSignals(rs: seq<Record>): seq<nat> {
    if rs == [] then []
    else EpochSignals(rs[..|rs| - 1]) + if IsEpoch(rs[|rs| - 1]) then [rs[|rs| - 1].signal] else []
  }

  lemma {:induction false} EraseConcat(a: seq<Record>, b: seq<Record>)
    ensures EraseEpochs(a + b) == EraseEpochs(a) + EraseEpochs(b)
    ensures EpochSignals(a + b) == EpochSignals(a) + EpochSignals(b)
  {
    if b == [] {
      assert a + b == a;
    } else {
      EraseConcat(a, b[..|b| - 1]);
      assert (a + b)[..|a + b| - 1] == a + b[..|b| - 1];
    }
  }

  lemma EraseSingle(r: Record)
    ensures EraseEpochs([r]) == if IsEpoch(r) then [] else [r]
    ensures EpochSignals([r]) == if IsEpoch(r) then [r.signal] else []
  {
    assert [r][..0] == [];
  }
}
