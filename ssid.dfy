/** The generator object: configuration, construction and the two generation
    operations, with the wall clock passed in as milliseconds since the Unix
    epoch. */
module Ssid {
  import opened SsidState

  /** Go's zero time.Time (0001-01-01T00:00:00Z), the value of an unset start time. */
  const ZeroTimeMillis: int := -62_135_596_800_000
  /** 2016-07-04T00:00:00Z, the epoch used when no start time is configured. */
  const DefaultStartMillis: int := 1_467_590_400_000

  /** The caller's configuration; construction writes the default start time back into it. */
  class Config {
    var generatorID: uint16
    var startTime: int

    constructor (generatorID: uint16, startTime: int)
      ensures this.generatorID == generatorID && this.startTime == startTime
    {
      this.generatorID := generatorID;
      this.startTime := startTime;
    }
  }

  class SSID {
    var initialTime: int
    var generatorID: uint16
    var currentSequenceID: uint16
    var chronoTime: int

    constructor (initialTime: int, generatorID: uint16)
      ensures Snapshot() == State(initialTime, generatorID, 0, 0)
    {
      this.initialTime := initialTime;
      this.generatorID := generatorID;
      currentSequenceID := 0;
      chronoTime := 0;
    }

    function Snapshot(): (st: State)
      reads this
    {
      State(initialTime, generatorID, currentSequenceID, chronoTime)
    }

    ghost predicate Valid()
      reads this
    {
      ValidState(Snapshot())
    }

    /** Generates one identifier; on overflow of the 40-bit time range returns 0
        and TimeOverflow, after the state has been advanced. */
    method GenerateID(nowMillis: int) returns (id: uint64, err: Option<Error>)
      requires Valid()
      modifies this
      ensures Valid()
      ensures Snapshot() == Advance(old(Snapshot()), nowMillis)
      ensures err.Some? <==> Overflowed(Snapshot())
      ensures err.Some? ==> err == Some(TimeOverflow) && id == 0
      ensures err.None? ==> id == GetID(Snapshot())
    {
      var newElapsedTime := nowMillis - initialTime;
      if newElapsedTime > chronoTime {
        chronoTime := newElapsedTime;
        currentSequenceID := NextSequence(currentSequenceID);
      } else {
        currentSequenceID := NextSequence(currentSequenceID);
      }

      if chronoTime > MaxChronoTime {
        return 0, Some(TimeOverflow);
      }

      return GetID(Snapshot()), None;
    }

    /** Generates n identifiers in call order, the k-th call reading clock(k).
        More than SequenceIdMask identifiers are refused without touching the
        generator; a failing call ends the batch with the identifiers made so far. */
    method GenerateIDs(n: uint16, clock: nat -> int) returns (ids: seq<uint64>, err: Option<Error>)
      requires Valid()
      modifies this
      ensures Valid()
      ensures n > SequenceIdMask ==>
        ids == [] && err == Some(SequenceLimitExceeded) && Snapshot() == old(Snapshot())
      ensures n <= SequenceIdMask ==>
        BatchResult(ids, Snapshot(), err) == Batch(old(Snapshot()), n, clock)
      ensures n <= SequenceIdMask ==> |ids| <= n
      ensures n <= SequenceIdMask ==> forall k {:trigger ids[k]} :: 0 <= k < |ids| ==>
        ids[k] == GetID(After(old(Snapshot()), k + 1, clock))
      ensures n <= SequenceIdMask && |ids| > 0 ==> !Overflowed(After(old(Snapshot()), |ids|, clock))
      ensures n <= SequenceIdMask && err.None? ==> |ids| == n && Snapshot() == After(old(Snapshot()), n, clock)
      ensures n <= SequenceIdMask && err.Some? ==>
        err == Some(TimeOverflow) && |ids| < n &&
        Snapshot() == After(old(Snapshot()), |ids| + 1, clock) && Overflowed(Snapshot())
      ensures old(currentSequenceID) + n <= SequenceIdMask ==>
        forall a, b :: 0 <= a < b < |ids| ==> ids[a] < ids[b]
    {
      if n > SequenceIdMask {
        return [], Some(SequenceLimitExceeded);
      }
      ghost var start := Snapshot();
      ids, err := [], None;
      var i: uint16 := 0;
      while i < n
        invariant 0 <= i <= n
        invariant Valid()
        invariant Batch(start, i, clock) == BatchResult(ids, Snapshot(), None)
      {
        var id, e := GenerateID(clock(i));
        if e.Some? {
          err := e;
          BatchStaysFailed(start, i + 1, n, clock);
          break;
        }
        ids := ids + [id];
        i := i + 1;
      }
      assert BatchResult(ids, Snapshot(), err) == Batch(start, n, clock);
      BatchFacts(start, n, clock);
      if start.sequenceID + n <= SequenceIdMask {
        BatchIncreasing(start, n, clock);
      }
    }
  }

  /** Validates the configuration, checking the start time first, substitutes the
      default epoch for an unset start time and builds a generator with both
      counters at zero. */
  method NewSSID(config: Config, nowMillis: int) returns (r: Result<SSID>)
    modifies config
    ensures config.generatorID == old(config.generatorID)
    ensures old(config.startTime) > nowMillis ==> r == Err(InvalidStartTime)
    ensures old(config.startTime) <= nowMillis && old(config.generatorID) > MaxGeneratorID ==>
      r == Err(InvalidGeneratorID)
    ensures r.Ok? <==> old(config.startTime) <= nowMillis && old(config.generatorID) <= MaxGeneratorID
    ensures r.Err? ==> config.startTime == old(config.startTime)
    ensures r.Ok? ==>
      config.startTime == (if old(config.startTime) == ZeroTimeMillis then DefaultStartMillis
                           else old(config.startTime))
    ensures r.Ok? ==>
      fresh(r.value) && r.value.Valid() &&
      r.value.Snapshot() == State(config.startTime, config.generatorID, 0, 0)
  {
    if config.startTime > nowMillis {
      return Err(InvalidStartTime);
    }

    if config.generatorID > MaxGeneratorID {
      return Err(InvalidGeneratorID);
    }

    if config.startTime == ZeroTimeMillis {
      config.startTime := DefaultStartMillis;
    }

    var ssid := new SSID(config.startTime, config.generatorID);
    return Ok(ssid);
  }
}
