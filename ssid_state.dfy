/** The generator's state as a value, the identifier layout (`getID`) and one
    step of the generation state machine (`GenerateID`), with the facts that
    the generator promises about them. The mutable generator object in module
    Ssid is specified by these functions. */
module SsidState {
  import opened Bits

  type uint16 = x: int | 0 <= x < 0x1_0000
  type uint64 = x: int | 0 <= x < 0x1_0000_0000_0000_0000

  // Bit widths of the three fields of an identifier.
  const IDMaxBitLen: nat := 63
  const TimeLenBit: nat := 40
  const GeneratorLenBit: nat := 8
  const SequenceLenBit: nat := IDMaxBitLen - TimeLenBit - GeneratorLenBit

  /** 1 << SequenceLenBit - 1, the mask that keeps the sequence counter in range. */
  const SequenceIdMask: uint16 := 0x7FFF
  /** 1 << GeneratorLenBit - 1, the largest generator ID a configuration may carry. */
  const MaxGeneratorID: uint16 := 0xFF
  /** 1 << TimeLenBit - 1, the largest elapsed time an identifier can encode. */
  const MaxChronoTime: int := 0xFF_FFFF_FFFF

  datatype Error = InvalidStartTime | InvalidGeneratorID | SequenceLimitExceeded | TimeOverflow

  datatype Option<T> = None | Some(value: T)

  datatype Result<T> = Ok(value: T) | Err(error: Error)

  /** The fields of a generator: epoch origin and elapsed time in milliseconds. */
  datatype State = State(initialTime: int, generatorID: uint16, sequenceID: uint16, chronoTime: int)

  /** What construction establishes and generation keeps. */
  predicate ValidState(st: State) {
    st.sequenceID <= SequenceIdMask && st.chronoTime >= 0 && st.generatorID <= MaxGeneratorID
  }

  predicate Overflowed(st: State) {
    st.chronoTime > MaxChronoTime
  }

  lemma LayoutPowers()
    ensures SequenceLenBit == 15 && GeneratorLenBit + SequenceLenBit == 23
    ensures Pow2(15) == 0x8000 && Pow2(16) == 0x1_0000 && Pow2(23) == 0x80_0000
    ensures Pow2(64) == 0x1_0000_0000_0000_0000
    ensures SequenceIdMask == Pow2(SequenceLenBit) - 1
  {
    assert Pow2(7) == 0x80 && Pow2(8) == 0x100;
    Pow2Add(8, 7);
    Pow2Add(8, 8);
    Pow2Add(16, 7);
    Pow2Add(16, 16);
    Pow2Add(32, 32);
  }

  /** The largest generator ID is the all-ones value of its 8-bit field. */
  lemma GeneratorIDLimit()
    ensures MaxGeneratorID == Pow2(GeneratorLenBit) - 1
  {
    LayoutPowers();
    Pow2Add(8, 15);
  }

  /** The largest elapsed time is the all-ones value of its 40-bit field. */
  lemma ChronoTimeLimit()
    ensures MaxChronoTime == Pow2(TimeLenBit) - 1
  {
    LayoutPowers();
    Pow2Add(8, 15);
    Pow2Add(16, 16);
    Pow2Add(32, 8);
  }

  /** `uint64(chronoTime << (GeneratorLenBit + SequenceLenBit))`: an int64 shift,
      reinterpreted as uint64. Within the 40-bit range nothing is lost. */
  function MaskedTime(chronoTime: int): (t: uint64)
    ensures 0 <= chronoTime <= MaxChronoTime ==> t == chronoTime * 0x80_0000
  {
    (chronoTime * 0x80_0000) % 0x1_0000_0000_0000_0000
  }

  /** `uint64(generatorID << SequenceLenBit)`: the shift is evaluated in uint16,
      so only the lowest bit of the generator ID survives, at bit 15. */
  function MaskedGeneratorID(generatorID: uint16): (g: uint16)
    ensures g == (generatorID % 2) * 0x8000
  {
    ModUnique(generatorID * 0x8000, 0x1_0000, generatorID / 2, (generatorID % 2) * 0x8000);
    (generatorID * 0x8000) % 0x1_0000
  }

  /** getID: the masked time, generator ID and sequence counter OR-ed together. */
  function GetID(st: State): (id: uint64)
  {
    var maskedTime := MaskedTime(st.chronoTime);
    var maskedGeneratorID := MaskedGeneratorID(st.generatorID);
    LayoutPowers();
    OrBound(maskedTime, maskedGeneratorID, 64);
    OrBound(Or(maskedTime, maskedGeneratorID), st.sequenceID, 64);
    Or(Or(maskedTime, maskedGeneratorID), st.sequenceID)
  }

  /** `(currentSequenceID + 1) & SequenceIdMask` in uint16 arithmetic. */
  function NextSequence(s: uint16): (r: uint16)
    ensures r == (s + 1) % 0x8000
  {
    var x := (s + 1) % 0x1_0000;
    assert x == if s + 1 < 0x1_0000 then s + 1 else 0;
    LayoutPowers();
    AndLowMask(x, SequenceLenBit);
    And(x, SequenceIdMask)
  }

  /** The state update of one GenerateID call when the wall clock reads
      nowMillis; the call fails exactly when the result is Overflowed, and
      otherwise returns GetID of the result. */
  function Advance(st: State, nowMillis: int): (next: State)
    ensures next.initialTime == st.initialTime && next.generatorID == st.generatorID
    ensures next.sequenceID == (st.sequenceID + 1) % 0x8000
    ensures next.chronoTime >= st.chronoTime && next.chronoTime >= nowMillis - st.initialTime
    ensures next.chronoTime == st.chronoTime || next.chronoTime == nowMillis - st.initialTime
  {
    var newElapsedTime := nowMillis - st.initialTime;
    var chronoTime := if newElapsedTime > st.chronoTime then newElapsedTime else st.chronoTime;
    st.(sequenceID := NextSequence(st.sequenceID), chronoTime := chronoTime)
  }

  /** The state after k GenerateID calls, the i-th of them reading clock(i). */
  function After(st: State, k: nat, clock: nat -> int): (r: State)
    decreases k
  {
    if k == 0 then st else Advance(After(st, k - 1, clock), clock(k - 1))
  }

  // ----- Bit layout -----

  /** Within the 40-bit time range the three parts occupy disjoint bits, so the
      OR is a sum, and the identifier fits in 63 bits. */
  lemma GetIDLayout(st: State)
    requires 0 <= st.chronoTime <= MaxChronoTime && st.sequenceID <= SequenceIdMask
    ensures GetID(st) == st.chronoTime * 0x80_0000 + (st.generatorID % 2) * 0x8000 + st.sequenceID
    ensures GetID(st) < 0x8000_0000_0000_0000
  {
    LayoutPowers();
    var c, g, s := st.chronoTime, st.generatorID, st.sequenceID;
    var maskedTime, maskedGeneratorID := MaskedTime(c), MaskedGeneratorID(g);
    OrDisjoint(c * 0x80, maskedGeneratorID, 16);
    assert Or(maskedTime, maskedGeneratorID) == (c * 0x100 + g % 2) * 0x8000;
    OrDisjoint(c * 0x100 + g % 2, s, 15);
  }

  /** Decoding recovers the fields: `id >> 23` is the elapsed time,
      `id & SequenceIdMask` the sequence counter and bit 15 the generator ID's
      lowest bit. */
  lemma GetIDFields(st: State)
    requires 0 <= st.chronoTime <= MaxChronoTime && st.sequenceID <= SequenceIdMask
    ensures GetID(st) / 0x80_0000 == st.chronoTime
    ensures And(GetID(st), SequenceIdMask) == st.sequenceID
    ensures (GetID(st) / 0x8000) % 2 == st.generatorID % 2
  {
    LayoutPowers();
    GetIDLayout(st);
    var id := GetID(st);
    var c, b, s := st.chronoTime, st.generatorID % 2, st.sequenceID;
    ModUnique(id, 0x80_0000, c, b * 0x8000 + s);
    AndLowMask(id, SequenceLenBit);
    ModUnique(id, 0x8000, c * 0x100 + b, s);
    ModUnique(c * 0x100 + b, 2, c * 0x80, b);
  }

  // ----- One generation step -----

  lemma AdvanceKeepsValid(st: State, nowMillis: int)
    requires ValidState(st)
    ensures ValidState(Advance(st, nowMillis))
  {
  }

  /** The sequence counter wraps from its largest value to zero. */
  lemma SequenceWraps(st: State, nowMillis: int)
    requires st.sequenceID == SequenceIdMask
    ensures Advance(st, nowMillis).sequenceID == 0
  {
    assert Advance(st, nowMillis).sequenceID == 0x8000 % 0x8000;
  }

  /** Once the time is beyond the 40-bit range it stays there, so after a
      failing call every later call fails, whatever the clock reads. */
  lemma OverflowIsPermanent(st: State, nowMillis: int)
    requires Overflowed(st)
    ensures Overflowed(Advance(st, nowMillis))
  {
  }

  /** For two consecutive successful calls, the second identifier is larger than
      the first exactly when the time advanced or the sequence did not wrap. */
  lemma ConsecutiveIdsIncrease(st: State, nowMillis: int)
    requires ValidState(st) && !Overflowed(st)
    requires !Overflowed(Advance(st, nowMillis))
    ensures GetID(st) < GetID(Advance(st, nowMillis)) <==>
      (Advance(st, nowMillis).chronoTime > st.chronoTime || st.sequenceID < SequenceIdMask)
  {
    var next := Advance(st, nowMillis);
    GetIDLayout(st);
    GetIDLayout(next);
  }

  /** The boundary of the 40-bit range: an elapsed time of 34 years of
      365 days still encodes, one of 35 years does not. */
  lemma ThirtyFourYearsFitThirtyFiveDoNot(st: State, nowMillis: int)
    ensures st.chronoTime <= 34 * YearMillis && nowMillis - st.initialTime <= 34 * YearMillis ==>
      !Overflowed(Advance(st, nowMillis))
    ensures nowMillis - st.initialTime >= 35 * YearMillis ==> Overflowed(Advance(st, nowMillis))
  {
  }

  const YearMillis: int := 365 * 24 * 60 * 60 * 1000

  // ----- Several generation steps -----

  lemma {:induction false} AfterKeepsIdentity(st: State, k: nat, clock: nat -> int)
    ensures After(st, k, clock).initialTime == st.initialTime
    ensures After(st, k, clock).generatorID == st.generatorID
    decreases k
  {
    if k > 0 {
      AfterKeepsIdentity(st, k - 1, clock);
    }
  }

  lemma {:induction false} AfterKeepsValid(st: State, k: nat, clock: nat -> int)
    requires ValidState(st)
    ensures ValidState(After(st, k, clock))
    decreases k
  {
    if k > 0 {
      AfterKeepsValid(st, k - 1, clock);
    }
  }

  lemma SequenceModSucc(a: nat)
    ensures (a % 0x8000 + 1) % 0x8000 == (a + 1) % 0x8000
  {
    if a % 0x8000 + 1 < 0x8000 {
      ModUnique(a + 1, 0x8000, a / 0x8000, a % 0x8000 + 1);
      ModUnique(a % 0x8000 + 1, 0x8000, 0, a % 0x8000 + 1);
    } else {
      ModUnique(a + 1, 0x8000, a / 0x8000 + 1, 0);
      ModUnique(a % 0x8000 + 1, 0x8000, 1, 0);
    }
  }

  /** After k calls the counter has advanced by k, modulo 2^15. */
  lemma {:induction false} AfterSequence(st: State, k: nat, clock: nat -> int)
    requires st.sequenceID <= SequenceIdMask
    ensures After(st, k, clock).sequenceID == (st.sequenceID + k) % 0x8000
    decreases k
  {
    if k > 0 {
      var prev := After(st, k - 1, clock);
      var m: nat := st.sequenceID + k - 1;
      AfterSequence(st, k - 1, clock);
      assert prev.sequenceID == m % 0x8000;
      assert After(st, k, clock) == Advance(prev, clock(k - 1));
      SequenceModSucc(m);
      assert m + 1 == st.sequenceID + k;
    }
  }

  /** The elapsed time never decreases, whatever the clock reads. */
  lemma {:induction false} AfterChronoMonotone(st: State, i: nat, j: nat, clock: nat -> int)
    requires i <= j
    ensures After(st, i, clock).chronoTime <= After(st, j, clock).chronoTime
    decreases j
  {
    if i < j {
      AfterChronoMonotone(st, i, j - 1, clock);
    }
  }

  /** Once a call fails, every later call on the same generator fails. */
  lemma OnceFailedAlwaysFails(st: State, i: nat, j: nat, clock: nat -> int)
    requires i <= j && Overflowed(After(st, i, clock))
    ensures Overflowed(After(st, j, clock))
  {
    AfterChronoMonotone(st, i, j, clock);
  }

  /** Within one sweep of the sequence counter, later identifiers are larger. */
  lemma BatchIdsIncrease(st: State, i: nat, j: nat, clock: nat -> int)
    requires ValidState(st) && i < j && st.sequenceID + j <= SequenceIdMask
    requires !Overflowed(After(st, j, clock))
    ensures GetID(After(st, i, clock)) < GetID(After(st, j, clock))
  {
    var a, b := After(st, i, clock), After(st, j, clock);
    AfterKeepsIdentity(st, i, clock);
    AfterKeepsIdentity(st, j, clock);
    AfterSequence(st, i, clock);
    AfterSequence(st, j, clock);
    ModUnique(st.sequenceID + i, 0x8000, 0, st.sequenceID + i);
    ModUnique(st.sequenceID + j, 0x8000, 0, st.sequenceID + j);
    AfterChronoMonotone(st, 0, i, clock);
    AfterChronoMonotone(st, i, j, clock);
    IdsOrderedByTimeThenSequence(a, b);
  }

  /** The outcome of a batch: the identifiers in call order, the state after the
      last call made and the error that ended the batch, if any. */
  datatype BatchResult = BatchResult(ids: seq<uint64>, last: State, err: Option<Error>)

  /** One round of the batch loop: nothing once a call has failed, otherwise one
      GenerateID call whose identifier is appended unless it fails. */
  function Extend(prev: BatchResult, nowMillis: int): (r: BatchResult)
  {
    if prev.err.Some? then prev
    else
      var next := Advance(prev.last, nowMillis);
      if Overflowed(next) then BatchResult(prev.ids, next, Some(TimeOverflow))
      else BatchResult(prev.ids + [GetID(next)], next, None)
  }

  /** n GenerateID calls in sequence, the k-th reading clock(k), ending at the
      first failing call. */
  function Batch(st: State, n: nat, clock: nat -> int): (r: BatchResult)
    decreases n
  {
    if n == 0 then BatchResult([], st, None) else Extend(Batch(st, n - 1, clock), clock(n - 1))
  }

  /** A batch makes all n calls, or fewer and ends with TimeOverflow and the
      overflowed state of the call that failed. */
  lemma {:induction false} BatchOutcome(st: State, n: nat, clock: nat -> int)
    ensures |Batch(st, n, clock).ids| <= n
    ensures |Batch(st, n, clock).ids| > 0 ==> !Overflowed(After(st, |Batch(st, n, clock).ids|, clock))
    ensures Batch(st, n, clock).err.None? ==>
      |Batch(st, n, clock).ids| == n && Batch(st, n, clock).last == After(st, n, clock)
    ensures Batch(st, n, clock).err.Some? ==>
      Batch(st, n, clock).err == Some(TimeOverflow) && |Batch(st, n, clock).ids| < n &&
      Batch(st, n, clock).last == After(st, |Batch(st, n, clock).ids| + 1, clock) &&
      Overflowed(Batch(st, n, clock).last)
    decreases n
  {
    if n > 0 {
      BatchOutcome(st, n - 1, clock);
      var prev := Batch(st, n - 1, clock);
      assert Batch(st, n, clock) == Extend(prev, clock(n - 1));
      if prev.err.None? {
        var next := Advance(prev.last, clock(n - 1));
        assert next == After(st, n, clock);
      }
    }
  }

  /** The k-th identifier of a batch is the one the (k+1)-th call returns. */
  lemma {:induction false} BatchIds(st: State, n: nat, clock: nat -> int)
    ensures forall k {:trigger Batch(st, n, clock).ids[k]} :: 0 <= k < |Batch(st, n, clock).ids| ==>
      Batch(st, n, clock).ids[k] == GetID(After(st, k + 1, clock))
    decreases n
  {
    if n > 0 {
      BatchIds(st, n - 1, clock);
      var prev := Batch(st, n - 1, clock);
      assert Batch(st, n, clock) == Extend(prev, clock(n - 1));
      if prev.err.None? && !Overflowed(Advance(prev.last, clock(n - 1))) {
        BatchOutcome(st, n - 1, clock);
        var next := Advance(prev.last, clock(n - 1));
        var ids := prev.ids + [GetID(next)];
        assert Batch(st, n, clock).ids == ids;
        forall k | 0 <= k < |ids|
          ensures ids[k] == GetID(After(st, k + 1, clock))
        {
          if k < |prev.ids| {
            assert ids[k] == prev.ids[k];
          } else {
            assert After(st, k + 1, clock) == next;
          }
        }
      }
    }
  }

  /** A batch returns, in order, the identifiers of its successful calls; it
      returns all n of them, or fewer together with TimeOverflow and the
      overflowed state of the call that failed. */
  lemma BatchFacts(st: State, n: nat, clock: nat -> int)
    ensures |Batch(st, n, clock).ids| <= n
    ensures forall k {:trigger Batch(st, n, clock).ids[k]} :: 0 <= k < |Batch(st, n, clock).ids| ==>
      Batch(st, n, clock).ids[k] == GetID(After(st, k + 1, clock))
    ensures |Batch(st, n, clock).ids| > 0 ==> !Overflowed(After(st, |Batch(st, n, clock).ids|, clock))
    ensures Batch(st, n, clock).err.None? ==>
      |Batch(st, n, clock).ids| == n && Batch(st, n, clock).last == After(st, n, clock)
    ensures Batch(st, n, clock).err.Some? ==>
      Batch(st, n, clock).err == Some(TimeOverflow) && |Batch(st, n, clock).ids| < n &&
      Batch(st, n, clock).last == After(st, |Batch(st, n, clock).ids| + 1, clock) &&
      Overflowed(Batch(st, n, clock).last)
  {
    BatchOutcome(st, n, clock);
    BatchIds(st, n, clock);
  }

  /** Nothing happens after the first failing call of a batch. */
  lemma {:induction false} BatchStaysFailed(st: State, i: nat, n: nat, clock: nat -> int)
    requires i <= n && Batch(st, i, clock).err.Some?
    ensures Batch(st, n, clock) == Batch(st, i, clock)
    decreases n
  {
    if i < n {
      BatchStaysFailed(st, i, n - 1, clock);
      assert Batch(st, n, clock) == Batch(st, n - 1, clock);
    }
  }

  /** The identifiers of a batch that stays within one sweep of the sequence
      counter are strictly increasing. */
  lemma BatchSorted(st: State, ids: seq<uint64>, clock: nat -> int)
    requires ValidState(st) && st.sequenceID + |ids| <= SequenceIdMask
    requires forall k {:trigger ids[k]} :: 0 <= k < |ids| ==> ids[k] == GetID(After(st, k + 1, clock))
    requires |ids| > 0 ==> !Overflowed(After(st, |ids|, clock))
    ensures forall a, b :: 0 <= a < b < |ids| ==> ids[a] < ids[b]
  {
    forall a, b | 0 <= a < b < |ids| ensures ids[a] < ids[b] {
      var x, y := ids[a], ids[b];  // instantiates the hypothesis about both elements
      AfterChronoMonotone(st, b + 1, |ids|, clock);
      BatchIdsIncrease(st, a + 1, b + 1, clock);
    }
  }

  /** A batch that stays within one sweep of the sequence counter returns
      strictly increasing identifiers. */
  lemma BatchIncreasing(st: State, n: nat, clock: nat -> int)
    requires ValidState(st) && st.sequenceID + n <= SequenceIdMask
    ensures forall a, b :: 0 <= a < b < |Batch(st, n, clock).ids| ==>
      Batch(st, n, clock).ids[a] < Batch(st, n, clock).ids[b]
  {
    BatchFacts(st, n, clock);
    BatchSorted(st, Batch(st, n, clock).ids, clock);
  }

  /** Identifiers of one generator compare by time first, then by sequence. */
  lemma IdsOrderedByTimeThenSequence(a: State, b: State)
    requires 0 <= a.chronoTime <= MaxChronoTime && 0 <= b.chronoTime <= MaxChronoTime
    requires a.generatorID == b.generatorID
    requires a.sequenceID <= SequenceIdMask && b.sequenceID <= SequenceIdMask
    ensures GetID(a) < GetID(b) <==>
      a.chronoTime < b.chronoTime || (a.chronoTime == b.chronoTime && a.sequenceID < b.sequenceID)
  {
    GetIDLayout(a);
    GetIDLayout(b);
  }

  /** A call made in a later millisecond returns a larger identifier, whatever
      the counters, as long as neither call overflows. */
  lemma LaterMillisecondLargerId(st: State, i: nat, j: nat, clock: nat -> int)
    requires ValidState(st)
    ensures (After(st, i, clock).chronoTime < After(st, j, clock).chronoTime &&
             !Overflowed(After(st, j, clock))) ==>
            GetID(After(st, i, clock)) < GetID(After(st, j, clock))
  {
    var a, b := After(st, i, clock), After(st, j, clock);
    if a.chronoTime < b.chronoTime && !Overflowed(b) {
      AfterKeepsValid(st, i, clock);
      AfterKeepsValid(st, j, clock);
      AfterKeepsIdentity(st, i, clock);
      AfterKeepsIdentity(st, j, clock);
      IdsOrderedByTimeThenSequence(a, b);
    }
  }

  lemma {:induction false} StalledClockKeepsTime(st: State, k: nat, clock: nat -> int)
    requires forall n :: 0 <= n < k ==> clock(n) - st.initialTime <= st.chronoTime
    ensures After(st, k, clock).chronoTime == st.chronoTime
    decreases k
  {
    if k > 0 {
      StalledClockKeepsTime(st, k - 1, clock);
      AfterKeepsIdentity(st, k - 1, clock);
    }
  }

  /** The counter is not reset when time advances, and it wraps: if the clock
      shows no newer millisecond for a multiple of 2^15 calls, the generator is
      back in the state it started from and repeats an identifier it already
      returned. */
  lemma StalledClockRepeatsId(st: State, k: nat, clock: nat -> int)
    requires ValidState(st) && k % 0x8000 == 0
    requires forall n :: 0 <= n < k ==> clock(n) - st.initialTime <= st.chronoTime
    ensures After(st, k, clock) == st
  {
    StalledClockKeepsTime(st, k, clock);
    AfterKeepsIdentity(st, k, clock);
    AfterSequence(st, k, clock);
    ModUnique(st.sequenceID + k, 0x8000, k / 0x8000, st.sequenceID);
  }
}
