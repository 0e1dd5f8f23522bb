# SSID generator model

This project models the `ssid` package of idgen, a generator of 63-bit
identifiers that sort by time. The package's constants declare three fields in
each identifier:
- bits 23 to 62: the elapsed milliseconds since a configured start time (40 bits);
- bits 15 to 22: a generator ID (8 bits);
- bits 0 to 14: a sequence counter (15 bits).

As the code is written, the generator field does not get its 8 bits. Bits 16 to 22
are always 0, and bit 15 holds only the lowest bit of the generator ID (see
"## Findings"). `SsidState.GetIDLayout` states this layout exactly.

The model and its proofs are split into four modules:

- `Bits` (`bits.dfy`) defines Go's `&` and `|` on naturals, bit by bit. It also proves
  what the generator needs about them:
  - masking with `2^k - 1` keeps the low `k` bits;
  - OR-ing fields with disjoint bits is their sum;
  - OR stays within the width of its operands.
- `SsidState` (`ssid_state.dfy`) covers the generator's pure side:
  - the layout constants;
  - `getID`, together with how the shifts are cast;
  - one `GenerateID` step as a function on a `State` value (`Advance`);
  - `After`: `k` steps in a row;
  - `Batch`: the loop of `GenerateIDs` as a recursive function.

  It also holds the lemmas about these: bit layout and decoding, sequence wrap,
  monotone time, permanent overflow, the 34/35-year bound, ordering of consecutive
  and batched identifiers, and the repeat after a full sweep of the counter under a
  stalled clock.
- `Ssid` (`ssid.dfy`) holds:
  - `Config`, and the `SSID` class with the four fields of the Go struct;
  - the methods `GenerateID` and `GenerateIDs`, both proved against `Advance` and `Batch`;
  - `NewSSID`.
- `SsidFindings` (`ssid_findings.dfy`) covers the generator-ID truncation (see
  Findings). It gives both the code's behaviour and the layout the design intends.

Time is an integer number of milliseconds since the Unix epoch. The wall clock is
passed in as a parameter:
- `nowMillis` for `NewSSID` and `GenerateID`;
- a function `clock` for `GenerateIDs`, where call `k` reads `clock(k)`.

An unset Go `time.Time` is `ZeroTimeMillis` (0001-01-01T00:00:00Z).

## Model

| member | source | states |
|---|---|---|
| SsidState.LayoutPowers | ssid/ssid.go:12-28 | The sequence field is 15 bits wide, time sits above bit 23 and `SequenceIdMask` is `2^15 - 1` |
| SsidState.GeneratorIDLimit | ssid/ssid.go:57 | The largest accepted generator ID is `2^GeneratorLenBit - 1` |
| SsidState.ChronoTimeLimit | ssid/ssid.go:110 | The largest encodable elapsed time is `2^TimeLenBit - 1` |
| Bits.And | ssid/ssid.go:105 | Go's `&`, defined bit by bit; no ensures, its facts are `Bits.AndLowMask` and `SsidState.NextSequence` |
| Bits.Or | ssid/ssid.go:123 | Go's `\|`, defined bit by bit; no ensures, its facts are `Bits.OrDisjoint` and `Bits.OrBound` |
| Bits.AndLowMask | ssid/ssid.go:25-28 | `x & (2^k - 1)` is `x mod 2^k`: masking keeps exactly the k low bits |
| Bits.OrDisjoint | ssid/ssid.go:123 | OR of a multiple of `2^k` with a value below `2^k` equals their sum |
| Bits.OrBound | ssid/ssid.go:123 | OR of two values below `2^k` stays below `2^k`, so the identifier fits a uint64 |
| SsidState.MaskedTime | ssid/ssid.go:119 | Within the 40-bit range the shifted time is exactly `chronoTime * 2^23` |
| SsidState.MaskedGeneratorID | ssid/ssid.go:120 | The uint16 shift leaves `(generatorID mod 2) * 2^15`: only the lowest generator bit survives |
| SsidState.GetID | ssid/ssid.go:118-124 | `getID` as written; no ensures, its facts are `SsidState.GetIDLayout` and `SsidState.GetIDFields` |
| SsidState.NextSequence | ssid/ssid.go:105 | `(s + 1) & SequenceIdMask` in uint16 arithmetic is `(s + 1) mod 2^15` |
| SsidState.Advance | ssid/ssid.go:101-108 | One call increments the counter modulo 2^15 on both branches. The time becomes the larger of old time and new elapsed time, and generator and origin are kept |
| SsidState.After | ssid/ssid.go:98-108 | The state after k `GenerateID` calls, call i reading `clock(i)`; no ensures, its facts are the `After…` lemmas |
| SsidState.GetIDLayout | ssid/ssid.go:118-124 | In range, the identifier is `time * 2^23 + (gen mod 2) * 2^15 + seq` and is below 2^63 |
| SsidState.GetIDFields | ssid/ssid.go:118-124 | Decoding: `id >> 23` is the time, `id & SequenceIdMask` the counter, bit 15 the generator's low bit |
| SsidState.AdvanceKeepsValid | ssid/ssid.go:98-108 | A call keeps the counter within the mask, the time non-negative and the generator ID at most 255 |
| SsidState.SequenceWraps | ssid/ssid.go:105 | From `SequenceIdMask` the counter wraps to 0 |
| SsidState.OverflowIsPermanent | ssid/ssid.go:103-111 | Once the time is beyond `2^40 - 1`, the next call also overflows, whatever the clock says |
| SsidState.ConsecutiveIdsIncrease | ssid/ssid_test.go:37-44 | For two successful consecutive calls, the second id is larger if and only if time advanced or the counter did not wrap |
| SsidState.ThirtyFourYearsFitThirtyFiveDoNot | ssid/ssid_test.go:108-125 | From a state at most 34 years old, an elapsed time of 34 years of 365 days encodes. From any state, one of 35 years overflows |
| SsidState.AfterKeepsIdentity | ssid/ssid.go:98-108 | Generation never changes the start time or the generator ID |
| SsidState.AfterKeepsValid | ssid/ssid.go:98-108 | Any number of calls keep the state valid |
| SsidState.AfterSequence | ssid/ssid.go:103-108 | After k calls the counter has advanced by k modulo 2^15 |
| SsidState.AfterChronoMonotone | ssid/ssid.go:103-104 | The stored elapsed time never decreases over a run of calls, for any clock |
| SsidState.OnceFailedAlwaysFails | ssid/ssid.go:110-111 | After a call has overflowed, every later call overflows |
| SsidState.BatchIdsIncrease | ssid/ssid.go:98-124 | Within one sweep of the counter, a later successful call returns a larger id |
| SsidState.IdsOrderedByTimeThenSequence | ssid/ssid.go:118-124 | For one generator and in-range fields, one id is smaller than another if and only if its time is smaller, or the times are equal and its counter is smaller |
| SsidState.LaterMillisecondLargerId | ssid/ssid.go:98-124 | Over a run of calls, a call whose stored time is later returns a larger id whatever the counters, unless it overflows |
| SsidState.Extend | ssid/ssid.go:87-91 | One round of the batch loop; no ensures, its facts are `SsidState.BatchOutcome`, `SsidState.BatchIds` and `SsidState.BatchStaysFailed` |
| SsidState.Batch | ssid/ssid.go:84-94 | The batch loop as a recursive function; no ensures, its facts are the `Batch…` lemmas |
| SsidState.BatchOutcome | ssid/ssid.go:84-94 | A batch makes all n calls, or stops at the first failure reporting TimeOverflow. In both cases it gives the state of the last call |
| SsidState.BatchIds | ssid/ssid.go:86-91 | The k-th id of a batch is the id the (k+1)-th call returns |
| SsidState.BatchFacts | ssid/ssid.go:79-95 | The batch outcome and its ids together |
| SsidState.BatchStaysFailed | ssid/ssid.go:88-89 | After the first failure the batch loop does nothing more |
| SsidState.BatchSorted | ssid/ssid_test.go:58-65 | Ids of successive calls within one counter sweep are strictly increasing |
| SsidState.BatchIncreasing | ssid/ssid_test.go:46-66 | A batch that does not wrap the counter returns strictly increasing ids |
| SsidState.StalledClockKeepsTime | ssid/ssid.go:103-108 | While the clock shows no later millisecond, the stored time stays put |
| SsidState.StalledClockRepeatsId | ssid/ssid.go:103-108 | With a stalled clock, a multiple of 2^15 calls returns the generator to its start state, so it repeats identifiers |
| Ssid.Config.constructor | ssid/ssid.go:37-40 | A configuration holds the given generator ID and start time |
| Ssid.SSID.Snapshot | ssid/ssid.go:43-49 | The four data fields of the generator as a `State` value; no ensures, it is the abstract state the methods are specified by |
| Ssid.SSID.constructor | ssid/ssid.go:65-71 | A new generator has the given origin and generator ID and both counters at zero |
| Ssid.SSID.GenerateID | ssid/ssid.go:98-115 | The new state is `Advance` of the old. The call fails with TimeOverflow and id 0 exactly when the time is past `2^40 - 1`; otherwise it returns `GetID` of the new state |
| Ssid.SSID.GenerateIDs | ssid/ssid.go:79-95 | More than `SequenceIdMask` ids are refused and the state is untouched. Otherwise the result and new state are `Batch`: the partial ids on failure, strictly increasing ids within one counter sweep |
| Ssid.NewSSID | ssid/ssid.go:52-74 | A future start time is refused first, then a generator ID above 255. A zero start time is replaced by 2016-07-04 and written back into the configuration. The new generator is fresh with counters at zero |
| SsidFindings.AsWrittenGeneratorIDsCollide | ssid/ssid.go:120 | As written, generators whose IDs share the lowest bit produce identical identifiers |
| SsidFindings.AsWrittenGeneratorsZeroAndTwoCollide | ssid/ssid.go:120 | Generators 0 and 2, at the same time and counter, produce the same identifier |
| SsidFindings.MaskedGeneratorIDIntended | ssid/ssid.go:120 | Corrected: widening before the shift keeps the whole generator ID, `generatorID * 2^15` |
| SsidFindings.GetIDIntended | ssid/ssid.go:118-124 | `getID` with the generator ID widened before the shift; no ensures, its facts are the `Intended…` lemmas |
| SsidFindings.IntendedLayout | ssid/ssid.go:119-123 | With the generator ID widened before the shift, the id is `time * 2^23 + gen * 2^15 + seq` below 2^63 |
| SsidFindings.IntendedFields | ssid/ssid.go:119-123 | The corrected identifier decodes back to time, full 8-bit generator ID and counter |
| SsidFindings.IntendedIdsDistinct | ssid/ssid.go:119-123 | With the correction, distinct (time, generator, counter) triples give distinct ids |

## Left out

- The mutex in `SSID` and concurrent calls. Each `GenerateID` call is one atomic
  step. `GenerateIDs` is modelled as n steps in a row with no other caller in
  between: Go takes the lock once per `GenerateID` call, so other callers' calls can
  interleave inside a batch. The ensures of `Ssid.SSID.GenerateIDs` (the k-th id is
  that of the state after k + 1 calls, strict increase) hold only without such
  callers. The concurrent uniqueness test has no counterpart.
- `time.Time` and `time.Now()`: the times are millisecond integers given as parameters.
  - Nanosecond precision is not modelled.
  - `UnixNano` overflow outside the years 1678 to 2262 is not modelled.
  - `common.TimeInMilis` and `common.ElapsedTimeInMilis` are not part of this model;
    their `nanoseconds / 10^6` conversion is taken as already done.
- Ssid.SSID.GenerateID: the int64 subtraction `now - initialTime` in milliseconds is
  unbounded here. Both operands are `UnixNano() / 10^6`, at most about 9.2e12 in
  magnitude, so their difference cannot leave the int64 range and Go never wraps it.
- Ssid.SSID.GenerateIDs: Go returns `nil` for a refused batch and an empty slice for
  `n == 0`; both are the empty sequence here.
- Ssid.SSID.GenerateIDs: the text of the errors is not modelled; errors are the
  constructors of `Error`.
- The logging, the HTTP server (`server/`) and the command-line programs (`cmd/`)
  are not part of this model.

## Findings

| source | as written | input that shows it | evidently intended | confidence | as-written member | corrected member |
|---|---|---|---|---|---|---|
| ssid/ssid.go:120 | `uint64(ssid.generatorID << SequenceLenBit)` shifts a uint16, so bits 1 to 7 of the generator ID fall off before the widening | generator IDs 0 and 2, same elapsed time and counter: equal identifiers | widen first, `uint64(ssid.generatorID) << SequenceLenBit`, giving an 8-bit generator field at bits 15 to 22 | not executed | SsidFindings.AsWrittenGeneratorsZeroAndTwoCollide | SsidFindings.IntendedIdsDistinct |

Why the model keeps the shift as written:
- `Ssid.SSID` and `SsidState.GetID` keep this behaviour because the program has it.
- The properties proved about them depend only on a single generator, where the
  truncation does no harm.
- `SsidFindings.GetIDIntended` is the corrected layout. The corrected member's proofs are stated about it.
