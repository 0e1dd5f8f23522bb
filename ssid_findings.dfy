/** The generator-ID field of the identifier. The layout gives the generator ID
    eight bits (bits 15 to 22), but `generatorID << SequenceLenBit` is computed
    in uint16 before the widening to uint64, so all but the lowest bit of the
    generator ID are shifted out. GetID (module SsidState) keeps that behaviour;
    GetIDIntended widens first, as the layout intends. */
module SsidFindings {
  import opened Bits
  import opened SsidState

  /** As written: generator IDs of equal parity give the same identifiers. */
  lemma AsWrittenGeneratorIDsCollide(a: State, b: State)
    requires 0 <= a.chronoTime <= MaxChronoTime && a.sequenceID <= SequenceIdMask
    requires b == a.(generatorID := b.generatorID) && a.generatorID % 2 == b.generatorID % 2
    ensures GetID(a) == GetID(b)
  {
    GetIDLayout(a);
    GetIDLayout(b);
  }

  /** The concrete case: generators 0 and 2, both valid, at the same time and sequence. */
  lemma AsWrittenGeneratorsZeroAndTwoCollide(initialTime: int, chronoTime: int, sequenceID: uint16)
    requires 0 <= chronoTime <= MaxChronoTime && sequenceID <= SequenceIdMask
    ensures GetID(State(initialTime, 0, sequenceID, chronoTime)) == GetID(State(initialTime, 2, sequenceID, chronoTime))
  {
    AsWrittenGeneratorIDsCollide(State(initialTime, 0, sequenceID, chronoTime), State(initialTime, 2, sequenceID, chronoTime));
  }

  /** `uint64(generatorID) << SequenceLenBit`: widened first, nothing is lost. */
  function MaskedGeneratorIDIntended(generatorID: uint16): (g: uint64)
    ensures g == generatorID * 0x8000
  {
    ModUnique(generatorID * 0x8000, 0x1_0000_0000_0000_0000, 0, generatorID * 0x8000);
    (generatorID * 0x8000) % 0x1_0000_0000_0000_0000
  }

  /** `uint64(chronoTime) << 23 | uint64(generatorID) << 15 | uint64(currentSequenceID)`. */
  function GetIDIntended(st: State): (id: uint64)
  {
    var maskedTime := MaskedTime(st.chronoTime);
    var maskedGeneratorID := MaskedGeneratorIDIntended(st.generatorID);
    var maskedSequenceID := st.sequenceID;
    LayoutPowers();
    OrBound(maskedTime, maskedGeneratorID, 64);
    OrBound(Or(maskedTime, maskedGeneratorID), maskedSequenceID, 64);
    Or(Or(maskedTime, maskedGeneratorID), maskedSequenceID)
  }

  /** With the widening done first the three fields are [time 40][generator 8][sequence 15]. */
  lemma IntendedLayout(st: State)
    requires ValidState(st) && !Overflowed(st)
    ensures GetIDIntended(st) == st.chronoTime * 0x80_0000 + st.generatorID * 0x8000 + st.sequenceID
    ensures GetIDIntended(st) < 0x8000_0000_0000_0000
  {
    LayoutPowers();
    Pow2Add(16, 7);
    var c, g, s := st.chronoTime, st.generatorID, st.sequenceID;
    var maskedTime, maskedGeneratorID := MaskedTime(c), MaskedGeneratorIDIntended(g);
    OrDisjoint(c, maskedGeneratorID, 23);
    OrDisjoint(c * 0x100 + g, s, 15);
  }

  /** Decoding the corrected identifier recovers all three fields. */
  lemma IntendedFields(st: State)
    requires ValidState(st) && !Overflowed(st)
    ensures GetIDIntended(st) / 0x80_0000 == st.chronoTime
    ensures (GetIDIntended(st) / 0x8000) % 0x100 == st.generatorID
    ensures GetIDIntended(st) % 0x8000 == st.sequenceID
  {
    IntendedLayout(st);
    var id := GetIDIntended(st);
    var c, g, s := st.chronoTime, st.generatorID, st.sequenceID;
    ModUnique(id, 0x80_0000, c, g * 0x8000 + s);
    ModUnique(id, 0x8000, c * 0x100 + g, s);
    ModUnique(c * 0x100 + g, 0x100, c, g);
  }

  /** Corrected: distinct generators never produce the same identifier, and one
      generator produces distinct identifiers for distinct (time, sequence) pairs. */
  lemma IntendedIdsDistinct(a: State, b: State)
    requires ValidState(a) && !Overflowed(a) && ValidState(b) && !Overflowed(b)
    requires (a.chronoTime, a.generatorID, a.sequenceID) != (b.chronoTime, b.generatorID, b.sequenceID)
    ensures GetIDIntended(a) != GetIDIntended(b)
  {
    IntendedFields(a);
    IntendedFields(b);
  }
}
