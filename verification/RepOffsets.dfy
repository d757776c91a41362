/** Repeat offsets (section 3.1.1.5 of RFC 8878): the encoder's choice of an
    offset value and the decoder's reading of it keep the same history. */
module RepOffsets {

  datatype Reps = Reps(r0: nat, r1: nat, r2: nat) {
    /** The offsets the format starts a frame with, or a dictionary's, are
        nonzero. */
    predicate NonZero() {
      r0 > 0 && r1 > 0 && r2 > 0
    }
  }

  const INITIAL := Reps(1, 4, 8)

  datatype Coded = Coded(offsetValue: nat, reps: Reps)

  datatype Offset = Offset(offset: nat, reps: Reps)

  /** The encoder's offset value for a sequence, and its history after it. */
  function EncodeOffset(offset: nat, literalLength: nat, reps: Reps): Coded
    requires reps.r0 > 0
  {
    var noLits := literalLength == 0;
    var c1 := if noLits then reps.r1 else reps.r0;
    var c2 := if noLits then reps.r2 else reps.r1;
    var c3 := if noLits then reps.r0 - 1 else reps.r2;
    var value := if offset == c1 then 1
                 else if offset == c2 then 2
                 else if offset == c3 then 3
                 else offset + 3;
    var keep := !noLits && value == 1;
    var swap := value == if noLits then 1 else 2;
    Coded(value, Reps(offset, if keep then reps.r1 else reps.r0, if keep || swap then reps.r2 else reps.r1))
  }

  /** `rep0.wrapping_sub(1)`. */
  function WrappingPred(x: nat): nat {
    if x == 0 then 0xFFFF_FFFF else x - 1
  }

  /** The decoder's offset for an offset value. */
  function DecodeOffset(value: nat, literalLength: nat, reps: Reps): Offset
    requires value > 0
  {
    if value > 3 then
      Offset(value - 3, Reps(value - 3, reps.r0, reps.r1))
    else
      var idx := value - 1 + (if literalLength == 0 then 1 else 0);
      var offset := match idx case 0 => reps.r0 case 1 => reps.r1 case 2 => reps.r2 case _ => WrappingPred(reps.r0);
      Offset(offset, Reps(offset, if idx >= 1 then reps.r0 else reps.r1, if idx >= 2 then reps.r1 else reps.r2))
  }

  /** The decoder reads the encoder's offset and ends with its history. */
  lemma OffsetRoundTrip(offset: nat, literalLength: nat, reps: Reps)
    requires reps.NonZero() && offset > 0
    ensures EncodeOffset(offset, literalLength, reps).offsetValue > 0
    ensures DecodeOffset(EncodeOffset(offset, literalLength, reps).offsetValue, literalLength, reps)
      == Offset(offset, EncodeOffset(offset, literalLength, reps).reps)
    ensures EncodeOffset(offset, literalLength, reps).reps.NonZero()
  {
  }

  /** What the format's table says of an offset value: 1 to 3 repeat an offset, one
      further without literals, 4 and up are new, and the history keeps the last
      three in order of use. */
  lemma OffsetTable(value: nat, literalLength: nat, reps: Reps)
    requires value > 0
    ensures var o := DecodeOffset(value, literalLength, reps);
      var place := if value > 3 then 0 else if literalLength > 0 then value else value + 1;
      && (place == 0 ==> o == Offset(value - 3, Reps(value - 3, reps.r0, reps.r1)))
      && (place == 1 ==> o == Offset(reps.r0, reps))
      && (place == 2 ==> o == Offset(reps.r1, Reps(reps.r1, reps.r0, reps.r2)))
      && (place == 3 ==> o == Offset(reps.r2, Reps(reps.r2, reps.r0, reps.r1)))
      && (place == 4 ==>
        var last := if reps.r0 > 0 then reps.r0 - 1 else 0xFFFF_FFFF;
        o == Offset(last, Reps(last, reps.r0, reps.r1)))
  {
  }
}
