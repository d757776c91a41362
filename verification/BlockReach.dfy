/** An emitted block under a bounded history: its offsets are its matches', which
    repeat bytes that the block has in front of it, no farther than the window. */
module BlockReach {
  import opened Arith
  import opened Bits
  import opened Wrappers
  import opened RepOffsets
  import opened Sequences
  import opened MatchSearch
  import opened LevelSearch
  import opened SeqPack
  import opened SeqStream
  import opened SeqCodes
  import opened SequenceEncode
  import opened EncoderTables
  import opened TableSection
  import opened Huffman
  import opened BlockFormat
  import opened BlockHeaders
  import opened FrameFormat
  import opened StreamFormat
  import opened StreamReach
  import opened BlockEncode

  /** The sequences of a parse, `at` being where they begin and `base` where the block
      does, have offsets within `reach` of the block's beginning: either all before it
      is, or every offset is. */
  lemma {:induction false} RawsWithin(w: seq<byte>, base: nat, at: nat, seqs: seq<Sequence>, reps: Reps, reach: nat)
    requires reps.NonZero() && Offsets(seqs) && Parses(w, at, seqs) && base <= at
    requires base <= reach || forall i :: 0 <= i < |seqs| ==> seqs[i].offset <= reach
    ensures OffsetsWithin(Raws(seqs, reps), reps, reach + (at - base))
    decreases |seqs|
  {
    hide DecodeOffset;
    if |seqs| > 0 {
      var s, rest := seqs[0], seqs[1..];
      CodedKeeps(s, reps);
      forall i | 0 <= i < |rest| ensures rest[i] == seqs[i + 1] {
      }
      RawsWithin(w, base, at + s.Span(), rest, Coded1(s, reps).reps, reach);
      assert Raws(seqs, reps)[1..] == Raws(rest, Coded1(s, reps).reps);
    }
  }

  lemma SectionStays(section: seq<byte>, header: seq<byte>, stream: seq<byte>, f: Fields, seqs: seq<Sequence>, top: nat,
                     st: EntropyState, reach: nat)
    requires st.reps.NonZero() && 0 < |seqs| < 98048 && AllCodable(seqs, top) && top <= OF_MAX && Packable(seqs)
    requires IsSection(section, PackAll(seqs, st.reps), header, stream, f, st.prev) && PrevReady(st.prev)
    requires OffsetsWithin(Raws(seqs, st.reps), st.reps, reach)
    ensures SequencesWithin(section, st, reach)
  {
    hide AllCodable, PackAll, Stream, AllPacked, Marked, Unmark, TablesReady, PrevReady, OffsetsWithin,
         Section, CountBytes, SequenceCount, FieldsLinked, Raws, DecodeStream;
    var p := PackAll(seqs, st.reps);
    SectionParts(section, header, stream, f, p, st.prev);
    StreamValues(stream, f, seqs, st.reps, top, p);
  }

  /** A window that covers the matches' reach, or the whole frame. */
  predicate KeepsReach(window: nat, far: nat, fr: Frame) {
    far <= window || fr.limit <= window
  }

  /** The bytes before a block that it may refer to are all of them, or as many as the
      matches reach. */
  lemma ReachEnough(fr: Frame, output: seq<byte>, far: nat, window: nat, n: nat)
    requires InFrame(fr, output) && KeepsReach(window, far, fr) && 0 < n && |output| - fr.start + n <= fr.limit
    ensures var reach := Reach(window, |fr.history|, |output| - fr.start);
      |fr.history| + |output| - fr.start <= reach || far <= reach
  {
  }

  lemma {:induction false} SpanPositive(seqs: seq<Sequence>, far: nat)
    requires |seqs| > 0 && AllGood(seqs, far)
    ensures Span(seqs) > 0 && Offsets(seqs) && forall i :: 0 <= i < |seqs| ==> seqs[i].offset <= far
  {
    assert GoodMatch(seqs[0], far);
    forall i | 0 <= i < |seqs| ensures 0 < seqs[i].offset <= far {
      assert GoodMatch(seqs[i], far);
    }
  }

  /** The decoder's offsets for a coded block. */
  lemma CodedStays(c: WeightCode, lits: seq<byte>, section: seq<byte>, header: seq<byte>, stream: seq<byte>, f: Fields,
                   seqs: seq<Sequence>, src: seq<byte>, fr: Frame, output: seq<byte>, st: EntropyState,
                   huf: Option<HufTable>, far: nat, window: nat)
    requires Sound(c) && StateReady(st) && BlockFits(fr, output, src, seqs)
    requires st.reps.NonZero() && 0 < |seqs| < 98048 && AllCodable(seqs, 28) && Packable(seqs)
    requires IsSection(section, PackAll(seqs, st.reps), header, stream, f, st.prev)
    requires LiteralsOf(c, lits + section, st.huf) == Ok(LitResult(|lits|, AllLiterals(src, seqs), huf))
    requires AllGood(seqs, far) && KeepsReach(window, far, fr)
    ensures BlockWithin(c, lits + section, st, Reach(window, |fr.history|, |output| - fr.start))
  {
    hide Sound, AllCodable, PackAll, PrevReady, IsSection, LiteralsOf, AllLiterals, Packable, Parses, Span, UsableTable,
         SequencesWithin, OffsetsWithin, Raws, Reach, AllGood, KeepsReach;
    StateParts(st);
    SpanPositive(seqs, far);
    var reach := Reach(window, |fr.history|, |output| - fr.start);
    ReachEnough(fr, output, far, window, |src|);
    var base := |fr.history| + |output| - fr.start;
    RawsWithin(fr.history + output[fr.start..] + src, base, base, seqs, st.reps, reach);
    SectionStays(section, header, stream, f, seqs, 28, st.(huf := huf), reach);
    assert (lits + section)[|lits|..] == section;
  }

  lemma AloneStays(c: WeightCode, lits: seq<byte>, src: seq<byte>, st: EntropyState, huf: Option<HufTable>, reach: nat)
    requires Sound(c) && StateReady(st) && LiteralsOf(c, lits + [0], st.huf) == Ok(LitResult(|lits|, src, huf))
    ensures BlockWithin(c, lits + [0], st, reach)
  {
    hide Sound, StateReady, LiteralsOf, SequencesWithin;
    StateParts(st);
    assert (lits + [0])[|lits|..] == [0];
    assert SequenceCount([0]) == Some((0, 1));
    NoSequences([0], st.(huf := huf), reach);
  }

  /** An emitted block's offsets are within the window, wherever it stands. */
  lemma BlockStays(c: WeightCode, input: seq<byte>, at: nat, fr: Frame, output: seq<byte>, st: EntropyState,
                   how: Coding, bytes: seq<byte>, src: seq<byte>, seqs: seq<Sequence>, reps: Reps, last: bool,
                   huf: Option<HufTable>, far: nat, window: nat)
    requires BlockInput(c, input, at, fr, output, st) && BlockFits(fr, output, src, seqs)
    requires AllCodable(seqs, 28) && (how.WithSequences? ==> AllGood(seqs, far) && KeepsReach(window, far, fr))
    requires Emitted(how, bytes, src, seqs, st.reps, reps, last, st.prev) && LiteralsRead(c, how, src, seqs, huf, st)
    requires at + |bytes| <= |input| && input[at..at + |bytes|] == bytes
    ensures WithinAt(c, input, at, fr, output, st, window)
  {
    hide Sound, AllCodable, PackAll, PrevReady, IsSection, LiteralsOf, AllLiterals, RepsAfter, Packable, Parses, UsableTable,
         BlockHeaderBytes, ParseBlockHeader, Span, StateReady, BlockWithin, AllGood, KeepsReach, Reach;
    match how {
      case AsIs =>
        HeaderAt(input, at, last, 0, src);
      case LiteralsAlone(lits) =>
        HeaderAt(input, at, last, 2, lits + [0]);
        AloneStays(c, lits, src, st, huf, Reach(window, |fr.history|, |output| - fr.start));
      case WithSequences(lits, section, header, stream, f) =>
        CountInRange(seqs, src);
        HeaderAt(input, at, last, 2, lits + section);
        CodedStays(c, lits, section, header, stream, f, seqs, src, fr, output, st, huf, far, window);
    }
  }
}
