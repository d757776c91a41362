/** The encoder's blocks at the higher levels: Huffman literals, custom and
    repeated sequence tables, and what it remembers from block to block. The
    decoder's state always has what the encoder relies on. */
module BlockWorkspace {
  import opened Arith
  import opened Wrappers
  import opened SeqStream
  import opened RepOffsets
  import opened Sequences
  import opened SeqPack
  import opened SeqCodes
  import opened TableSection
  import opened EncoderTables
  import opened SequenceEncode
  import opened Huffman
  import opened BlockFormat
  import opened BlockHeaders
  import opened FrameFormat
  import HuffmanCode
  import opened LiteralsEncode
  import opened BlockEncode

  /** What the estimates and the level decide. They change a block's size, and
      never what it decodes to. */
  datatype Policy = Policy(literals: Plan, customTables: bool, worthTrying: bool, estimate: nat)

  /** Tables kept from a dictionary have a cell for every code of the block. The
      encoder does not check it. */
  ghost predicate RepeatCovers(seqs: seq<Sequence>, reps: Reps, f: Fields) {
    FieldsLinked(f) && reps.NonZero() && Packable(seqs) && (|seqs| > 0 ==> AllPacked(PackAll(seqs, reps), f))
  }

  /** A custom section when it is the smaller one, by estimate or by size. */
  method ChooseCustom(p: seq<PackedSeq>, policy: Policy, ghost prev: Three<Option<FieldTable>>)
    returns (section: seq<byte>, ghost header: seq<byte>, ghost stream: seq<byte>, ghost f: Fields)
    requires AllWell(p, 28)
    ensures IsSection(section, p, header, stream, f, prev)
  {
    hide IsSection, WellPacked;
    var custom;
    var ok;
    WellUpTo(p, 28, OF_MAX);
    ok, custom, header, stream, f := EncodeSeqCustom(p, [], policy.worthTrying, prev);
    if ok && |custom| < policy.estimate {
      return custom, header, stream, f;
    }
    ghost var stream', f';
    section, stream', f' := EncodeSeqPredefined(p, [], prev);
    if ok && |custom| < |section| {
      return custom, header, stream, f;
    }
    header, stream, f := [0], stream', f';
  }

  lemma WellUpTo(p: seq<PackedSeq>, top: nat, more: nat)
    requires AllWell(p, top) && top <= more <= OF_MAX
    ensures AllWell(p, more)
  {
    hide Pow2;
    forall i | 0 <= i < |p| ensures WellPacked(p[i], more) {
      assert WellPacked(p[i], top);
    }
  }

  /** A literals section with something after it. */
  lemma ReadsThen(c: WeightCode, section: seq<byte>, lits: seq<byte>, huf: Option<HufTable>, after: Option<HufTable>, rest: seq<byte>)
    requires Sound(c) && (huf.Some? ==> UsableTable(huf.value)) && ReadsBack(c, section, lits, huf, after)
    ensures LiteralsOf(c, section + rest, huf) == Ok(LitResult(|section|, lits, after))
  {
    hide LiteralsOf, Sound, UsableTable;
  }

  class BlockEncodeWorkspace {
    var prevHuffman: Option<HufCoder>
    var prevLl: Coder
    var prevOf: Coder
    var prevMl: Coder

    predicate HasRepeat()
      reads this
    {
      prevLl.Some? && prevOf.Some? && prevMl.Some?
    }

    /** The tables remembered are the decoder's. */
    ghost predicate Mirrors(huf: Option<HufTable>, prev: Three<Option<FieldTable>>, f: Fields)
      reads this
    {
      && InStep(prevHuffman, huf)
      && (HasRepeat() ==>
            && FieldsLinked(f) && CodersOf(f) == Coders(prevLl, prevOf, prevMl)
            && prev == Three(Some(TableOfField(f.ll)), Some(TableOfField(f.of)), Some(TableOfField(f.ml))))
    }

    constructor ()
      ensures prevHuffman == None && !HasRepeat()
    {
      prevHuffman, prevLl, prevOf, prevMl := None, None, None, None;
    }

    /** The shortest of the sections tried: predefined, custom for many sequences,
        and repeated tables when there are some. */
    method EncodeSequences(p: seq<PackedSeq>, policy: Policy, ghost huf: Option<HufTable>, ghost prev: Three<Option<FieldTable>>,
                           ghost f0: Fields)
      returns (section: seq<byte>, ghost header: seq<byte>, ghost stream: seq<byte>, ghost f: Fields)
      requires AllWell(p, 28) && Mirrors(huf, prev, f0) && (HasRepeat() ==> AllPacked(p, f0))
      ensures IsSection(section, p, header, stream, f, prev)
    {
      hide IsSection, AllWell, FieldsLinked, AllPacked, InStep;
      if policy.customTables && |p| >= 64 {
        section, header, stream, f := ChooseCustom(p, policy, prev);
      } else {
        section, stream, f := EncodeSeqPredefined(p, [], prev);
        header := [0];
      }
      if HasRepeat() {
        var again;
        ghost var stream';
        again, stream' := EncodeSeqRepeat(p, Coders(prevLl, prevOf, prevMl), [], f0, prev);
        if |again| < |section| {
          section, header, stream, f := again, [252], stream', f0;
        }
      }
    }

    /** A block with literals only, or as it is when that is not smaller. */
    method EncodeLiteralsOnly(src: seq<byte>, reps: Reps, last: bool, policy: Policy, describe: Describe,
                              ghost c: WeightCode, ghost st: EntropyState, ghost f0: Fields)
      returns (bytes: seq<byte>, ghost how: Coding, ghost huf: Option<HufTable>)
      requires Sound(c) && Agrees(c, describe) && StateReady(st) && |src| <= MAX_BLOCK_SIZE && st.reps == reps
      requires Mirrors(st.huf, st.prev, f0)
      modifies this`prevHuffman
      ensures !how.WithSequences? && Emitted(how, bytes, src, [], reps, reps, last, st.prev) && |bytes| <= 3 + |src|
      ensures LiteralsRead(c, how, src, [], huf, st) && (huf.Some? ==> UsableTable(huf.value))
      ensures Mirrors(StateAfter(how, reps, huf, st).huf, StateAfter(how, reps, huf, st).prev, f0)
    {
      hide Sound, Agrees, ReadsBack, UsableTable, FieldsLinked, PrevReady;
      var section, kept;
      section, kept, huf := EncodeLiteralsSection(src, prevHuffman, policy.literals, describe, c, st.huf);
      if |section| + 1 >= |src| {
        bytes := EncodeRawBlock(src, last);
        prevHuffman := None;
        return bytes, AsIs, st.huf;
      }
      prevHuffman := kept;
      ReadsThen(c, section, src, st.huf, huf, [0]);
      bytes := BlockHeaderBytes(last, 2, |section| + 1) + (section + [0]);
      how := LiteralsAlone(section);
    }

    /** A block of the given sequences. Whichever coding it takes, the decoder
        reads its literals, and has after it what the encoder remembers. */
    method EncodeCompressedBlock(src: seq<byte>, seqs: seq<Sequence>, reps0: Reps, last: bool, policy: Policy, describe: Describe,
                                 ghost c: WeightCode, ghost st: EntropyState, ghost f0: Fields)
      returns (bytes: seq<byte>, reps: Reps, ghost how: Coding, ghost huf: Option<HufTable>)
      requires Sound(c) && Agrees(c, describe) && StateReady(st) && st.reps == reps0 && reps0.NonZero()
      requires AllCodable(seqs, 28) && Span(seqs) <= |src| <= MAX_BLOCK_SIZE && Mirrors(st.huf, st.prev, f0)
      requires HasRepeat() ==> RepeatCovers(seqs, reps0, f0)
      modifies this
      ensures Emitted(how, bytes, src, seqs, reps0, reps, last, st.prev) && |bytes| <= 3 + |src|
      ensures LiteralsRead(c, how, src, seqs, huf, st) && (huf.Some? ==> UsableTable(huf.value))
      ensures Mirrors(StateAfter(how, reps, huf, st).huf, StateAfter(how, reps, huf, st).prev, f0)
      ensures HasRepeat() ==> old(HasRepeat())
    {
      hide Sound, Agrees, ReadsBack, UsableTable, FieldsLinked, PrevReady, AllCodable, Packable, IsSection, AllWell, AllPacked,
           AllLiterals, PackAll, RepsAfter, LiteralsOf, HuffmanCode.Linked, Span;
      var total := TotalMatch(seqs);
      if |seqs| == 0 || total <= 3 * |seqs| {
        bytes, how, huf := EncodeLiteralsOnly(src, reps0, last, policy, describe, c, st, f0);
        return bytes, reps0, how, huf;
      }
      WellPackedAll(seqs, reps0, 28);
      var packed, lits, after;
      packed, lits, after := PackSequencesAndLiterals(src, seqs, reps0);
      var litSection, kept, section;
      LiteralsFit(src, seqs);
      litSection, kept, huf := EncodeLiteralsSection(lits, prevHuffman, policy.literals, describe, c, st.huf);
      ghost var header, stream, f;
      section, header, stream, f := EncodeSequences(packed, policy, st.huf, st.prev, f0);
      prevLl, prevOf, prevMl := None, None, None;
      var blockLen := |litSection| + |section|;
      if blockLen >= |src| {
        bytes := EncodeRawBlock(src, last);
        prevHuffman := None;
        return bytes, reps0, AsIs, st.huf;
      }
      prevHuffman := kept;
      ReadsThen(c, litSection, lits, st.huf, huf, section);
      bytes := BlockHeaderBytes(last, 2, blockLen) + (litSection + section);
      reps, how := after, WithSequences(litSection, section, header, stream, f);
    }
  }

  lemma LiteralsFit(src: seq<byte>, seqs: seq<Sequence>)
    requires Span(seqs) <= |src|
    ensures |AllLiterals(src, seqs)| <= |src|
  {
    LiteralsBound(src, 0, seqs);
  }
}
