/** The encoder's blocks: packed sequences, the raw fallback, and the proof that
    what it emits decodes back to the block. */
module BlockEncode {
  import opened Arith
  import opened Bits
  import opened Wrappers
  import opened SeqCodes
  import opened SeqStream
  import opened SeqWriter
  import opened RepOffsets
  import opened Huffman
  import opened Sequences
  import opened SeqPack
  import opened TableSection
  import opened EncoderTables
  import opened SequenceEncode
  import opened SequenceRun
  import opened SectionDecode
  import opened BlockFormat
  import opened BlockHeaders
  import opened FrameFormat

  // ----- packing -----

  /** The encoder's working buffers. */
  const COPY: nat := 32

  /** Gathers a run of literals: a short one copies a whole chunk. */
  method CopyRun(litBuf: array<byte>, litPos: nat, src: seq<byte>, litOffset: nat, ll: nat)
    requires litBuf.Length == |src| + COPY && litPos <= litOffset && litOffset + ll <= |src|
    modifies litBuf
    ensures litBuf[..litPos + ll] == old(litBuf[..litPos]) + src[litOffset..litOffset + ll]
  {
    ghost var before := litBuf[..litPos];
    var n := if ll <= COPY && litOffset + COPY <= |src| then COPY else ll;
    var at := Min(litPos, |src|);
    for j := 0 to n
      invariant forall k :: 0 <= k < litPos ==> litBuf[k] == before[k]
      invariant forall k :: litPos <= k < litPos + j ==> litBuf[k] == src[litOffset + k - litPos]
    {
      litBuf[at + j] := src[litOffset + j];
    }
    Gathered(litBuf[..litPos + ll], before, src, litOffset, ll);
  }

  lemma Gathered(written: seq<byte>, before: seq<byte>, src: seq<byte>, at: nat, ll: nat)
    requires at + ll <= |src| && |written| == |before| + ll
    requires forall k :: 0 <= k < |before| ==> written[k] == before[k]
    requires forall k :: |before| <= k < |before| + ll ==> written[k] == src[at + k - |before|]
    ensures written == before + src[at..at + ll]
  {
  }

  ghost predicate Packable(seqs: seq<Sequence>) {
    Offsets(seqs) && forall i :: 0 <= i < |seqs| ==> seqs[i].matchLength >= 3
  }

  /** What is packed, with what is left to pack, is all. */
  ghost predicate Packing(packed: seq<PackedSeq>, rest: seq<Sequence>, reps: Reps, seqs: seq<Sequence>, reps0: Reps) {
    && reps.NonZero() && reps0.NonZero() && Packable(rest) && Packable(seqs)
    && packed + PackAll(rest, reps) == PackAll(seqs, reps0) && RepsAfter(rest, reps) == RepsAfter(seqs, reps0)
  }

  /** The same for the literals: `at` is the first byte not covered. */
  ghost predicate Gathering(lits: seq<byte>, at: nat, rest: seq<Sequence>, src: seq<byte>, seqs: seq<Sequence>) {
    && |lits| <= at && at + Span(rest) == Span(seqs) <= |src|
    && lits + Literals(src, at, rest) == Literals(src, 0, seqs)
  }

  /** Packs sequences and gathers the block's literals. */
  method PackSequencesAndLiterals(src: seq<byte>, seqs: seq<Sequence>, reps0: Reps)
    returns (packed: seq<PackedSeq>, lits: seq<byte>, reps: Reps)
    requires reps0.NonZero() && Packable(seqs) && Span(seqs) <= |src|
    ensures packed == PackAll(seqs, reps0) && reps == RepsAfter(seqs, reps0) && lits == AllLiterals(src, seqs)
  {
    hide PackOne, Packing, Gathering, Literals, PackAll, RepsAfter, Span;
    var litBuf := new byte[|src| + COPY](_ => 0);
    var litPos: nat, litOffset: nat, i: nat := 0, 0, 0;
    packed, reps := [], reps0;
    ghost var lits0: seq<byte>, rest := [], seqs;
    PackingBegins(seqs, reps0, src);
    while i < |seqs|
      invariant i <= |seqs| && rest == seqs[i..] && litPos <= litOffset <= |src| && litBuf[..litPos] == lits0
      invariant Packing(packed, rest, reps, seqs, reps0) && Gathering(lits0, litOffset, rest, src, seqs)
    {
      var s := seqs[i];
      assert rest[0] == s;
      PackStep(packed, rest, reps, seqs, reps0);
      GatherStep(lits0, litOffset, rest, src, seqs);
      CopyRun(litBuf, litPos, src, litOffset, s.literalLength);
      lits0 := lits0 + src[litOffset..litOffset + s.literalLength];
      litPos := litPos + s.literalLength;
      litOffset := litOffset + s.Span();
      packed := packed + [PackOne(s, reps)];
      reps := Coded1(s, reps).reps;
      rest := rest[1..];
      i := i + 1;
    }
    PackingEnds(packed, reps, seqs, reps0);
    GatheringEnds(lits0, litOffset, src, seqs);
    if litOffset < |src| {
      CopyRun(litBuf, litPos, src, litOffset, |src| - litOffset);
      litPos := litPos + (|src| - litOffset);
    }
    lits := litBuf[..litPos];
    assert src[litOffset..|src|] == src[litOffset..];
  }

  lemma PackingBegins(seqs: seq<Sequence>, reps: Reps, src: seq<byte>)
    requires reps.NonZero() && Packable(seqs) && Span(seqs) <= |src|
    ensures Packing([], seqs, reps, seqs, reps) && Gathering([], 0, seqs, src, seqs) && seqs[0..] == seqs
  {
    hide PackAll, Literals;
    assert [] + PackAll(seqs, reps) == PackAll(seqs, reps) && [] + Literals(src, 0, seqs) == Literals(src, 0, seqs);
  }

  lemma PackStep(packed: seq<PackedSeq>, rest: seq<Sequence>, reps: Reps, seqs: seq<Sequence>, reps0: Reps)
    requires |rest| > 0 && Packing(packed, rest, reps, seqs, reps0)
    ensures reps.NonZero() && rest[0].matchLength >= 3
    ensures Packing(packed + [PackOne(rest[0], reps)], rest[1..], Coded1(rest[0], reps).reps, seqs, reps0)
  {
    hide PackOne, Coded1;
    CodedKeeps(rest[0], reps);
    assert PackAll(rest, reps) == [PackOne(rest[0], reps)] + PackAll(rest[1..], Coded1(rest[0], reps).reps);
    assert RepsAfter(rest, reps) == RepsAfter(rest[1..], Coded1(rest[0], reps).reps);
    Regroup(packed, PackOne(rest[0], reps), PackAll(rest[1..], Coded1(rest[0], reps).reps));
  }

  lemma Regroup<T>(a: seq<T>, x: T, b: seq<T>)
    ensures a + ([x] + b) == a + [x] + b
  {
  }

  lemma PackingEnds(packed: seq<PackedSeq>, reps: Reps, seqs: seq<Sequence>, reps0: Reps)
    requires Packing(packed, [], reps, seqs, reps0)
    ensures packed == PackAll(seqs, reps0) && reps == RepsAfter(seqs, reps0)
  {
    assert PackAll([], reps) == [] && RepsAfter([], reps) == reps;
  }

  lemma GatherStep(lits: seq<byte>, at: nat, rest: seq<Sequence>, src: seq<byte>, seqs: seq<Sequence>)
    requires |rest| > 0 && Gathering(lits, at, rest, src, seqs)
    ensures |lits| <= at <= at + rest[0].Span() <= |src|
    ensures Gathering(lits + src[at..at + rest[0].literalLength], at + rest[0].Span(), rest[1..], src, seqs)
  {
  }

  lemma GatheringEnds(lits: seq<byte>, at: nat, src: seq<byte>, seqs: seq<Sequence>)
    requires Gathering(lits, at, [], src, seqs)
    ensures |lits| <= at <= |src| && lits + src[at..] == AllLiterals(src, seqs)
  {
    assert lits + Literals(src, at, []) == lits;
  }

  // ----- a section, decoded -----

  /** The block `src` follows the frame's output and has room, and its sequences
      parse it. */
  ghost predicate BlockFits(fr: Frame, output: seq<byte>, src: seq<byte>, seqs: seq<Sequence>) {
    && InFrame(fr, output) && |src| <= MAX_BLOCK_SIZE && |output| - fr.start + |src| <= fr.limit
    && Span(seqs) <= |src| && Parses(fr.history + output[fr.start..] + src, |fr.history| + |output| - fr.start, seqs)
  }

  lemma WellPackedAll(seqs: seq<Sequence>, reps: Reps, top: nat)
    requires reps.NonZero() && |seqs| > 0 && AllCodable(seqs, top) && top <= OF_MAX
    ensures Packable(seqs) && AllWell(PackAll(seqs, reps), top)
  {
    hide Codable, PackAll, Raws, Pow2, LlExtra, MlExtra, OfExtra, ValueOf;
    CodableParts(seqs, top);
    var p := PackAll(seqs, reps);
    forall i: nat | i < |p| ensures WellPacked(p[i], top) {
      PackedCodes(seqs, reps, top, i);
    }
  }

  /** The section's stream gives the sequences' values. */
  lemma StreamValues(stream: seq<byte>, f: Fields, seqs: seq<Sequence>, reps: Reps, top: nat, p: seq<PackedSeq>)
    requires reps.NonZero() && |seqs| > 0 && AllCodable(seqs, top) && top <= OF_MAX && Packable(seqs)
    requires p == PackAll(seqs, reps) && FieldsLinked(f) && AllPacked(p, f)
    requires Marked(stream) && Unmark(stream) == Stream(p, f)
    ensures TablesReady(TablesOf(f))
    ensures DecodeStream(Unmark(stream), TablesOf(f), |seqs|) == Some(Raws(seqs, reps))
  {
    hide Codable, PackAll, Raws, Stream, FieldsLinked, AllPacked, Marked, Unmark, DecodeStream, TablesReady, CodesInRange,
         Values, BitStack.Valid;
    StreamRoundTrip(p, f);
    ValuesAreRaws(seqs, reps, top, 0);
    assert Raws(seqs, reps)[0..] == Raws(seqs, reps);
  }

  /** The section's stream replays the parse. */
  lemma RunReplays(stream: seq<byte>, t: SeqTables, seqs: seq<Sequence>, reps: Reps,
                   history: seq<byte>, out: seq<byte>, src: seq<byte>, limit: nat)
    requires reps.NonZero() && |seqs| > 0 && Offsets(seqs) && TablesReady(t) && |out| + |src| <= limit
    requires Marked(stream) && DecodeStream(Unmark(stream), t, |seqs|) == Some(Raws(seqs, reps))
    requires Span(seqs) <= |src| && Parses(history + out + src, |history| + |out|, seqs)
    ensures RunOf(stream, t, |seqs|, Scope(history, AllLiterals(src, seqs), limit), out, reps)
      == Some((out + src, RepsAfter(seqs, reps)))
  {
    hide Raws, Marked, Unmark, DecodeStream, TablesReady, Parses, ExecMany, WithRest, AllLiterals, RepsAfter, Span;
    ReplayBlock(history, out, src, seqs, reps, limit);
  }

  function TargetOf(fr: Frame, output: seq<byte>): Target
    requires InFrame(fr, output)
  {
    Target(output, fr.start, Min(fr.limit - (|output| - fr.start), MAX_BLOCK_SIZE), fr.history)
  }

  lemma TargetReplays(stream: seq<byte>, t: SeqTables, seqs: seq<Sequence>, reps: Reps, fr: Frame, output: seq<byte>, src: seq<byte>)
    requires reps.NonZero() && |seqs| > 0 && Offsets(seqs) && TablesReady(t) && BlockFits(fr, output, src, seqs)
    requires Marked(stream) && DecodeStream(Unmark(stream), t, |seqs|) == Some(Raws(seqs, reps))
    ensures SectionOf(stream, t, |seqs|, TargetOf(fr, output), AllLiterals(src, seqs), reps)
      == Some((output + src, RepsAfter(seqs, reps)))
  {
    hide Raws, Marked, Unmark, DecodeStream, TablesReady, Parses, AllLiterals, RepsAfter, Span, RunOf;
    var to := TargetOf(fr, output);
    RunReplays(stream, t, seqs, reps, fr.history, output[fr.start..], src, |output| - fr.start + to.maxBlock);
    assert output[..fr.start] + (output[fr.start..] + src) == output + src;
  }

  /** A sequences section decodes to its block, and to the encoder's repeat offsets. */
  lemma SectionReplays(bytes: seq<byte>, header: seq<byte>, stream: seq<byte>, f: Fields, seqs: seq<Sequence>, top: nat,
                       src: seq<byte>, fr: Frame, output: seq<byte>, st: EntropyState)
    requires st.reps.NonZero() && 0 < |seqs| < 98048 && AllCodable(seqs, top) && top <= OF_MAX && Packable(seqs)
    requires IsSection(bytes, PackAll(seqs, st.reps), header, stream, f, st.prev)
    requires PrevReady(st.prev) && BlockFits(fr, output, src, seqs)
    ensures |bytes| > 0
    ensures SequencesPart(bytes, AllLiterals(src, seqs), fr, output, st)
      == Ok((output + src, EntropyState(st.huf, AllSome(ThreeOf(f)), RepsAfter(seqs, st.reps))))
  {
    hide AllCodable, PackAll, Stream, AllPacked, Marked, Unmark, TablesReady, Parses, AllLiterals, RepsAfter, Span, PrevReady,
         Section, CountBytes, SequenceCount, SectionOf, SectionError, FieldsLinked, Raws, DecodeStream, BlockFits;
    var p := PackAll(seqs, st.reps);
    SectionParts(bytes, header, stream, f, p, st.prev);
    StreamValues(stream, f, seqs, st.reps, top, p);
    TargetReplays(stream, TablesOf(f), seqs, st.reps, fr, output, src);
  }

  lemma SectionParts(bytes: seq<byte>, header: seq<byte>, stream: seq<byte>, f: Fields, p: seq<PackedSeq>,
                     prev: Three<Option<FieldTable>>)
    requires IsSection(bytes, p, header, stream, f, prev) && |p| < 98048
    ensures var n := |CountBytes(|p|)|;
      && SequenceCount(bytes) == Some((|p|, n)) && n <= |bytes|
      && Section(bytes[n..], prev) == Ok((ThreeOf(f), |header|)) && bytes[n..][|header|..] == stream
    ensures TablesOf(f) == SectionTables(ThreeOf(f))
  {
    hide Stream, AllPacked, Marked, Unmark, Section, CountBytes, SequenceCount, Linked, CodersReady;
    var n := |CountBytes(|p|)|;
    CountRoundTrip(|p|, header + stream);
    assert bytes == CountBytes(|p|) + (header + stream) && bytes[n..] == header + stream;
    assert (header + stream)[|header|..] == stream;
    AnnouncedBefore(header, f, prev, stream);
  }

  // ----- blocks -----

  /** How a block was written: its bytes as they are, its literals alone, or
      literals and sequences. */
  datatype Coding =
    | AsIs
    | LiteralsAlone(lits: seq<byte>)
    | WithSequences(lits: seq<byte>, section: seq<byte>, header: seq<byte>, stream: seq<byte>, fields: Fields)

  /** `bytes` is a block of `src` written that way; `reps` are the repeat offsets
      after it. */
  ghost predicate Emitted(how: Coding, bytes: seq<byte>, src: seq<byte>, seqs: seq<Sequence>, reps0: Reps, reps: Reps,
                          last: bool, prev: Three<Option<FieldTable>>) {
    match how
    case AsIs => bytes == BlockHeaderBytes(last, 0, |src|) + src && reps == reps0
    case LiteralsAlone(lits) =>
      && |lits| + 1 < |src| && bytes == BlockHeaderBytes(last, 2, |lits| + 1) + (lits + [0]) && reps == reps0
    case WithSequences(lits, section, header, stream, f) =>
      && 0 < |lits| && |lits| + |section| < |src|
      && bytes == BlockHeaderBytes(last, 2, |lits| + |section|) + (lits + section)
      && reps0.NonZero() && |seqs| > 0 && Packable(seqs) && Span(seqs) <= |src|
      && IsSection(section, PackAll(seqs, reps0), header, stream, f, prev) && reps == RepsAfter(seqs, reps0)
  }

  method EncodeRawBlock(src: seq<byte>, last: bool) returns (bytes: seq<byte>)
    ensures bytes == BlockHeaderBytes(last, 0, |src|) + src
  {
    bytes := BlockHeaderBytes(last, 0, |src|) + src;
  }

  /** The match lengths of the first `n` sequences. */
  function MatchTotal(seqs: seq<Sequence>, n: nat): nat
    requires n <= |seqs|
  {
    if n == 0 then 0 else MatchTotal(seqs, n - 1) + seqs[n - 1].matchLength
  }

  method TotalMatch(seqs: seq<Sequence>) returns (total: nat)
    ensures total == MatchTotal(seqs, |seqs|)
  {
    total := 0;
    for i: nat := 0 to |seqs|
      invariant total == MatchTotal(seqs, i)
    {
      total := total + seqs[i].matchLength;
    }
  }

  lemma {:induction false} SpanAtLeast(seqs: seq<Sequence>)
    requires forall i :: 0 <= i < |seqs| ==> seqs[i].matchLength >= 3
    ensures 3 * |seqs| <= Span(seqs)
  {
    if |seqs| > 0 {
      SpanAtLeast(seqs[1..]);
    }
  }

  /** A block with raw literals and predefined tables, or as it is when that is
      not smaller. */
  method EncodeCompressedBlockRaw(src: seq<byte>, seqs: seq<Sequence>, reps0: Reps, last: bool,
                                  ghost prev: Three<Option<FieldTable>>)
    returns (bytes: seq<byte>, reps: Reps, ghost how: Coding)
    requires reps0.NonZero() && AllCodable(seqs, 28) && Span(seqs) <= |src|
    ensures Emitted(how, bytes, src, seqs, reps0, reps, last, prev) && |bytes| <= 3 + |src|
    ensures how.WithSequences? ==> how.lits == RawLiteralsHeader(|AllLiterals(src, seqs)|) + AllLiterals(src, seqs)
    ensures !how.LiteralsAlone?
  {
    hide AllCodable, IsSection, AllLiterals, PackAll, RepsAfter, Packable, AllWell;
    var total := TotalMatch(seqs);
    if |seqs| == 0 || total <= 3 * |seqs| {
      bytes := EncodeRawBlock(src, last);
      return bytes, reps0, AsIs;
    }
    WellPackedAll(seqs, reps0, 28);
    var packed, lits;
    packed, lits, reps := PackSequencesAndLiterals(src, seqs, reps0);
    var litSection := RawLiteralsHeader(|lits|);
    var section;
    ghost var stream, f;
    section, stream, f := EncodeSeqPredefined(packed, [], prev);
    var blockLen := |litSection| + |lits| + |section|;
    if blockLen >= |src| {
      bytes := EncodeRawBlock(src, last);
      return bytes, reps0, AsIs;
    }
    bytes := BlockHeaderBytes(last, 2, blockLen) + (litSection + lits + section);
    how := WithSequences(litSection + lits, section, [0], stream, f);
  }

  // ----- blocks, decoded -----

  lemma RawBlockAt(c: WeightCode, input: seq<byte>, at: nat, fr: Frame, output: seq<byte>, st: EntropyState, overrun: DecodeError,
                   src: seq<byte>, last: bool)
    requires BlockInput(c, input, at, fr, output, st) && |src| <= MAX_BLOCK_SIZE && |output| - fr.start + |src| <= fr.limit
    requires at + 3 + |src| <= |input| && input[at..at + 3 + |src|] == BlockHeaderBytes(last, 0, |src|) + src
    ensures BlockAt(c, input, at, fr, output, st, overrun) == Ok(BlockResult(output + src, at + 3 + |src|, st, last))
  {
    hide Sound, StateReady, CompressedBlock, BlockHeaderBytes, ParseBlockHeader;
    HeaderAt(input, at, last, 0, src);
  }

  /** A block's header and body, taken out of the input. */
  lemma HeaderAt(input: seq<byte>, at: nat, last: bool, kind: nat, body: seq<byte>)
    requires kind < 3 && |body| < 0x20_0000
    requires at + 3 + |body| <= |input| && input[at..at + 3 + |body|] == BlockHeaderBytes(last, kind, |body|) + body
    ensures ParseBlockHeader(input[at], input[at + 1], input[at + 2]) == Some(BlockHeader(last, KindOf(kind), |body|))
    ensures input[at + 3..at + 3 + |body|] == body
  {
    hide BlockHeaderBytes, ParseBlockHeader;
    var h := BlockHeaderBytes(last, kind, |body|);
    var x := input[at..at + 3 + |body|];
    assert input[at] == x[0] == h[0] && input[at + 1] == x[1] == h[1] && input[at + 2] == x[2] == h[2];
    assert input[at + 3..at + 3 + |body|] == x[3..] == body;
    BlockHeaderRoundTrip(last, kind, |body|);
  }

  lemma CompressedBlockAt(c: WeightCode, input: seq<byte>, at: nat, fr: Frame, output: seq<byte>, st: EntropyState,
                          overrun: DecodeError, body: seq<byte>, last: bool)
    requires BlockInput(c, input, at, fr, output, st) && |body| < 0x20_0000
    requires at + 3 + |body| <= |input| && input[at..at + 3 + |body|] == BlockHeaderBytes(last, 2, |body|) + body
    requires CompressedBlock(c, body, fr, output, st).Ok?
    ensures BlockAt(c, input, at, fr, output, st, overrun)
      == Ok(BlockResult(CompressedBlock(c, body, fr, output, st).value.0, at + 3 + |body|,
                        CompressedBlock(c, body, fr, output, st).value.1, last))
  {
    hide Sound, StateReady, CompressedBlock, BlockHeaderBytes, ParseBlockHeader;
    HeaderAt(input, at, last, 2, body);
  }

  /** A literals section that is read back, with a sequences section after it. */
  lemma CodedReplays(c: WeightCode, lits: seq<byte>, section: seq<byte>, header: seq<byte>, stream: seq<byte>, f: Fields,
                     seqs: seq<Sequence>, top: nat, src: seq<byte>, fr: Frame, output: seq<byte>, st: EntropyState,
                     huf: Option<HufTable>)
    requires Sound(c) && StateReady(st) && BlockFits(fr, output, src, seqs) && (huf.Some? ==> UsableTable(huf.value))
    requires st.reps.NonZero() && 0 < |seqs| < 98048 && AllCodable(seqs, top) && top <= OF_MAX && Packable(seqs)
    requires IsSection(section, PackAll(seqs, st.reps), header, stream, f, st.prev)
    requires LiteralsOf(c, lits + section, st.huf) == Ok(LitResult(|lits|, AllLiterals(src, seqs), huf))
    ensures CompressedBlock(c, lits + section, fr, output, st)
      == Ok((output + src, EntropyState(huf, AllSome(ThreeOf(f)), RepsAfter(seqs, st.reps))))
  {
    hide Sound, AllCodable, PackAll, PrevReady, IsSection, LiteralsOf, AllLiterals, RepsAfter, Packable, Parses, Span, UsableTable,
         SequencesPart;
    SectionReplays(section, header, stream, f, seqs, top, src, fr, output, st.(huf := huf));
    assert (lits + section)[|lits|..] == section;
  }

  /** What the decoder keeps after the block. */
  ghost function StateAfter(how: Coding, reps: Reps, huf: Option<HufTable>, st: EntropyState): EntropyState {
    match how
    case AsIs => st
    case LiteralsAlone(_) => st.(huf := huf)
    case WithSequences(_, _, _, _, f) => EntropyState(huf, AllSome(ThreeOf(f)), reps)
  }

  /** The literals of the block are what its literals section says. */
  ghost predicate LiteralsRead(c: WeightCode, how: Coding, src: seq<byte>, seqs: seq<Sequence>, huf: Option<HufTable>, st: EntropyState)
    requires Sound(c) && StateReady(st)
  {
    match how
    case AsIs => true
    case LiteralsAlone(lits) => LiteralsOf(c, lits + [0], st.huf) == Ok(LitResult(|lits|, src, huf))
    case WithSequences(lits, section, _, _, _) =>
      Span(seqs) <= |src| && LiteralsOf(c, lits + section, st.huf) == Ok(LitResult(|lits|, AllLiterals(src, seqs), huf))
  }

  lemma AloneReplays(c: WeightCode, lits: seq<byte>, src: seq<byte>, fr: Frame, output: seq<byte>, st: EntropyState,
                     huf: Option<HufTable>)
    requires Sound(c) && StateReady(st) && InFrame(fr, output) && |output| - fr.start + |src| <= fr.limit
    requires LiteralsOf(c, lits + [0], st.huf) == Ok(LitResult(|lits|, src, huf))
    ensures CompressedBlock(c, lits + [0], fr, output, st) == Ok((output + src, st.(huf := huf)))
  {
    hide Sound, PrevReady, LiteralsOf;
    assert (lits + [0])[|lits|..] == [0];
  }

  /** The block round trip. Wherever an emitted block stands in a decoder's input,
      and whatever the frame's output before it, decoding it appends exactly the
      block, moves past exactly its bytes and ends with the encoder's repeat
      offsets. */
  lemma BlockRoundTrip(c: WeightCode, input: seq<byte>, at: nat, fr: Frame, output: seq<byte>, st: EntropyState, overrun: DecodeError,
                       how: Coding, bytes: seq<byte>, src: seq<byte>, seqs: seq<Sequence>, top: nat, reps: Reps, last: bool,
                       huf: Option<HufTable>)
    requires BlockInput(c, input, at, fr, output, st) && BlockFits(fr, output, src, seqs)
    requires AllCodable(seqs, top) && top <= OF_MAX && (huf.Some? ==> UsableTable(huf.value))
    requires Emitted(how, bytes, src, seqs, st.reps, reps, last, st.prev) && LiteralsRead(c, how, src, seqs, huf, st)
    requires at + |bytes| <= |input| && input[at..at + |bytes|] == bytes
    ensures BlockAt(c, input, at, fr, output, st, overrun)
      == Ok(BlockResult(output + src, at + |bytes|, StateAfter(how, reps, huf, st), last))
    ensures StateAfter(how, reps, huf, st).reps == reps
  {
    hide Sound, AllCodable, PackAll, PrevReady, IsSection, LiteralsOf, AllLiterals, RepsAfter, Packable, Parses, UsableTable,
         CompressedBlock, BlockAt, BlockHeaderBytes, Span, StateReady;
    match how {
      case AsIs =>
        RawBlockAt(c, input, at, fr, output, st, overrun, src, last);
      case LiteralsAlone(lits) =>
        AloneReplays(c, lits, src, fr, output, st, huf);
        CompressedBlockAt(c, input, at, fr, output, st, overrun, lits + [0], last);
      case WithSequences(lits, section, header, stream, f) =>
        CountInRange(seqs, src);
        CodedReplays(c, lits, section, header, stream, f, seqs, top, src, fr, output, st, huf);
        CompressedBlockAt(c, input, at, fr, output, st, overrun, lits + section, last);
    }
  }

  lemma CountInRange(seqs: seq<Sequence>, src: seq<byte>)
    requires Packable(seqs) && Span(seqs) <= |src| <= MAX_BLOCK_SIZE
    ensures |seqs| < 98048
  {
    SpanAtLeast(seqs);
  }

  /** Raw literals are read back, so the raw variant's blocks always are. */
  lemma RawLiteralsRead(c: WeightCode, how: Coding, src: seq<byte>, seqs: seq<Sequence>, st: EntropyState)
    requires Sound(c) && StateReady(st) && !how.LiteralsAlone? && Span(seqs) <= |src| <= MAX_BLOCK_SIZE
    requires how.WithSequences? ==> how.lits == RawLiteralsHeader(|AllLiterals(src, seqs)|) + AllLiterals(src, seqs)
    ensures LiteralsRead(c, how, src, seqs, st.huf, st)
  {
    hide Sound, StateReady, PlainLiterals, AllLiterals, RawLiteralsHeader;
    if how.WithSequences? {
      LiteralsBound(src, 0, seqs);
      RawLiteralsRoundTrip(AllLiterals(src, seqs), how.section);
    }
  }

  lemma {:induction false} LiteralsBound(src: seq<byte>, at: nat, seqs: seq<Sequence>)
    requires at + Span(seqs) <= |src|
    ensures |Literals(src, at, seqs)| <= Span(seqs)
    ensures at == 0 ==> |AllLiterals(src, seqs)| <= |src|
    decreases |seqs|
  {
    if |seqs| > 0 {
      LiteralsBound(src, at + seqs[0].Span(), seqs[1..]);
    }
  }
}
