/** Whole frames: blocks cut from the input, searched, coded and emitted, and the
    proof that decoding them gives the input back. */
module FrameEncode {
  import opened Arith
  import opened Wrappers
  import opened RepOffsets
  import opened Sequences
  import opened SeqPack
  import opened SeqStream
  import opened SeqCodes
  import opened SequenceEncode
  import opened MatchSearch
  import opened LevelSearch
  import opened TableSection
  import opened EncoderTables
  import opened Huffman
  import opened BlockFormat
  import opened BlockHeaders
  import opened FrameFormat
  import opened StreamReach
  import opened LiteralsEncode
  import opened BlockEncode
  import opened BlockReach
  import opened BlockWorkspace
  import opened Rebase
  import Ldm

  // ----- bytes that carry the decoder on -----

  ghost predicate Embeds(input: seq<byte>, at: nat, bytes: seq<byte>) {
    at + |bytes| <= |input| && input[at..at + |bytes|] == bytes
  }

  /** A frame being decoded: what decodes it, where it goes, its limit's error, and the
      window that a streaming decoder keeps. */
  datatype Decoding = Decoding(c: WeightCode, f: Frame, overrun: DecodeError, window: nat)

  ghost predicate Proper(d: Decoding, out: seq<byte>, st: EntropyState) {
    Sound(d.c) && InFrame(d.f, out) && StateReady(st)
  }

  /** The rest of the frame, from `at` on. */
  ghost function Go(d: Decoding, input: seq<byte>, at: nat, out: seq<byte>, st: EntropyState): Result<(seq<byte>, nat), DecodeError>
    requires at <= |input| && Proper(d, out, st)
  {
    BlocksOf(d.c, input, at, d.f, out, st, d.overrun)
  }

  /** Its offsets stay within what the window keeps. */
  ghost predicate Stays(d: Decoding, input: seq<byte>, at: nat, out: seq<byte>, st: EntropyState)
    requires at <= |input| && Proper(d, out, st)
  {
    BlocksWithin(d.c, input, at, d.f, out, st, d.overrun, d.window)
  }

  /** Wherever the bytes are, they take the decoder from one output and state to
      another, with offsets within the window, and the frame goes on. */
  ghost predicate Carries(d: Decoding, out: seq<byte>, st: EntropyState, bytes: seq<byte>, out': seq<byte>, st': EntropyState) {
    && Proper(d, out, st) && Proper(d, out', st')
    && forall input: seq<byte>, at: nat :: Embeds(input, at, bytes) ==>
      && Go(d, input, at, out, st) == Go(d, input, at + |bytes|, out', st')
      && (Stays(d, input, at, out, st) <==> Stays(d, input, at + |bytes|, out', st'))
  }

  /** The same, and they end the frame. */
  ghost predicate Finishes(d: Decoding, out: seq<byte>, st: EntropyState, bytes: seq<byte>, out': seq<byte>) {
    && Proper(d, out, st)
    && forall input: seq<byte>, at: nat :: Embeds(input, at, bytes) ==>
      && Go(d, input, at, out, st) == Ok((out', at + |bytes|))
      && Stays(d, input, at, out, st)
  }

  lemma CarriesNothing(d: Decoding, out: seq<byte>, st: EntropyState)
    requires Proper(d, out, st)
    ensures Carries(d, out, st, [], out, st)
  {
    hide Go, Proper, Stays;
  }

  lemma EmbedsParts(input: seq<byte>, at: nat, a: seq<byte>, b: seq<byte>)
    requires Embeds(input, at, a + b)
    ensures Embeds(input, at, a) && Embeds(input, at + |a|, b)
  {
    var x := input[at..at + |a + b|];
    assert input[at..at + |a|] == x[..|a|] && input[at + |a|..at + |a| + |b|] == x[|a|..];
  }

  lemma CarriesThen(d: Decoding, out: seq<byte>, st: EntropyState, a: seq<byte>, out1: seq<byte>, st1: EntropyState,
                    b: seq<byte>, out2: seq<byte>, st2: EntropyState)
    requires Carries(d, out, st, a, out1, st1) && Carries(d, out1, st1, b, out2, st2)
    ensures Carries(d, out, st, a + b, out2, st2)
  {
    hide Go, Proper, Stays;
    forall input: seq<byte>, at: nat | Embeds(input, at, a + b)
      ensures Go(d, input, at, out, st) == Go(d, input, at + |a + b|, out2, st2)
      ensures Stays(d, input, at, out, st) <==> Stays(d, input, at + |a + b|, out2, st2)
    {
      EmbedsParts(input, at, a, b);
    }
  }

  lemma CarriesFinishes(d: Decoding, out: seq<byte>, st: EntropyState, a: seq<byte>, out1: seq<byte>, st1: EntropyState,
                        b: seq<byte>, out2: seq<byte>)
    requires Carries(d, out, st, a, out1, st1) && Finishes(d, out1, st1, b, out2)
    ensures Finishes(d, out, st, a + b, out2)
  {
    hide Go, Proper, Stays;
    forall input: seq<byte>, at: nat | Embeds(input, at, a + b)
      ensures Go(d, input, at, out, st) == Ok((out2, at + |a + b|)) && Stays(d, input, at, out, st)
    {
      EmbedsParts(input, at, a, b);
    }
  }

  // ----- one block -----

  /** A block's offsets and lengths can be coded. */
  lemma GoodIsCodable(seqs: seq<Sequence>, far: nat, src: seq<byte>)
    requires AllGood(seqs, far) && far + 3 < Pow2(29) && Span(seqs) <= |src| <= MAX_BLOCK_SIZE
    ensures AllCodable(seqs, 28)
  {
    hide Pow2;
    forall i | 0 <= i < |seqs| ensures Codable(seqs[i], 28) {
      assert GoodMatch(seqs[i], far);
      OneSpan(seqs, i);
    }
  }

  lemma {:induction false} OneSpan(seqs: seq<Sequence>, i: nat)
    requires i < |seqs|
    ensures seqs[i].Span() <= Span(seqs)
  {
    if i > 0 {
      OneSpan(seqs[1..], i - 1);
    }
  }

  /** An emitted block carries the decoder past it. */
  lemma BlockCarries(d: Decoding, out: seq<byte>, st: EntropyState, how: Coding, bytes: seq<byte>, src: seq<byte>,
                     seqs: seq<Sequence>, reps: Reps, last: bool, huf: Option<HufTable>, far: nat)
    requires Proper(d, out, st) && BlockFits(d.f, out, src, seqs) && AllCodable(seqs, 28)
    requires how.WithSequences? ==> AllGood(seqs, far) && KeepsReach(d.window, far, d.f)
    requires (huf.Some? ==> UsableTable(huf.value)) && Emitted(how, bytes, src, seqs, st.reps, reps, last, st.prev)
    requires LiteralsRead(d.c, how, src, seqs, huf, st)
    ensures !last ==> Carries(d, out, st, bytes, out + src, StateAfter(how, reps, huf, st))
    ensures last ==> Finishes(d, out, st, bytes, out + src)
    ensures StateAfter(how, reps, huf, st).reps == reps
  {
    hide Sound, StateReady, BlockFits, AllCodable, Emitted, LiteralsRead, StateAfter, UsableTable, BlockAt, Codable, WithinAt,
         AllGood, KeepsReach;
    var st' := StateAfter(how, reps, huf, st);
    forall input: seq<byte>, at: nat | Embeds(input, at, bytes)
      ensures BlockAt(d.c, input, at, d.f, out, st, d.overrun) == Ok(BlockResult(out + src, at + |bytes|, st', last))
      ensures WithinAt(d.c, input, at, d.f, out, st, d.window)
      ensures Proper(d, out + src, st') && st'.reps == reps
    {
      BlockRoundTrip(d.c, input, at, d.f, out, st, d.overrun, how, bytes, src, seqs, 28, reps, last, huf);
      BlockStays(d.c, input, at, d.f, out, st, how, bytes, src, seqs, reps, last, huf, far, d.window);
      BlockAtKeeps(d.c, input, at, d.f, out, st, d.overrun);
    }
    assert bytes[0..|bytes|] == bytes;
    assert Embeds(bytes, 0, bytes);
  }

  // ----- repeat offsets -----

  ghost predicate Bounded(r: Reps, far: nat) {
    r.NonZero() && r.r0 <= far && r.r1 <= far && r.r2 <= far
  }

  /** Repeat offsets stay within the matches' reach. */
  lemma {:induction false} RepsBounded(seqs: seq<Sequence>, reps: Reps, far: nat)
    requires Bounded(reps, far) && AllGood(seqs, far)
    ensures Offsets(seqs) && Bounded(RepsAfter(seqs, reps), far)
    decreases |seqs|
  {
    assert Offsets(seqs) by {
      forall i | 0 <= i < |seqs| ensures seqs[i].offset > 0 {
        assert GoodMatch(seqs[i], far);
      }
    }
    if |seqs| > 0 {
      CodedKeeps(seqs[0], reps);
      assert GoodMatch(seqs[0], far);
      forall i | 0 <= i < |seqs[1..]| ensures GoodMatch(seqs[1..][i], far) {
        assert GoodMatch(seqs[i + 1], far);
      }
      RepsBounded(seqs[1..], Coded1(seqs[0], reps).reps, far);
    }
  }

  // ----- tables kept from a dictionary -----

  /** The code of the farthest match. */
  function TopCode(far: nat): nat {
    HighBit(far + 3)
  }

  /** Every code that a block may have has a cell: all lengths, and offsets as far as
      matches reach. */
  ghost predicate CoversAll(f: Fields, far: nat) {
    && FieldsLinked(f)
    && (forall code: nat :: code <= LL_MAX ==> SeqStream.Usable(f.ll, code))
    && (forall code: nat :: code <= ML_MAX ==> SeqStream.Usable(f.ml, code))
    && (forall code: nat :: code <= TopCode(far) ==> SeqStream.Usable(f.of, code))
  }

  lemma CoversBlock(f: Fields, seqs: seq<Sequence>, reps: Reps, far: nat)
    requires CoversAll(f, far) && reps.NonZero() && AllGood(seqs, far) && AllCodable(seqs, 28) && far + 3 < Pow2(29)
    ensures RepeatCovers(seqs, reps, f)
  {
    hide PackAll, FieldsLinked, SeqStream.Usable, Pow2, HighBit;
    var top := TopCode(far);
    HighBitBelow(far + 3, 29);
    assert AllCodable(seqs, top) by {
      forall i | 0 <= i < |seqs| ensures Codable(seqs[i], top) {
        assert GoodMatch(seqs[i], far) && Codable(seqs[i], 28);
      }
    }
    CodableParts(seqs, top);
    if |seqs| > 0 {
      hide Codable;
      WellPackedAll(seqs, reps, top);
      var p := PackAll(seqs, reps);
      forall i | 0 <= i < |p| ensures Packed(p[i], f) {
        assert WellPacked(p[i], top);
      }
    }
  }

  /** The predefined tables cover every block, whatever its matches' reach. */
  lemma PredefinedCovers(f: Fields, far: nat)
    requires FieldsLinked(f) && far + 3 < Pow2(29)
    requires IsPredefined(f.ll, LiteralLength) && IsPredefined(f.of, OffsetCode) && IsPredefined(f.ml, MatchLength)
    ensures CoversAll(f, far)
  {
    hide FieldsLinked, SeqStream.Usable, Pow2, HighBit, IsPredefined;
    HighBitBelow(far + 3, 29);
    forall code: nat ensures code <= LL_MAX ==> SeqStream.Usable(f.ll, code) {
      DefaultUsable(f.ll, LiteralLength, code);
    }
    forall code: nat ensures code <= ML_MAX ==> SeqStream.Usable(f.ml, code) {
      DefaultUsable(f.ml, MatchLength, code);
    }
    forall code: nat ensures code <= TopCode(far) ==> SeqStream.Usable(f.of, code) {
      DefaultUsable(f.of, OffsetCode, code);
    }
  }

  // ----- searching a block -----

  /** What a level's driver passes on: the finder, how blocks are coded, and which
      blocks are stored without a search. */
  datatype Options = Options(level: Level, ldmWindow: nat, rawLiterals: bool, skip: seq<byte> -> bool, policy: nat -> Policy,
                             describe: Describe)

  /** Matches and repeat offsets reach at most `far`, which offset codes can
      express. */
  ghost predicate Reaches(o: Options, far: nat) {
    o.level.window <= far && o.ldmWindow <= far && far + 3 < Pow2(29)
  }

  lemma FarFits(far: nat)
    requires far + 3 < Pow2(29)
    ensures far < 0x1_0000_0000
  {
    Pow2Large();
  }

  /** Prepares positions for a block: tables move along with the base. */
  method MoveBase(positions: PositionBase, start: nat, end: nat, p: Level, table: array<Pos>, long: array<Pos>,
                  ldm: Option<Ldm.LdmState>)
    requires start < end <= start + MAX_BLOCK_SIZE && positions.window == p.window && p.window + MAX_BLOCK <= MAX_SPAN
    requires InSpan(positions.base, p.window, start) && Searchable(p, table, long, start - positions.base)
    requires ldm.Some? ==> ldm.value.Valid()
    modifies positions`base, table, long
    modifies if ldm.Some? then {ldm.value.table} else {}
    ensures positions.base <= start && end - positions.base <= MAX_SPAN
    ensures InSpan(positions.base, p.window, start) && InSpan(positions.base, p.window, end)
    ensures Searchable(p, table, long, start - positions.base)
    ensures forall i :: 0 <= i < table.Length ==> Renamed(old(positions.base), old(table[i]), positions.base, table[i])
    ensures p.strategy.UseDFast? ==>
      forall i :: 0 <= i < long.Length ==> Renamed(old(positions.base), old(long[i]), positions.base, long[i])
    ensures ldm.Some? ==> ldm.value.Valid()
  {
    hide InTable;
    AdvancedFits(positions.base, p.window, start, end);
    ghost var at := start - positions.base;
    var shift := positions.Advance(start, end);
    if shift.Some? {
      ReduceHashTable(table, shift.value, at);
      if p.strategy.UseDFast? {
        ReduceHashTable(long, shift.value, at);
      }
      if ldm.Some? {
        ldm.value.ReducePositions(shift.value);
      }
    }
  }

  /** The block's sequences: long matches too, where they are looked for. */
  method FindSequences(src: seq<byte>, start: nat, end: nat, o: Options, reps: Reps, table: array<Pos>, long: array<Pos>,
                       ldm: Option<Ldm.LdmState>, ghost far: nat)
    returns (seqs: seq<Sequence>)
    requires start <= end <= |src| && end < 0x1_0000_0000 && Reaches(o, far) && Bounded(reps, far)
    requires Searchable(o.level, table, long, start) && (ldm.Some? ==> ldm.value.Valid())
    modifies table, long
    modifies if ldm.Some? then {ldm.value, ldm.value.table, ldm.value.bucketOffsets} else {}
    ensures Searchable(o.level, table, long, end) && (ldm.Some? ==> ldm.value.Valid())
    ensures Parses(src, start, seqs) && start + Span(seqs) <= end && AllGood(seqs, far)
  {
    hide Parses, Span, AllGood, Pow2;
    FarFits(far);
    if ldm.Some? {
      seqs := ldm.value.CompressBlock(src, start, end, o.ldmWindow, o.level, reps.r0, reps.r1, table, long);
      Ldm.GoodFor(seqs, Max(Max(o.ldmWindow, o.level.window), Max(reps.r0, reps.r1)), far);
    } else {
      seqs := SearchBlock(o.level, src, start, end, reps.r0, reps.r1, table, long);
      Ldm.GoodFor(seqs, Max(o.level.window, Max(reps.r0, reps.r1)), far);
    }
  }

  /** The frame's content so far, with what it may refer to in front of it. */
  ghost predicate Holds(d: Decoding, out: seq<byte>, combined: seq<byte>, at: nat) {
    InFrame(d.f, out) && at <= |combined| && d.f.history + out[d.f.start..] == combined[..at]
  }

  lemma HoldsNext(d: Decoding, out: seq<byte>, combined: seq<byte>, at: nat, end: nat)
    requires Holds(d, out, combined, at) && at <= end <= |combined| && InFrame(d.f, out + combined[at..end])
    ensures Holds(d, out + combined[at..end], combined, end)
  {
    var n := d.f.start;
    assert (out + combined[at..end])[n..] == out[n..] + combined[at..end];
    assert combined[..end] == combined[..at] + combined[at..end];
  }

  /** Sequences found from a base in the content parse the block where it stands. */
  lemma ParsesInPlace(d: Decoding, out: seq<byte>, combined: seq<byte>, base: nat, at: nat, end: nat, seqs: seq<Sequence>)
    requires Holds(d, out, combined, at) && base <= at <= end <= |combined|
    requires Parses(combined[base..], at - base, seqs) && at - base + Span(seqs) <= end - base
    ensures Parses(d.f.history + out[d.f.start..] + combined[at..end], |d.f.history| + |out| - d.f.start, seqs)
  {
    hide Parses, Span;
    ParsesBehind(combined[..base], combined[base..], at - base, seqs);
    assert combined[..base] + combined[base..] == combined;
    ParsesPrefix(combined, at, seqs, end);
    assert combined[..end] == combined[..at] + combined[at..end];
  }

  // ----- coding a block -----

  /** What the encoder and the decoder agree on between blocks. */
  ghost predicate Together(d: Decoding, out: seq<byte>, st: EntropyState, reps: Reps, far: nat) {
    Proper(d, out, st) && st.reps == reps && Bounded(reps, far) && KeepsReach(d.window, far, d.f)
  }

  /** What the workspace remembers is the decoder's, if it is used at all. */
  ghost predicate Remembers(o: Options, ws: BlockEncodeWorkspace, st: EntropyState, f0: Fields, far: nat)
    reads ws
  {
    o.rawLiterals || (ws.Mirrors(st.huf, st.prev, f0) && (ws.HasRepeat() ==> CoversAll(f0, far)))
  }

  /** A block stored as it is. */
  method StoreBlock(block: seq<byte>, last: bool, ghost d: Decoding, ghost out: seq<byte>, ghost st: EntropyState)
    returns (bytes: seq<byte>)
    requires Proper(d, out, st) && |block| <= MAX_BLOCK_SIZE && InFrame(d.f, out + block)
    ensures !last ==> Carries(d, out, st, bytes, out + block, st)
    ensures last ==> Finishes(d, out, st, bytes, out + block)
  {
    bytes := EncodeRawBlock(block, last);
    StoredFits(d, out, st, block, bytes, last);
  }

  lemma StoredFits(d: Decoding, out: seq<byte>, st: EntropyState, block: seq<byte>, bytes: seq<byte>, last: bool)
    requires Proper(d, out, st) && |block| <= MAX_BLOCK_SIZE && InFrame(d.f, out + block)
    requires bytes == BlockHeaderBytes(last, 0, |block|) + block
    ensures !last ==> Carries(d, out, st, bytes, out + block, st)
    ensures last ==> Finishes(d, out, st, bytes, out + block)
  {
    hide Sound, StateReady, BlockHeaderBytes, Carries, Finishes;
    BlockCarries(d, out, st, AsIs, bytes, block, [], st.reps, last, None, 0);
  }

  /** A block of sequences. */
  method CodeBlock(block: seq<byte>, seqs: seq<Sequence>, reps: Reps, last: bool, o: Options, at: nat, ws: BlockEncodeWorkspace,
                   ghost d: Decoding, ghost out: seq<byte>, ghost st: EntropyState, ghost f0: Fields, ghost far: nat)
    returns (bytes: seq<byte>, reps': Reps, ghost st': EntropyState)
    requires Together(d, out, st, reps, far) && Remembers(o, ws, st, f0, far) && Agrees(d.c, o.describe)
    requires BlockFits(d.f, out, block, seqs)
    requires AllGood(seqs, far) && AllCodable(seqs, 28) && far + 3 < Pow2(29)
    modifies ws
    ensures !last ==> Carries(d, out, st, bytes, out + block, st') && Together(d, out + block, st', reps', far)
    ensures !last ==> Remembers(o, ws, st', f0, far)
    ensures last ==> Finishes(d, out, st, bytes, out + block)
  {
    hide Sound, PrevReady, Agrees, AllGood, AllCodable, Carries, Finishes, CoversAll, Emitted, LiteralsRead, StateAfter,
         UsableTable, BlockEncodeWorkspace.Mirrors, Parses, AllLiterals;
    ghost var how, huf;
    if o.rawLiterals {
      bytes, reps', how := EncodeCompressedBlockRaw(block, seqs, reps, last, st.prev);
      RawLiteralsRead(d.c, how, block, seqs, st);
      huf := st.huf;
    } else {
      if ws.HasRepeat() {
        CoversBlock(f0, seqs, reps, far);
      }
      bytes, reps', how, huf := ws.EncodeCompressedBlock(block, seqs, reps, last, o.policy(at), o.describe, d.c, st, f0);
    }
    st' := StateAfter(how, reps', huf, st);
    BlockCarries(d, out, st, how, bytes, block, seqs, reps', last, huf, far);
    EmittedReps(how, bytes, block, seqs, reps, reps', last, st.prev, far);
    if !last {
      CarriedProper(d, out, st, bytes, out + block, st');
    }
  }

  lemma EmittedReps(how: Coding, bytes: seq<byte>, block: seq<byte>, seqs: seq<Sequence>, reps: Reps, reps': Reps, last: bool,
                    prev: Three<Option<FieldTable>>, far: nat)
    requires Emitted(how, bytes, block, seqs, reps, reps', last, prev) && Bounded(reps, far) && AllGood(seqs, far)
    ensures Bounded(reps', far)
  {
    hide IsSection, RepsAfter, Packable;
    RepsBounded(seqs, reps, far);
  }

  lemma CarriedProper(d: Decoding, out: seq<byte>, st: EntropyState, bytes: seq<byte>, out': seq<byte>, st': EntropyState)
    requires Carries(d, out, st, bytes, out', st')
    ensures Proper(d, out', st')
  {
  }

  // ----- the frame -----

  /** The encoder's working state, in the form its drivers keep it. */
  datatype Finders = Finders(positions: PositionBase, table: array<Pos>, long: array<Pos>, ldm: Option<Ldm.LdmState>) {
    ghost function Own(): set<object>
    {
      {positions, table, long}
      + if ldm.Some? then {ldm.value, ldm.value.table, ldm.value.bucketOffsets} else {}
    }
  }

  /** The finders are ready for a block at `at`. */
  ghost predicate FindersReady(s: Finders, o: Options, at: nat)
    reads s.Own()
  {
    && s.positions.window == o.level.window && o.level.window + MAX_BLOCK <= MAX_SPAN
    && InSpan(s.positions.base, o.level.window, at) && Searchable(o.level, s.table, s.long, at - s.positions.base)
    && (s.ldm.Some? ==> s.ldm.value.Valid())
  }

  lemma ReadyLater(s: Finders, o: Options, at: nat, later: nat)
    requires FindersReady(s, o, at) && at <= later && InSpan(s.positions.base, o.level.window, later)
    ensures FindersReady(s, o, later)
  {
    SearchableLater(o.level, s.table, s.long, at - s.positions.base, later - s.positions.base);
  }

  /** The base is moved up for every block, searched or not. */
  method Advance(s: Finders, o: Options, start: nat, end: nat)
    requires FindersReady(s, o, start) && start < end <= start + MAX_BLOCK_SIZE
    modifies s.Own()
    ensures FindersReady(s, o, start) && InSpan(s.positions.base, o.level.window, end)
    ensures s.positions.base <= start && end - s.positions.base <= MAX_SPAN
  {
    hide Searchable;
    MoveBase(s.positions, start, end, o.level, s.table, s.long, s.ldm);
  }

  /** Searches a block from the base. */
  method Search(s: Finders, o: Options, combined: seq<byte>, start: nat, end: nat, reps: Reps, ghost far: nat)
    returns (seqs: seq<Sequence>)
    requires FindersReady(s, o, start) && InSpan(s.positions.base, o.level.window, end) && start <= end <= |combined|
    requires Reaches(o, far) && Bounded(reps, far)
    modifies s.Own()
    ensures FindersReady(s, o, end) && s.positions.base == old(s.positions.base)
    ensures Parses(combined[s.positions.base..], start - s.positions.base, seqs)
    ensures start + Span(seqs) <= end && AllGood(seqs, far)
  {
    hide Searchable, Parses, AllGood, Span, Reaches, Bounded;
    var base := s.positions.base;
    seqs := FindSequences(combined[base..], start - base, end - base, o, reps, s.table, s.long, s.ldm, far);
  }

  lemma TogetherParts(d: Decoding, out: seq<byte>, st: EntropyState, reps: Reps, far: nat)
    requires Together(d, out, st, reps, far)
    ensures Proper(d, out, st) && st.reps == reps && Bounded(reps, far) && KeepsReach(d.window, far, d.f)
  {
  }

  lemma CarriedTogether(d: Decoding, out: seq<byte>, st: EntropyState, bytes: seq<byte>, out': seq<byte>, reps: Reps, far: nat)
    requires Carries(d, out, st, bytes, out', st) && st.reps == reps && Bounded(reps, far) && KeepsReach(d.window, far, d.f)
    ensures Together(d, out', st, reps, far)
  {
    hide Carries, Bounded, KeepsReach;
    CarriedProper(d, out, st, bytes, out', st);
  }

  /** The next block of the frame: stored, or searched and coded. */
  method NextBlock(combined: seq<byte>, start: nat, end: nat, last: bool, o: Options, reps: Reps, s: Finders,
                   ws: BlockEncodeWorkspace, ghost d: Decoding, ghost out: seq<byte>, ghost st: EntropyState, ghost f0: Fields,
                   ghost far: nat)
    returns (bytes: seq<byte>, reps': Reps, ghost st': EntropyState)
    requires FindersReady(s, o, start) && start < end <= |combined| && end - start <= MAX_BLOCK_SIZE && Reaches(o, far)
    requires Together(d, out, st, reps, far) && Remembers(o, ws, st, f0, far) && Agrees(d.c, o.describe) && ws !in s.Own()
    requires Holds(d, out, combined, start) && InFrame(d.f, out + combined[start..end])
    modifies s.Own(), ws
    ensures FindersReady(s, o, end)
    ensures !last ==> Carries(d, out, st, bytes, out + combined[start..end], st')
    ensures !last ==> Together(d, out + combined[start..end], st', reps', far) && Remembers(o, ws, st', f0, far)
    ensures last ==> Finishes(d, out, st, bytes, out + combined[start..end])
  {
    hide Sound, StateReady, Agrees, Carries, Finishes, Remembers, Searchable, Parses, Span, AllGood, AllCodable, Reaches, InSpan,
         FindersReady, Together, Bounded, Holds, InFrame, Proper, BlockFits, Pow2;
    TogetherParts(d, out, st, reps, far);
    var block := combined[start..end];
    Advance(s, o, start, end);
    if o.skip(block) {
      bytes := StoreBlock(block, last, d, out, st);
      ReadyLater(s, o, start, end);
      reps', st' := reps, st;
      if !last {
        CarriedTogether(d, out, st, bytes, out + block, reps, far);
      }
      return;
    }
    var seqs := Search(s, o, combined, start, end, reps, far);
    SearchedFits(d, out, combined, s.positions.base, start, end, seqs, far, o);
    bytes, reps', st' := CodeBlock(block, seqs, reps, last, o, start, ws, d, out, st, f0, far);
  }

  lemma SearchedFits(d: Decoding, out: seq<byte>, combined: seq<byte>, base: nat, start: nat, end: nat, seqs: seq<Sequence>,
                     far: nat, o: Options)
    requires Holds(d, out, combined, start) && base <= start <= end <= |combined| && end - start <= MAX_BLOCK_SIZE
    requires Parses(combined[base..], start - base, seqs) && start + Span(seqs) <= end && AllGood(seqs, far) && Reaches(o, far)
    requires InFrame(d.f, out + combined[start..end])
    ensures BlockFits(d.f, out, combined[start..end], seqs) && AllCodable(seqs, 28) && far + 3 < Pow2(29)
  {
    hide Parses, Span, AllGood, Pow2;
    ParsesInPlace(d, out, combined, base, start, end, seqs);
    GoodIsCodable(seqs, far, combined[start..end]);
  }

  /** The blocks so far carry the decoder to the content up to `at`, and there is
      room for all of it. */
  ghost predicate Progress(d: Decoding, out0: seq<byte>, st0: EntropyState, combined: seq<byte>, plen: nat, far: nat,
                           bytes: seq<byte>, out: seq<byte>, st: EntropyState, at: nat, reps: Reps) {
    && plen <= at <= |combined| && out == out0 + combined[plen..at] && Together(d, out, st, reps, far)
    && Holds(d, out, combined, at) && Carries(d, out0, st0, bytes, out, st)
    && d.f.start <= |out0| && InFrame(d.f, out0 + combined[plen..])
  }

  lemma ProgressBegins(d: Decoding, out0: seq<byte>, st0: EntropyState, combined: seq<byte>, plen: nat, far: nat, reps: Reps)
    requires plen <= |combined| && Together(d, out0, st0, reps, far) && Holds(d, out0, combined, plen)
    requires d.f.start <= |out0| && InFrame(d.f, out0 + combined[plen..])
    ensures Progress(d, out0, st0, combined, plen, far, [], out0, st0, plen, reps)
  {
    hide Carries, Bounded, Proper;
    CarriesNothing(d, out0, st0);
    assert out0 + combined[plen..plen] == out0;
  }

  lemma ProgressRoom(d: Decoding, out0: seq<byte>, st0: EntropyState, combined: seq<byte>, plen: nat, far: nat,
                     bytes: seq<byte>, out: seq<byte>, st: EntropyState, at: nat, reps: Reps, end: nat)
    requires Progress(d, out0, st0, combined, plen, far, bytes, out, st, at, reps) && at <= end <= |combined|
    ensures Together(d, out, st, reps, far) && Holds(d, out, combined, at) && InFrame(d.f, out + combined[at..end])
  {
    hide Carries, Bounded, Proper;
  }

  lemma ProgressStep(d: Decoding, out0: seq<byte>, st0: EntropyState, combined: seq<byte>, plen: nat, far: nat,
                     bytes: seq<byte>, out: seq<byte>, st: EntropyState, at: nat, reps: Reps,
                     block: seq<byte>, st': EntropyState, end: nat, reps': Reps)
    requires Progress(d, out0, st0, combined, plen, far, bytes, out, st, at, reps) && at <= end <= |combined|
    requires Carries(d, out, st, block, out + combined[at..end], st') && Together(d, out + combined[at..end], st', reps', far)
    ensures Progress(d, out0, st0, combined, plen, far, bytes + block, out + combined[at..end], st', end, reps')
  {
    hide Carries, Bounded, Proper;
    CarriesThen(d, out0, st0, bytes, out, st, block, out + combined[at..end], st');
    HoldsNext(d, out, combined, at, end);
    assert combined[plen..end] == combined[plen..at] + combined[at..end];
  }

  lemma ProgressEnds(d: Decoding, out0: seq<byte>, st0: EntropyState, combined: seq<byte>, plen: nat, far: nat,
                     bytes: seq<byte>, out: seq<byte>, st: EntropyState, at: nat, reps: Reps, block: seq<byte>)
    requires Progress(d, out0, st0, combined, plen, far, bytes, out, st, at, reps)
    requires Finishes(d, out, st, block, out + combined[at..|combined|])
    ensures plen <= |combined| && Finishes(d, out0, st0, bytes + block, out0 + combined[plen..])
  {
    hide Carries, Bounded, Proper, Finishes;
    CarriesFinishes(d, out0, st0, bytes, out, st, block, out + combined[at..|combined|]);
    assert combined[plen..] == combined[plen..at] + combined[at..|combined|];
    assert out + combined[at..|combined|] == out0 + combined[plen..];
  }

  /** All of the input's blocks. */
  method CompressBlocks(combined: seq<byte>, plen: nat, blockSize: nat, o: Options, reps0: Reps, s: Finders,
                        ws: BlockEncodeWorkspace, ghost d: Decoding, ghost out0: seq<byte>, ghost st0: EntropyState,
                        ghost f0: Fields, ghost far: nat)
    returns (bytes: seq<byte>)
    requires plen < |combined| && 0 < blockSize <= MAX_BLOCK_SIZE && Reaches(o, far) && FindersReady(s, o, plen)
    requires Progress(d, out0, st0, combined, plen, far, [], out0, st0, plen, reps0)
    requires Remembers(o, ws, st0, f0, far) && Agrees(d.c, o.describe) && ws !in s.Own()
    modifies s.Own(), ws
    ensures Finishes(d, out0, st0, bytes, out0 + combined[plen..])
  {
    hide Agrees, Carries, Finishes, Remembers, Reaches, Holds, FindersReady, Progress, Together, InFrame, Sound;
    bytes := [];
    var at: nat, reps := plen, reps0;
    ghost var out, st := out0, st0;
    while true
      invariant plen <= at < |combined| && FindersReady(s, o, at) && Remembers(o, ws, st, f0, far)
      invariant Progress(d, out0, st0, combined, plen, far, bytes, out, st, at, reps)
      decreases |combined| - at
    {
      var end: nat := at + Min(|combined| - at, blockSize);
      var last := end >= |combined|;
      ProgressRoom(d, out0, st0, combined, plen, far, bytes, out, st, at, reps, end);
      ghost var st';
      var block, reps';
      block, reps', st' := NextBlock(combined, at, end, last, o, reps, s, ws, d, out, st, f0, far);
      if last {
        ProgressEnds(d, out0, st0, combined, plen, far, bytes, out, st, at, reps, block);
        return bytes + block;
      }
      ProgressStep(d, out0, st0, combined, plen, far, bytes, out, st, at, reps, block, st', end, reps');
      bytes := bytes + block;
      out, st, reps, at := out + combined[at..end], st', reps', end;
    }
  }
}
